/** How the file system of fs.h lies on the disk: bitmap bits, 64-byte inodes and data blocks
    inside 512-byte blocks. Changing one of them on disk is shown to change that one and
    nothing else of the file system it encodes. */
module FsLayout {
  import opened Blocks
  import opened FsModel

  const BPB: nat := BSIZE * 8   // bitmap bits per block
  const IPB: nat := 8           // inodes per block
  const IWORDS: nat := 16       // words per inode

  datatype Super = Super(size: nat, nblocks: nat, ninodes: nat, nlog: nat, logstart: nat, inodestart: nat, bmapstart: nat) {
    function Meta(): int { size - nblocks }

    /** boot block, super block, log, inode blocks, bitmap, data blocks: in this order. */
    predicate Good() {
      && nblocks < size <= 0x1_0000_0000
      && 2 <= logstart && logstart + nlog <= inodestart
      && inodestart + ninodes / IPB + 1 <= bmapstart
      && bmapstart + size / BPB + 1 <= Meta()
    }

    function Geo(): Geometry
      requires Good()
    {
      Geometry(Meta(), size, ninodes)
    }

    function IBlock(i: nat): nat { i / IPB + inodestart }
    function BBlock(b: nat): nat { b / BPB + bmapstart }
  }

  // ---- Bits -------------------------------------------------------------------------

  /** (x & (1 << k)) != 0 */
  predicate TestBit(x: nat, k: nat) {
    if k == 0 then x % 2 == 1 else TestBit(x / 2, k - 1)
  }

  /** x | (1 << k) for `on`, x & ~(1 << k) otherwise. */
  function WithBit(x: nat, k: nat, on: bool): nat {
    if k == 0 then x / 2 * 2 + (if on then 1 else 0) else 2 * WithBit(x / 2, k - 1, on) + x % 2
  }

  /** Changing one bit changes that bit alone. */
  lemma {:induction false} WithBitIs(x: nat, k: nat, on: bool, j: nat)
    ensures TestBit(WithBit(x, k, on), j) == if j == k then on else TestBit(x, j)
  {
    var w, b := if k == 0 then x / 2 else WithBit(x / 2, k - 1, on), if k == 0 then (if on then 1 else 0) else x % 2;
    LowBit(w, b);
    assert WithBit(x, k, on) == 2 * w + b;
    if k > 0 && j > 0 {
      WithBitIs(x / 2, k - 1, on, j - 1);
    }
  }

  lemma LowBit(w: nat, b: nat)
    requires b < 2
    ensures (2 * w + b) / 2 == w && (2 * w + b) % 2 == b
  {
  }

  /** A byte stays a byte. */
  lemma WithBitByte(x: byte, k: nat, on: bool)
    requires k < 8
    ensures WithBit(x, k, on) < 256
  {
    WithBitBound(x, k, on, 8);
  }

  function Pow2(n: nat): nat { if n == 0 then 1 else 2 * Pow2(n - 1) }

  lemma {:induction false} WithBitBound(x: nat, k: nat, on: bool, n: nat)
    requires k < n && x < Pow2(n)
    ensures WithBit(x, k, on) < Pow2(n)
  {
    var p := Pow2(n - 1);
    assert Pow2(n) == 2 * p && x / 2 < p;
    if k > 0 {
      WithBitBound(x / 2, k - 1, on, n - 1);
      var w := WithBit(x / 2, k - 1, on);
      assert WithBit(x, k, on) == 2 * w + x % 2 && w < p;
    }
  }

  /** Bit `b` of the free map. */
  function BitOf(sb: Super, raw: seq<Block>, b: nat): bool
    requires sb.Good() && |raw| == sb.size && b < sb.size
  {
    TestBit(raw[sb.BBlock(b)][b % BPB / 8], b % 8)
  }

  // ---- Inodes -----------------------------------------------------------------------

  /** Word `j` of the 16 words of a struct dinode; the first two hold two 16-bit fields each. */
  function DinodeWord(d: Dinode, j: nat): word
    requires j < IWORDS
  {
    if j == 0 then d.kind + 0x1_0000 * d.major
    else if j == 1 then d.minor + 0x1_0000 * d.nlink
    else if j == 2 then d.size
    else d.addrs[j - 3]
  }

  function Gather(blk: Block, w: nat, n: nat): (a: seq<word>)
    requires w + n <= WORDS
    ensures |a| == n && forall j :: 0 <= j < n ==> a[j] == GetWord(blk, w + j)
  {
    if n == 0 then [] else Gather(blk, w, n - 1) + [GetWord(blk, w + n - 1)]
  }

  function GetAddrs(blk: Block, w: nat): Addrs
    requires w + NDIRECT < WORDS
  {
    Gather(blk, w, NDIRECT + 1)
  }

  function GetDinode(blk: Block, slot: nat): Dinode
    requires slot < IPB
  {
    var w := IWORDS * slot;
    Dinode(GetWord(blk, w) % 0x1_0000, GetWord(blk, w) / 0x1_0000,
           GetWord(blk, w + 1) % 0x1_0000, GetWord(blk, w + 1) / 0x1_0000,
           GetWord(blk, w + 2), GetAddrs(blk, w + 3))
  }

  /** The block with the first `k` words of `d` stored in inode slot `slot`. */
  function PutDinodeWords(blk: Block, slot: nat, d: Dinode, k: nat): Block
    requires slot < IPB && k <= IWORDS
  {
    if k == 0 then blk
    else PutWord(PutDinodeWords(blk, slot, d, k - 1), IWORDS * slot + k - 1, DinodeWord(d, k - 1))
  }

  function PutDinode(blk: Block, slot: nat, d: Dinode): Block
    requires slot < IPB
  {
    PutDinodeWords(blk, slot, d, IWORDS)
  }

  lemma {:induction false} PutDinodeGet(blk: Block, slot: nat, d: Dinode, k: nat, j: nat)
    requires slot < IPB && k <= IWORDS && j < WORDS
    ensures GetWord(PutDinodeWords(blk, slot, d, k), j) ==
            if IWORDS * slot <= j < IWORDS * slot + k then DinodeWord(d, j - IWORDS * slot) else GetWord(blk, j)
  {
    if k > 0 {
      PutDinodeGet(blk, slot, d, k - 1, j);
      PutGetWord(PutDinodeWords(blk, slot, d, k - 1), IWORDS * slot + k - 1, DinodeWord(d, k - 1), j);
    }
  }

  lemma Halves(lo: short, hi: short)
    ensures (lo + 0x1_0000 * hi) % 0x1_0000 == lo && (lo + 0x1_0000 * hi) / 0x1_0000 == hi
  {
  }

  /** An inode is what its 16 words say. */
  lemma DinodeFromWords(blk: Block, slot: nat, d: Dinode)
    requires slot < IPB
    requires forall j: nat :: j < IWORDS ==> GetWord(blk, IWORDS * slot + j) == DinodeWord(d, j)
    ensures GetDinode(blk, slot) == d
  {
    var w := IWORDS * slot;
    assert GetWord(blk, w + 0) == DinodeWord(d, 0);
    assert GetWord(blk, w + 1) == DinodeWord(d, 1);
    assert GetWord(blk, w + 2) == DinodeWord(d, 2);
    Halves(d.kind, d.major);
    Halves(d.minor, d.nlink);
    var a := GetAddrs(blk, w + 3);
    forall j: nat | j <= NDIRECT ensures a[j] == d.addrs[j] {
      assert GetWord(blk, w + (3 + j)) == DinodeWord(d, 3 + j);
    }
    assert a == d.addrs;
  }

  /** Writing an inode and reading that slot back. */
  lemma DinodeRoundTrip(blk: Block, slot: nat, d: Dinode)
    requires slot < IPB
    ensures GetDinode(PutDinode(blk, slot, d), slot) == d
  {
    var r := PutDinode(blk, slot, d);
    forall j: nat | j < IWORDS ensures GetWord(r, IWORDS * slot + j) == DinodeWord(d, j) {
      PutDinodeGet(blk, slot, d, IWORDS, IWORDS * slot + j);
    }
    DinodeFromWords(r, slot, d);
  }

  lemma WordsOfDinode(blk: Block, slot: nat, j: nat)
    requires slot < IPB && j < IWORDS
    ensures GetWord(blk, IWORDS * slot + j) == DinodeWord(GetDinode(blk, slot), j)
  {
    if j >= 3 { assert GetAddrs(blk, IWORDS * slot + 3)[j - 3] == GetWord(blk, IWORDS * slot + 3 + (j - 3)); }
  }

  /** The other slots of the block keep their inodes. */
  lemma DinodeOther(blk: Block, slot: nat, d: Dinode, t: nat)
    requires slot < IPB && t < IPB && t != slot
    ensures GetDinode(PutDinode(blk, slot, d), t) == GetDinode(blk, t)
  {
    var r, was := PutDinode(blk, slot, d), GetDinode(blk, t);
    forall j: nat | j < IWORDS ensures GetWord(r, IWORDS * t + j) == DinodeWord(was, j) {
      PutDinodeGet(blk, slot, d, IWORDS, IWORDS * t + j);
      WordsOfDinode(blk, t, j);
    }
    DinodeFromWords(r, t, was);
  }

  function InodeOf(sb: Super, raw: seq<Block>, i: nat): Dinode
    requires sb.Good() && |raw| == sb.size && i < sb.ninodes
  {
    GetDinode(raw[sb.IBlock(i)], i % IPB)
  }

  // ---- The file system on a disk ----------------------------------------------------

  function BitsOf(sb: Super, raw: seq<Block>): (bits: seq<bool>)
    requires sb.Good() && |raw| == sb.size
    ensures |bits| == sb.size
  {
    seq(sb.size, b requires 0 <= b < sb.size => BitOf(sb, raw, b))
  }

  function InodesOf(sb: Super, raw: seq<Block>): (ds: seq<Dinode>)
    requires sb.Good() && |raw| == sb.size
    ensures |ds| == sb.ninodes
  {
    seq(sb.ninodes, i requires 0 <= i < sb.ninodes => InodeOf(sb, raw, i))
  }

  function DataBlock(sb: Super, raw: seq<Block>, b: nat): Block
    requires b < |raw|
  {
    if b < sb.Meta() then Zeros() else raw[b]
  }

  /** The data area; metadata blocks are not part of it and read as zeros. */
  function DataOf(sb: Super, raw: seq<Block>): (ds: seq<Block>)
    requires sb.Good() && |raw| == sb.size
    ensures |ds| == sb.size
  {
    seq(sb.size, b requires 0 <= b < sb.size => DataBlock(sb, raw, b))
  }

  function Decode(sb: Super, raw: seq<Block>): (f: Fs)
    requires sb.Good() && |raw| == sb.size
    ensures sb.Geo().Fits(f)
  {
    Fs(BitsOf(sb, raw), InodesOf(sb, raw), DataOf(sb, raw))
  }

  /** Where struct dinode's fields lie: 64 bytes an inode, eight inodes a block. */
  lemma InodeFormat(sb: Super, raw: seq<Block>, i: nat)
    requires sb.Good() && |raw| == sb.size && i < sb.ninodes
    ensures sb.inodestart + i / 8 < |raw|
    ensures var d, blk, o := Decode(sb, raw).inodes[i], raw[sb.inodestart + i / 8], 64 * (i % 8);
            && d.kind == ShortAt(blk, o) && d.major == ShortAt(blk, o + 2) && d.minor == ShortAt(blk, o + 4)
            && d.nlink == ShortAt(blk, o + 6) && d.size == UintAt(blk, o + 8)
            && forall k: nat :: k < 13 ==> d.addrs[k] == UintAt(blk, o + 12 + 4 * k)
  {
    BlockRanges(sb, 0, i);
    var blk, w := raw[sb.IBlock(i)], IWORDS * (i % IPB);
    Halves(ShortAt(blk, 4 * w), ShortAt(blk, 4 * w + 2));
    Halves(ShortAt(blk, 4 * w + 4), ShortAt(blk, 4 * w + 6));
  }

  /** Where the bit of a block lies: 4096 bits a block, the lowest bit of a byte first. */
  lemma BitFormat(sb: Super, raw: seq<Block>, b: nat)
    requires sb.Good() && |raw| == sb.size && b < sb.size
    ensures sb.bmapstart + b / 4096 < |raw|
    ensures Decode(sb, raw).bits[b] <==> raw[sb.bmapstart + b / 4096][b % 4096 / 8] / [1, 2, 4, 8, 16, 32, 64, 128][b % 8] % 2 == 1
  {
    BlockRanges(sb, b, 0);
    TestBitIs(raw[sb.BBlock(b)][b % BPB / 8], b % 8);
  }

  lemma {:induction false} TestBitIs(x: byte, k: nat)
    requires k < 8
    ensures TestBit(x, k) <==> x / [1, 2, 4, 8, 16, 32, 64, 128][k] % 2 == 1
  {
    if k > 0 {
      TestBitIs(x / 2, k - 1);
      assert x / 2 / 2 == x / 4 && x / 2 / 4 == x / 8 && x / 2 / 8 == x / 16;
      assert x / 2 / 16 == x / 32 && x / 2 / 32 == x / 64 && x / 2 / 64 == x / 128;
      assert k == 1 || k == 2 || k == 3 || k == 4 || k == 5 || k == 6 || k == 7;
    }
  }

  lemma BlockRanges(sb: Super, b: nat, i: nat)
    requires sb.Good()
    ensures b < sb.size ==> sb.bmapstart <= sb.BBlock(b) < sb.Meta()
    ensures i < sb.ninodes ==> sb.inodestart <= sb.IBlock(i) < sb.bmapstart
  {
  }

  /** Blocks `lo .. hi-1` are the same on both disks. */
  predicate Same(raw: seq<Block>, raw': seq<Block>, lo: int, hi: int) {
    |raw| == |raw'| && forall x: nat :: lo <= x < hi && x < |raw| ==> raw'[x] == raw[x]
  }

  lemma BitsSame(sb: Super, raw: seq<Block>, raw': seq<Block>)
    requires sb.Good() && |raw| == sb.size && Same(raw, raw', sb.bmapstart, sb.Meta())
    ensures BitsOf(sb, raw') == BitsOf(sb, raw)
  {
    forall b: nat | b < sb.size ensures BitOf(sb, raw', b) == BitOf(sb, raw, b) { BlockRanges(sb, b, 0); }
  }

  lemma InodesSame(sb: Super, raw: seq<Block>, raw': seq<Block>)
    requires sb.Good() && |raw| == sb.size && Same(raw, raw', sb.inodestart, sb.bmapstart)
    ensures InodesOf(sb, raw') == InodesOf(sb, raw)
  {
    forall i: nat | i < sb.ninodes ensures InodeOf(sb, raw', i) == InodeOf(sb, raw, i) { BlockRanges(sb, 0, i); }
  }

  lemma DataSame(sb: Super, raw: seq<Block>, raw': seq<Block>)
    requires sb.Good() && |raw| == sb.size && Same(raw, raw', sb.Meta(), sb.size)
    ensures DataOf(sb, raw') == DataOf(sb, raw)
  {
  }

  /** A data block write changes that block of the file system and nothing else. */
  lemma WriteDataIs(sb: Super, raw: seq<Block>, b: nat, data: Block)
    requires sb.Good() && |raw| == sb.size && sb.Meta() <= b < sb.size
    ensures Decode(sb, raw[b := data]) == PutBlock(Decode(sb, raw), b, data)
  {
    BitsSame(sb, raw, raw[b := data]);
    InodesSame(sb, raw, raw[b := data]);
    assert DataOf(sb, raw[b := data]) == DataOf(sb, raw)[b := data];
  }

  /** The bitmap block of `b` with bit `b` set to `on`. */
  function BitBlock(sb: Super, raw: seq<Block>, b: nat, on: bool): Block
    requires sb.Good() && |raw| == sb.size && b < sb.size
  {
    WithBitByte(raw[sb.BBlock(b)][b % BPB / 8], b % 8, on);
    var blk := raw[sb.BBlock(b)];
    blk[b % BPB / 8 := WithBit(blk[b % BPB / 8], b % 8, on)]
  }

  lemma SameBit(x: nat, b: nat)
    requires x / BPB == b / BPB && x % BPB / 8 == b % BPB / 8 && x % 8 == b % 8
    ensures x == b
  {
    BitPlace(x);
    BitPlace(b);
  }

  lemma BitPlace(x: nat)
    ensures x == x / BPB * BPB + x % BPB / 8 * 8 + x % 8
  {
    assert x % BPB % 8 == x % 8;
  }

  /** The byte of a bitmap block that holds bit `x`. */
  lemma BitByte(sb: Super, raw: seq<Block>, b: nat, on: bool, x: nat)
    requires sb.Good() && |raw| == sb.size && b < sb.size && x < sb.size
    ensures var raw' := raw[sb.BBlock(b) := BitBlock(sb, raw, b, on)];
            raw'[sb.BBlock(x)][x % BPB / 8] ==
              if x / BPB == b / BPB && x % BPB / 8 == b % BPB / 8 then WithBit(raw[sb.BBlock(b)][b % BPB / 8], b % 8, on)
              else raw[sb.BBlock(x)][x % BPB / 8]
  {
  }

  lemma BitBlockAt(sb: Super, raw: seq<Block>, b: nat, on: bool, x: nat)
    requires sb.Good() && |raw| == sb.size && b < sb.size && x < sb.size
    ensures BitOf(sb, raw[sb.BBlock(b) := BitBlock(sb, raw, b, on)], x) == if x == b then on else BitOf(sb, raw, x)
  {
    BitByte(sb, raw, b, on, x);
    if x == b {
      WithBitIs(raw[sb.BBlock(b)][b % BPB / 8], b % 8, on, b % 8);
    } else if x / BPB == b / BPB && x % BPB / 8 == b % BPB / 8 {
      assert x % 8 != b % 8 by {
        if x % 8 == b % 8 {
          SameBit(x, b);
        }
      }
      WithBitIs(raw[sb.BBlock(b)][b % BPB / 8], b % 8, on, x % 8);
    }
  }

  /** Changing one bitmap bit on disk changes that bit of the file system and nothing else. */
  lemma WriteBitIs(sb: Super, raw: seq<Block>, b: nat, on: bool)
    requires sb.Good() && |raw| == sb.size && b < sb.size
    ensures var f := Decode(sb, raw);
            Decode(sb, raw[sb.BBlock(b) := BitBlock(sb, raw, b, on)]) == f.(bits := f.bits[b := on])
  {
    var raw' := raw[sb.BBlock(b) := BitBlock(sb, raw, b, on)];
    BlockRanges(sb, b, 0);
    BitsChange(sb, raw, b, on);
    InodesSame(sb, raw, raw');
    DataSame(sb, raw, raw');
  }

  lemma BitsChange(sb: Super, raw: seq<Block>, b: nat, on: bool)
    requires sb.Good() && |raw| == sb.size && b < sb.size
    ensures BitsOf(sb, raw[sb.BBlock(b) := BitBlock(sb, raw, b, on)]) == BitsOf(sb, raw)[b := on]
  {
    var now, want := BitsOf(sb, raw[sb.BBlock(b) := BitBlock(sb, raw, b, on)]), BitsOf(sb, raw)[b := on];
    forall x: nat | x < sb.size ensures now[x] == want[x] {
      BitBlockAt(sb, raw, b, on, x);
    }
  }

  /** Storing one inode on disk changes that inode of the file system and nothing else. */
  lemma WriteInodeIs(sb: Super, raw: seq<Block>, i: nat, d: Dinode)
    requires sb.Good() && |raw| == sb.size && i < sb.ninodes
    ensures Decode(sb, raw[sb.IBlock(i) := PutDinode(raw[sb.IBlock(i)], i % IPB, d)]) == SetInode(Decode(sb, raw), i, d)
  {
    var raw' := raw[sb.IBlock(i) := PutDinode(raw[sb.IBlock(i)], i % IPB, d)];
    BlockRanges(sb, 0, i);
    InodesChange(sb, raw, i, d);
    BitsSame(sb, raw, raw');
    DataSame(sb, raw, raw');
  }

  lemma InodesChange(sb: Super, raw: seq<Block>, i: nat, d: Dinode)
    requires sb.Good() && |raw| == sb.size && i < sb.ninodes
    ensures InodesOf(sb, raw[sb.IBlock(i) := PutDinode(raw[sb.IBlock(i)], i % IPB, d)]) == InodesOf(sb, raw)[i := d]
  {
    var now, want := InodesOf(sb, raw[sb.IBlock(i) := PutDinode(raw[sb.IBlock(i)], i % IPB, d)]), InodesOf(sb, raw)[i := d];
    forall j: nat | j < sb.ninodes ensures now[j] == want[j] {
      InodeAfter(sb, raw, i, d, j);
    }
  }

  lemma SlotsApart(i: nat, j: nat)
    requires i / IPB == j / IPB && i != j
    ensures i % IPB != j % IPB
  {
  }

  lemma InodeElsewhere(sb: Super, raw: seq<Block>, i: nat, blk: Block, j: nat)
    requires sb.Good() && |raw| == sb.size && i < sb.ninodes && j < sb.ninodes && i / IPB != j / IPB
    ensures InodeOf(sb, raw[sb.IBlock(i) := blk], j) == InodeOf(sb, raw, j)
  {
    assert raw[sb.IBlock(i) := blk][sb.IBlock(j)] == raw[sb.IBlock(j)];
  }

  /** A block of inodes replaced: what inode `j` of that block decodes to. */
  lemma InodeBeside(sb: Super, raw: seq<Block>, i: nat, blk: Block, j: nat)
    requires sb.Good() && |raw| == sb.size && i < sb.ninodes && j < sb.ninodes && sb.IBlock(i) == sb.IBlock(j)
    ensures InodeOf(sb, raw[sb.IBlock(i) := blk], j) == GetDinode(blk, j % IPB)
  {
    assert raw[sb.IBlock(i) := blk][sb.IBlock(j)] == blk;
  }

  lemma InodeWritten(sb: Super, raw: seq<Block>, i: nat, d: Dinode)
    requires sb.Good() && |raw| == sb.size && i < sb.ninodes
    ensures InodeOf(sb, raw[sb.IBlock(i) := PutDinode(raw[sb.IBlock(i)], i % IPB, d)], i) == d
  {
    InodeBeside(sb, raw, i, PutDinode(raw[sb.IBlock(i)], i % IPB, d), i);
    DinodeRoundTrip(raw[sb.IBlock(i)], i % IPB, d);
  }

  lemma InodeNear(sb: Super, raw: seq<Block>, i: nat, slot: nat, d: Dinode, j: nat)
    requires sb.Good() && |raw| == sb.size && i < sb.ninodes && j < sb.ninodes && sb.IBlock(i) == sb.IBlock(j)
    requires slot < IPB && j % IPB != slot
    ensures InodeOf(sb, raw[sb.IBlock(i) := PutDinode(raw[sb.IBlock(i)], slot, d)], j) == InodeOf(sb, raw, j)
  {
    InodeBeside(sb, raw, i, PutDinode(raw[sb.IBlock(i)], slot, d), j);
    DinodeOther(raw[sb.IBlock(i)], slot, d, j % IPB);
  }

  lemma InodeAfter(sb: Super, raw: seq<Block>, i: nat, d: Dinode, j: nat)
    requires sb.Good() && |raw| == sb.size && i < sb.ninodes && j < sb.ninodes
    ensures InodeOf(sb, raw[sb.IBlock(i) := PutDinode(raw[sb.IBlock(i)], i % IPB, d)], j) == if j == i then d else InodeOf(sb, raw, j)
  {
    if i == j {
      InodeWritten(sb, raw, i, d);
    } else if i / IPB == j / IPB {
      SlotsApart(i, j);
      InodeNear(sb, raw, i, i % IPB, d, j);
    } else {
      InodeElsewhere(sb, raw, i, PutDinode(raw[sb.IBlock(i)], i % IPB, d), j);
    }
  }
}
