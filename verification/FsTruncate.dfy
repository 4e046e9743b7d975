/** How much itrunc, and so iput and unlink, may log in one transaction. Writing is cut into pieces
    that fit the log on every disk; freeing is not, and fits exactly on disks that are not too
    large. */
module FsTruncate {
  import opened Blocks
  import opened FsModel
  import opened FsLayout
  import opened FsAlloc
  import opened FsInodes
  import FileWrite
  import LogDisk

  /** The number of bitmap blocks that hold bits of data blocks. */
  function DataMaps(sb: Super): nat
    requires sb.Good()
  {
    if sb.nblocks == 0 then 0 else (sb.size - 1) / BPB - sb.Meta() / BPB + 1
  }

  /** Freeing inode `i` of file system `f` logs no more blocks than one operation may. */
  ghost predicate TruncFits(sb: Super, f: Fs, own: Owner, i: nat)
    requires sb.Good()
  {
    Sound(sb.Geo(), f, own) && NoHoles(f) && 1 <= i < sb.ninodes && Live(f, i) ==>
      |TruncLogs(sb, f, i)| <= LogDisk.MAXOPBLOCKS
  }

  // ---- At most one bitmap block each ---------------------------------------------------

  /** A bitmap block with bits of data blocks. */
  predicate InDataMaps(sb: Super, x: nat)
    requires sb.Good()
  {
    sb.nblocks > 0 && sb.bmapstart + sb.Meta() / BPB <= x <= sb.bmapstart + (sb.size - 1) / BPB
  }

  lemma {:induction false} MapsInRange(sb: Super, f: Fs, own: Owner, i: nat, k: nat)
    requires sb.Good() && Sound(sb.Geo(), f, own) && Live(f, i) && k <= SLOTS
    ensures forall x :: x in MapsOf(sb, f, i, k) ==> InDataMaps(sb, x)
  {
    if k > 0 {
      MapsInRange(sb, f, own, i, k - 1);
      assert SlotOk(sb.Geo(), f, own, i, k - 1);
      if Ref(f, i, k - 1) != 0 {
        MapInRange(sb, Ref(f, i, k - 1));
      }
    }
  }

  lemma MapInRange(sb: Super, b: nat)
    requires sb.Good() && sb.Meta() <= b < sb.size
    ensures InDataMaps(sb, sb.BBlock(b))
  {
  }

  lemma TruncBound(sb: Super, f: Fs, own: Owner, i: nat)
    requires sb.Good() && Sound(sb.Geo(), f, own) && Live(f, i)
    ensures |TruncLogs(sb, f, i)| <= DataMaps(sb) + 1
  {
    var maps := MapsOf(sb, f, i, SLOTS);
    MapsInRange(sb, f, own, i, SLOTS);
    FileWrite.RangeSize(sb.bmapstart + sb.Meta() / BPB, DataMaps(sb), maps);
    FileWrite.UnionSize(maps, {sb.IBlock(i)});
  }

  // ---- A file spread over ten bitmap blocks ----------------------------------------------

  const SPREAD: nat := LogDisk.MAXOPBLOCKS

  /** The first data block whose bit lies in the `k`-th bitmap block of the data area. */
  function Far(sb: Super, k: nat): nat
    requires sb.Good()
  {
    if k == 0 then sb.Meta() else (sb.Meta() / BPB + k) * BPB
  }

  predicate IsFar(sb: Super, b: nat)
    requires sb.Good()
  {
    sb.Meta() / BPB <= b / BPB < sb.Meta() / BPB + SPREAD && b == Far(sb, b / BPB - sb.Meta() / BPB)
  }

  predicate Wide(sb: Super) {
    sb.Good() && DataMaps(sb) >= SPREAD && sb.ninodes > 1
  }

  lemma FarIs(sb: Super, k: nat)
    requires Wide(sb) && k < SPREAD
    ensures sb.Meta() <= Far(sb, k) < sb.size && Far(sb, k) / BPB == sb.Meta() / BPB + k && IsFar(sb, Far(sb, k))
  {
    Quotient(sb.Meta() / BPB + k);
    Quotient((sb.size - 1) / BPB);
    assert sb.Meta() / BPB + k <= (sb.size - 1) / BPB;
    FarBelow(sb.Meta() / BPB + k, (sb.size - 1) / BPB);
  }

  lemma Quotient(q: nat)
    ensures q * BPB / BPB == q
  {
  }

  lemma FarBelow(q: nat, r: nat)
    requires q <= r
    ensures q * BPB <= r * BPB
  {
  }

  function SpreadAddr(sb: Super, k: nat): word
    requires Wide(sb)
  {
    if k < SPREAD then FarIs(sb, k); Far(sb, k) else 0
  }

  function SpreadAddrs(sb: Super): (a: Addrs)
    requires Wide(sb)
    ensures forall k: nat :: k <= NDIRECT ==> a[k] == SpreadAddr(sb, k)
  {
    seq(NDIRECT + 1, k requires 0 <= k <= NDIRECT => SpreadAddr(sb, k))
  }

  function SpreadFile(sb: Super): Dinode
    requires Wide(sb)
  {
    Dinode(T_FILE, 0, 0, 1, SPREAD * BSIZE, SpreadAddrs(sb))
  }

  function FreeInode(): Dinode { Dinode(0, 0, 0, 0, 0, NoAddrs()) }

  function SpreadInodes(sb: Super): (ds: seq<Dinode>)
    requires Wide(sb)
    ensures |ds| == sb.ninodes && forall i: nat :: i < |ds| ==> ds[i] == if i == 1 then SpreadFile(sb) else FreeInode()
  {
    seq(sb.ninodes, i => if i == 1 then SpreadFile(sb) else FreeInode())
  }

  function SpreadBits(sb: Super): (bits: seq<bool>)
    requires Wide(sb)
    ensures |bits| == sb.size && forall b: nat :: b < |bits| ==> bits[b] == (b < sb.Meta() || IsFar(sb, b))
  {
    seq(sb.size, b requires 0 <= b < sb.size => b < sb.Meta() || IsFar(sb, b))
  }

  function Blank(n: nat): (bs: seq<Block>)
    ensures |bs| == n
  {
    seq(n, _ => Zeros())
  }

  /** A file system with one file, each of whose blocks has its bit in another bitmap block. */
  function SpreadFs(sb: Super): Fs
    requires Wide(sb)
  {
    Fs(SpreadBits(sb), SpreadInodes(sb), Blank(sb.size))
  }

  ghost function SpreadOwner(sb: Super): Owner
    requires Wide(sb)
  {
    map b: nat | b < sb.size && IsFar(sb, b) :: (1, b / BPB - sb.Meta() / BPB)
  }

  lemma SpreadRef(sb: Super, k: nat)
    requires Wide(sb) && k < SLOTS
    ensures Ref(SpreadFs(sb), 1, k) == SpreadAddr(sb, k)
  {
    assert SpreadFs(sb).inodes[1] == SpreadFile(sb);
    assert SpreadFile(sb).addrs[NDIRECT] == SpreadAddr(sb, NDIRECT) == 0;
    if k < NDIRECT {
      assert SpreadFile(sb).addrs[k] == SpreadAddr(sb, k);
    }
  }

  lemma SpreadSlot(sb: Super, i: nat, k: nat)
    requires Wide(sb) && i < sb.ninodes && k < SLOTS
    ensures SlotOk(sb.Geo(), SpreadFs(sb), SpreadOwner(sb), i, k)
  {
    if i == 1 {
      SpreadRef(sb, k);
      if k < SPREAD {
        FarIs(sb, k);
        assert Far(sb, k) in SpreadOwner(sb);
      }
    }
  }

  lemma SpreadBlock(sb: Super, b: nat)
    requires Wide(sb) && b < sb.size
    ensures BlockOk(sb.Geo(), SpreadFs(sb), SpreadOwner(sb), b)
  {
    if IsFar(sb, b) {
      var k := b / BPB - sb.Meta() / BPB;
      FarIs(sb, k);
      SpreadRef(sb, k);
    }
  }

  lemma SpreadSound(sb: Super)
    requires Wide(sb)
    ensures Sound(sb.Geo(), SpreadFs(sb), SpreadOwner(sb)) && NoHoles(SpreadFs(sb))
  {
    forall i: nat, k: nat | i < sb.ninodes && k < SLOTS ensures SlotOk(sb.Geo(), SpreadFs(sb), SpreadOwner(sb), i, k) {
      SpreadSlot(sb, i, k);
    }
    forall b: nat | b < sb.size ensures BlockOk(sb.Geo(), SpreadFs(sb), SpreadOwner(sb), b) {
      SpreadBlock(sb, b);
    }
    forall i: nat | i < sb.ninodes ensures NoHole(SpreadFs(sb), i) {
      forall k: nat | i == 1 && k < MAXFILE && k * BSIZE < SPREAD * BSIZE ensures Ref(SpreadFs(sb), i, k) != 0 {
        SpreadRef(sb, k);
        FarIs(sb, k);
      }
    }
  }

  lemma {:induction false} MapsHold(sb: Super, f: Fs, i: nat, m: nat, k: nat)
    requires i < |f.inodes| && m < k <= SLOTS && Ref(f, i, m) != 0
    ensures sb.BBlock(Ref(f, i, m)) in MapsOf(sb, f, i, k)
  {
    if m < k - 1 {
      MapsHold(sb, f, i, m, k - 1);
    }
  }

  lemma {:induction false} RangeWithin(lo: nat, n: nat, s: set<nat>)
    requires forall x: nat :: lo <= x < lo + n ==> x in s
    ensures n <= |s|
  {
    if n > 0 {
      var last := lo + n - 1;
      RangeWithin(lo, n - 1, s - {last});
    }
  }

  lemma SpreadMaps(sb: Super)
    requires Wide(sb)
    ensures |MapsOf(sb, SpreadFs(sb), 1, SLOTS)| >= SPREAD
  {
    var lo, maps := sb.bmapstart + sb.Meta() / BPB, MapsOf(sb, SpreadFs(sb), 1, SLOTS);
    forall x: nat | lo <= x < lo + SPREAD ensures x in maps {
      SpreadMap(sb, x - lo);
    }
    RangeWithin(lo, SPREAD, maps);
  }

  lemma SpreadMap(sb: Super, k: nat)
    requires Wide(sb) && k < SPREAD
    ensures sb.bmapstart + sb.Meta() / BPB + k in MapsOf(sb, SpreadFs(sb), 1, SLOTS)
  {
    SpreadRef(sb, k);
    FarIs(sb, k);
    MapsHold(sb, SpreadFs(sb), 1, k, SLOTS);
  }

  lemma OneMore(s: set<nat>, x: nat)
    requires x !in s
    ensures |s + {x}| == |s| + 1
  {
  }

  lemma SpreadTooMuch(sb: Super)
    requires Wide(sb)
    ensures !TruncFits(sb, SpreadFs(sb), SpreadOwner(sb), 1)
  {
    SpreadSound(sb);
    SpreadMaps(sb);
    InodeBlockApart(sb, SpreadFs(sb), SpreadOwner(sb), 1);
    OneMore(MapsOf(sb, SpreadFs(sb), 1, SLOTS), sb.IBlock(1));
  }

  /** The inode's block is no bitmap block. */
  lemma InodeBlockApart(sb: Super, f: Fs, own: Owner, i: nat)
    requires sb.Good() && Sound(sb.Geo(), f, own) && Live(f, i)
    ensures sb.IBlock(i) !in MapsOf(sb, f, i, SLOTS)
  {
    MapsInRange(sb, f, own, i, SLOTS);
    BlockRanges(sb, 0, i);
  }

  /** Freeing a file fits one operation's share of the log, in every sound file system on the disk,
      exactly if fewer than MAXOPBLOCKS bitmap blocks cover its data area. */
  lemma TruncFitsExactly(sb: Super)
    requires sb.Good()
    ensures (forall f: Fs, own: Owner, i: nat :: TruncFits(sb, f, own, i)) <==> sb.ninodes <= 1 || DataMaps(sb) < LogDisk.MAXOPBLOCKS
  {
    if sb.ninodes <= 1 || DataMaps(sb) < LogDisk.MAXOPBLOCKS {
      forall f: Fs, own: Owner, i: nat ensures TruncFits(sb, f, own, i) {
        if Sound(sb.Geo(), f, own) && 1 <= i < sb.ninodes && Live(f, i) {
          TruncBound(sb, f, own, i);
        }
      }
    } else {
      SpreadTooMuch(sb);
    }
  }
}
