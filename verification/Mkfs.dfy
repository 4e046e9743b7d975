/** mkfs.c: the image it builds satisfies the file-system invariant, with one exception that is
    characterised exactly. While mkfs works, blocks below `freeblock` count as used; the bitmap
    that says so is written last. */
module Mkfs {
  import opened Blocks
  import opened FsModel
  import opened FsLayout
  import opened FsAlloc
  import opened FsBytes
  import opened FsFiles
  import opened FsDir
  import LogDisk

  const ROOTINO: nat := 1

  /** A bitmap in which exactly the blocks below `n` are used. */
  function Below(size: nat, n: nat): (bits: seq<bool>)
    ensures |bits| == size && forall b: nat :: b < size ==> bits[b] == (b < n)
  {
    seq(size, b requires 0 <= b < size => b < n)
  }

  /** The file position from which on slot `k` is needed. */
  function SlotStart(k: nat): nat { (if k == INDIRECT then NDIRECT else k) * BSIZE }

  /** Slot `k` of inode `i` is in use only if it serves a position below `end`. */
  predicate TightAt(f: Fs, i: nat, end: nat, k: nat) {
    Live(f, i) && k < SLOTS && Ref(f, i, k) != 0 ==> SlotStart(k) < end
  }

  /** No slot of inode `i` is used for positions from `end` on alone. */
  ghost predicate Tight(f: Fs, i: nat, end: nat) {
    forall k: nat :: TightAt(f, i, end, k)
  }

  ghost predicate AllTight(f: Fs) {
    forall i: nat :: i < |f.inodes| ==> Tight(f, i, f.inodes[i].size)
  }

  /** The number of data blocks of a file of `size` bytes. */
  function DataBlocks(size: nat): nat {
    if size == 0 then 0 else if size <= BSIZE then 1 else DataBlocks(size - BSIZE) + 1
  }

  /** The blocks such a file takes: past the direct blocks it needs an indirect block too. */
  function BlocksFor(size: nat): nat {
    DataBlocks(size) + if size > NDIRECT * BSIZE then 1 else 0
  }

  lemma {:induction false} DataBlocksGrow(a: nat, b: nat)
    requires a <= b
    ensures DataBlocks(a) <= DataBlocks(b)
  {
    if a > BSIZE {
      DataBlocksGrow(a - BSIZE, b - BSIZE);
    }
  }

  lemma {:induction false} DataBlocksNext(o: nat, n: nat)
    requires 0 < n && o % BSIZE + n <= BSIZE
    ensures DataBlocks(o + n) == DataBlocks(o) + if o % BSIZE != 0 then 0 else 1
  {
    if o >= BSIZE {
      BlockDown(o);
      DataBlocksNext(o - BSIZE, n);
      if o == BSIZE {
        assert DataBlocks(BSIZE) == 1 && DataBlocks(BSIZE + n) == DataBlocks(n) + 1;
      }
    }
  }

  lemma BlockDown(o: nat)
    requires o >= BSIZE
    ensures (o - BSIZE) % BSIZE == o % BSIZE
  {
  }

  /** The blocks a file of `size` bytes takes more when it grows by `n`. */
  function Growth(size: nat, n: nat): nat {
    DataBlocksGrow(size, size + n);
    BlocksFor(size + n) - BlocksFor(size)
  }

  lemma GrowthSum(size: nat, n: nat, m: nat)
    ensures Growth(size, n + m) == Growth(size, n) + Growth(size + n, m)
  {
  }

  /** In a file mapped exactly up to `o`, bmap needs as many blocks as the longer file takes more. */
  lemma NeedsNext(e: Fs, i: nat, o: nat, n: nat)
    requires Live(e, i) && Mapped(e, i, o) && Tight(e, i, o) && o < MAXBYTES && 0 < n && o % BSIZE + n <= BSIZE
    ensures Growth(o, n) == Needs(e, i, o / BSIZE)
  {
    DataBlocksNext(o, n);
    assert MappedAt(e, i, o, o / BSIZE) && MappedAt(e, i, o, NDIRECT);
    assert TightAt(e, i, o, o / BSIZE) && TightAt(e, i, o, INDIRECT);
  }

  /** The contents of file `j`; empty for a free inode. */
  function FileAt(f: Fs, j: nat): seq<byte> {
    if Live(f, j) && f.inodes[j].size <= MAXBYTES then Content(f, j) else []
  }

  /** The type of inode `j`. */
  function TypeAt(f: Fs, j: nat): short {
    if j < |f.inodes| then f.inodes[j].kind else 0
  }

  ghost predicate SameFile(f: Fs, f': Fs, j: nat) {
    && (Live(f', j) <==> Live(f, j)) && FileAt(f', j) == FileAt(f, j) && TypeAt(f', j) == TypeAt(f, j)
    && forall x: nat :: AnyByte(f', j, x) == AnyByte(f, j, x)
  }

  /** The blocks of file `i` hold zeros from byte `n` on. */
  ghost predicate ZeroFrom(f: Fs, i: nat, n: nat) {
    forall x: nat :: x >= n ==> AnyByte(f, i, x) == 0
  }

  /** Apart from `i`, the same inodes are allocated and hold the same contents. */
  ghost predicate SameFiles(f: Fs, f': Fs, i: nat) {
    forall j: nat :: j != i ==> SameFile(f, f', j)
  }

  ghost predicate FileIs(f: Fs, i: nat, c: seq<byte>) {
    Live(f, i) && FileAt(f, i) == c && ZeroFrom(f, i, |c|)
  }

  lemma SameFilesTrans(f: Fs, g: Fs, h: Fs, i: nat)
    requires SameFiles(f, g, i) && SameFiles(g, h, i)
    ensures SameFiles(f, h, i)
  {
    forall j: nat | j != i ensures SameFile(f, h, j) {
      assert SameFile(f, g, j) && SameFile(g, h, j);
    }
  }

  lemma Pieces(c: seq<byte>, a: nat, b: nat)
    requires a <= b <= |c|
    ensures c[..a] + c[a..b] == c[..b]
  {
  }

  /** A file of `size` bytes may grow by `n` when blocks from `free` on are left. */
  predicate CanGrow(sb: Super, free: nat, size: nat, n: nat) {
    size + n <= MAXBYTES && free + Growth(size, n) <= sb.size
  }

  /** A file read in pieces needs the blocks of the whole, and cannot do without those of a piece. */
  lemma PieceGrows(sb: Super, free0: nat, done: nat, cc: nat, next: nat, total: nat)
    requires next == done + cc <= total
    ensures Growth(0, next) == Growth(0, done) + Growth(done, cc)
    ensures !CanGrow(sb, free0 + Growth(0, done), done, cc) ==> !CanGrow(sb, free0, 0, total)
  {
    var left := total - next;
    GrowthSum(0, done, cc);
    GrowthSum(0, next, left);
    assert next + left == total;
  }

  /** A block of the log or the bitmap, or a data block not yet taken. */
  predicate Idle(sb: Super, free: nat, b: nat) {
    sb.logstart <= b < sb.inodestart || sb.bmapstart <= b < sb.Meta() || free <= b
  }

  /** The log area holds zeros: its header lists nothing. */
  predicate EmptyLog(sb: Super, raw: seq<Block>) {
    forall b: nat :: sb.logstart <= b < sb.inodestart && b < |raw| ==> raw[b] == Zeros()
  }

  class Image {
    const sb: Super
    var raw: seq<Block>
    var freeinode: nat
    var freeblock: nat
    ghost var own: Owner

    /** The file system under construction, with the bitmap that will be written. */
    function V(): Fs
      requires sb.Good() && |raw| == sb.size
      reads this
    {
      Decode(sb, raw).(bits := Below(sb.size, freeblock))
    }

    /** The image while inode `i` is being changed in memory and not yet written back. */
    function E(i: nat, d: Dinode): Fs
      requires sb.Good() && |raw| == sb.size && i < sb.ninodes
      reads this
    {
      SetInode(V(), i, d)
    }

    /** Blocks from `freeblock` on, the log and the bitmap have not been written. */
    ghost predicate Blank()
      reads this
    {
      && sb.Good() && |raw| == sb.size && sb.Meta() <= freeblock <= sb.size && 1 <= freeinode
      && forall b: nat :: b < sb.size && Idle(sb, freeblock, b) ==> raw[b] == Zeros()
    }

    ghost predicate Valid()
      reads this
    {
      && Blank() && Sound(sb.Geo(), V(), own) && NoHoles(V()) && AllTight(V())
      && (forall i: nat :: freeinode <= i < sb.ninodes ==> !Live(V(), i))
    }

    ghost predicate Working(i: nat, d: Dinode)
      reads this
    {
      Blank() && i < sb.ninodes && d.kind != 0 && Sound(sb.Geo(), E(i, d), own)
    }

    /** mkfs zeroes every block and writes the super block. */
    constructor (sb: Super, superBlock: Block)
      requires sb.Good()
      ensures Valid() && this.sb == sb && freeinode == 1 && freeblock == sb.Meta()
      ensures forall i: nat :: i < sb.ninodes ==> !Live(V(), i)
    {
      this.sb := sb;
      var zeroed: seq<Block> := seq(sb.size, _ => Zeros());
      raw := zeroed[1 := superBlock];
      freeinode, freeblock, own := 1, sb.Meta(), map[];
      new;
      ZeroImage(sb, raw);
    }

    method Winode(i: nat, d: Dinode)
      requires Blank() && i < sb.ninodes
      modifies this`raw
      ensures Blank() && V() == old(E(i, d))
    {
      BlockRanges(sb, 0, i);
      WriteInodeIs(sb, raw, i, d);
      raw := raw[sb.IBlock(i) := PutDinode(raw[sb.IBlock(i)], i % IPB, d)];
    }

    /** Take the next free block; mkfs runs off the image where this says no. */
    method Take() returns (ok: bool, b: word)
      requires Blank()
      modifies this`freeblock
      ensures ok == (old(freeblock) < sb.size)
      ensures !ok ==> freeblock == old(freeblock)
      ensures ok ==> Blank() && b == old(freeblock) && freeblock == b + 1 && !old(V()).bits[b]
      ensures ok ==> V() == Mark(old(V()), b)
    {
      if freeblock >= sb.size {
        return false, 0;
      }
      b := freeblock;
      freeblock := freeblock + 1;
      assert Below(sb.size, b + 1) == Below(sb.size, b)[b := true];
      assert old(V()).blocks[b] == Zeros();
      assert old(V()).blocks[b := Zeros()] == old(V()).blocks;
      return true, b;
    }

    method WriteData(b: nat, data: Block)
      requires Blank() && sb.Meta() <= b < freeblock
      modifies this`raw
      ensures Blank() && V() == PutBlock(old(V()), b, data)
    {
      WriteDataIs(sb, raw, b, data);
      raw := raw[b := data];
    }

    /** iappend's block lookup: the data block of file block `fbn`, taking new blocks as needed. */
    method MapBlock(i: nat, d: Dinode, fbn: nat) returns (ok: bool, d': Dinode, x: word)
      requires Working(i, d) && fbn < MAXFILE
      modifies this`raw, this`freeblock, this`own
      ensures ok <==> old(freeblock) + Needs(old(E(i, d)), i, fbn) <= sb.size
      ensures ok ==> freeblock == old(freeblock) + Needs(old(E(i, d)), i, fbn)
      ensures ok ==> Working(i, d') && d' == d.(addrs := d'.addrs) && V().inodes == old(V()).inodes
      ensures ok ==> Extends(old(E(i, d)), E(i, d')) && x != 0 && Ref(E(i, d'), i, fbn) == x
      ensures ok ==> OnlyMaps(old(E(i, d)), E(i, d'), i, fbn)
    {
      if fbn < NDIRECT {
        ok, d', x := MapNear(i, d, fbn);
        return;
      }
      ok, d', x := MapNear(i, d, INDIRECT);
      if !ok {
        return;
      }
      ghost var e1 := E(i, d');
      assert Apart(i, INDIRECT, i, fbn) && SameSlot(old(E(i, d)), e1, i, fbn);
      ok, x := MapFar(i, d', fbn);
      if ok {
        ExtendsTrans(old(E(i, d)), e1, E(i, d'));
        OnlyMapsFar(old(E(i, d)), e1, E(i, d'), i, fbn);
      }
    }

    method MapNear(i: nat, d: Dinode, k: nat) returns (ok: bool, d': Dinode, x: word)
      requires Working(i, d) && (k < NDIRECT || k == INDIRECT)
      modifies this`freeblock, this`own
      ensures ok <==> Ref(old(E(i, d)), i, k) != 0 || old(freeblock) < sb.size
      ensures ok ==> freeblock == old(freeblock) + if Ref(old(E(i, d)), i, k) != 0 then 0 else 1
      ensures ok ==> Working(i, d') && d' == d.(addrs := d'.addrs) && V().inodes == old(V()).inodes
      ensures ok ==> Extends(old(E(i, d)), E(i, d')) && x != 0 && Ref(E(i, d'), i, k) == x
      ensures ok ==> OnlyMaps(old(E(i, d)), E(i, d'), i, k)
    {
      ghost var e := E(i, d);
      d' := d;
      ok, x := true, if k < NDIRECT then d.addrs[k] else d.addrs[NDIRECT];
      if x == 0 {
        ok, x := Take();
        if ok {
          d' := Point(d, k, x);
          assert E(i, d') == Attach(e, i, k, x);
          AttachKeeps(sb.Geo(), e, own, i, k, x);
          AttachExtends(sb.Geo(), e, own, i, k, x);
          AttachOnly(sb.Geo(), e, own, i, k, x);
          AttachRef(sb.Geo(), e, own, i, k, x, i, k);
          own := own[x := (i, k)];
        }
      } else {
        assert forall j: nat, m: nat :: KeepsSlot(e, e, j, m);
      }
    }

    method MapFar(i: nat, d: Dinode, k: nat) returns (ok: bool, x: word)
      requires Working(i, d) && NDIRECT <= k < MAXFILE && d.addrs[NDIRECT] != 0
      modifies this`raw, this`freeblock, this`own
      ensures ok <==> Ref(old(E(i, d)), i, k) != 0 || old(freeblock) < sb.size
      ensures ok ==> freeblock == old(freeblock) + if Ref(old(E(i, d)), i, k) != 0 then 0 else 1
      ensures ok ==> Working(i, d) && V().inodes == old(V()).inodes
      ensures ok ==> Extends(old(E(i, d)), E(i, d)) && x != 0 && Ref(E(i, d), i, k) == x
      ensures ok ==> OnlyMaps(old(E(i, d)), E(i, d), i, k)
    {
      ghost var e := E(i, d);
      var ind := d.addrs[NDIRECT];
      assert SlotOk(sb.Geo(), e, own, i, INDIRECT);
      assert raw[ind] == e.blocks[ind];
      ok, x := true, GetWord(raw[ind], k - NDIRECT);
      if x == 0 {
        ok, x := Take();
        if ok {
          AttachFarKeeps(sb.Geo(), e, own, i, k, x);
          AttachFarExtends(sb.Geo(), e, own, i, k, x);
          assert raw[ind] == V().blocks[ind];
          WriteData(ind, PutWord(raw[ind], k - NDIRECT, x));
          assert E(i, d) == AttachFar(e, i, k, x);
          AttachFarOnly(sb.Geo(), e, own, i, k, x);
          AttachFarRef(sb.Geo(), e, own, i, k, x, i, k);
          own := own[x := (i, k)];
        }
      } else {
        assert forall j: nat, m: nat :: KeepsSlot(e, e, j, m);
      }
    }

    /** One iteration of iappend: `chunk` goes into the block of file position `o`. */
    method AppendChunk(i: nat, d: Dinode, o: nat, chunk: seq<byte>) returns (ok: bool, d': Dinode)
      requires Working(i, d) && o < MAXBYTES && o % BSIZE + |chunk| <= BSIZE
      modifies this`raw, this`freeblock, this`own
      ensures ok <==> old(freeblock) + Needs(old(E(i, d)), i, o / BSIZE) <= sb.size
      ensures ok ==> freeblock == old(freeblock) + Needs(old(E(i, d)), i, o / BSIZE)
      ensures ok ==> Working(i, d') && d' == d.(addrs := d'.addrs) && V().inodes == old(V()).inodes
      ensures ok ==> FsBytes.Written(old(E(i, d)), E(i, d'), i, o, chunk)
      ensures ok ==> RefsGrow(old(E(i, d)), E(i, d')) && Ref(E(i, d'), i, o / BSIZE) != 0
      ensures ok ==> OnlyMaps(old(E(i, d)), E(i, d'), i, o / BSIZE)
    {
      ghost var e := E(i, d);
      var x;
      ok, d', x := MapBlock(i, d, o / BSIZE);
      if ok {
        ghost var e1 := E(i, d');
        ChunkWritten(sb.Geo(), e, e1, own, i, o, chunk);
        assert SlotOk(sb.Geo(), e1, own, i, o / BSIZE) && BlockOk(sb.Geo(), e1, own, x);
        assert raw[x] == e1.blocks[x];
        WriteData(x, Splice(raw[x], o % BSIZE, chunk));
        assert E(i, d') == PutBlock(e1, x, Splice(e1.blocks[x], o % BSIZE, chunk));
        PutKeepsRefs(sb.Geo(), e1, own, i, o / BSIZE, Splice(e1.blocks[x], o % BSIZE, chunk));
        OnlyMapsThen(e, e1, E(i, d'), i, o / BSIZE);
      }
    }

    /** One iteration of iappend, as progress towards appending all of `data`. */
    method AppendStep(i: nat, d: Dinode, off: nat, data: seq<byte>, o: nat, n1: nat, ghost o': nat, ghost e0: Fs) returns (ok: bool, d': Dinode)
      requires Working(i, d) && Appending(e0, E(i, d), i, off, data, o) && o < MAXBYTES
      requires 0 < n1 && o' == o + n1 <= off + |data| && o % BSIZE + n1 <= BSIZE
      modifies this`raw, this`freeblock, this`own
      ensures ok <==> old(freeblock) + Growth(o, n1) <= sb.size
      ensures ok ==> freeblock == old(freeblock) + Growth(o, n1)
      ensures ok ==> Working(i, d') && d' == d.(addrs := d'.addrs) && V().inodes == old(V()).inodes
      ensures ok ==> Appending(e0, E(i, d'), i, off, data, o')
    {
      ghost var e := E(i, d);
      NeedsNext(e, i, o, n1);
      ok, d' := AppendChunk(i, d, o, data[o - off..o - off + n1]);
      if ok {
        Advance(e0, e, E(i, d'), i, off, data, o, n1, o');
        StayTight(e0, e, E(i, d'), i, o, o');
      }
    }

    /** iappend's loop at position `o`, from inode `d0` in `e0` with `free0` the next free block. */
    ghost predicate Underway(i: nat, d0: Dinode, d: Dinode, data: seq<byte>, o: nat, e0: Fs, free0: nat)
      reads this
    {
      && Working(i, d) && d == d0.(addrs := d.addrs) && V().inodes == e0.inodes
      && Appending(e0, E(i, d), i, d0.size, data, o) && o <= MAXBYTES
      && freeblock == free0 + Growth(d0.size, o - d0.size)
    }

    /** One round of the loop; it stops mkfs only where appending all of `data` is impossible. */
    method AppendRound(i: nat, d0: Dinode, d: Dinode, data: seq<byte>, o: nat, ghost e0: Fs, ghost free0: nat)
        returns (ok: bool, d': Dinode, o': nat)
      requires Underway(i, d0, d, data, o, e0, free0) && o < d0.size + |data|
      modifies this`raw, this`freeblock, this`own
      ensures o < o'
      ensures ok ==> Underway(i, d0, d', data, o', e0, free0)
      ensures !ok ==> !CanGrow(sb, free0, d0.size, |data|)
    {
      var left := d0.size + |data| - o;
      var n1 := if left < BSIZE - o % BSIZE then left else BSIZE - o % BSIZE;
      o' := o + n1;
      if o / BSIZE >= MAXFILE {
        return false, d, o';
      }
      GrowthSum(d0.size, o - d0.size, n1);
      GrowthSum(d0.size, o' - d0.size, left - n1);
      ok, d' := AppendStep(i, d, d0.size, data, o, n1, o', e0);
    }

    /** iappend's loop. */
    method AppendLoop(i: nat, d0: Dinode, data: seq<byte>, end: nat) returns (ok: bool, d: Dinode)
      requires Valid() && Live(V(), i) && d0 == V().inodes[i] && end == d0.size + |data|
      modifies this`raw, this`freeblock, this`own
      ensures ok <==> CanGrow(sb, old(freeblock), d0.size, |data|)
      ensures ok ==> freeblock == old(freeblock) + Growth(d0.size, |data|)
      ensures ok ==> Working(i, d) && d == d0.(addrs := d.addrs) && V().inodes == old(V()).inodes
      ensures ok ==> end <= MAXBYTES && Appending(old(V()), E(i, d), i, d0.size, data, end)
    {
      ghost var e0, free0 := V(), freeblock;
      d := d0;
      StartAppend(e0, i, data);
      assert E(i, d) == e0 by { assert e0.inodes[i := d] == e0.inodes; }
      var o := d0.size;
      while o < end
        invariant Underway(i, d0, d, data, o, e0, free0)
      {
        ok, d, o := AppendRound(i, d0, d, data, o, e0, free0);
        if !ok {
          return;
        }
      }
      ok := true;
    }

    /** iappend adds `data` to the end of file `i` and leaves every other file alone. It stops mkfs
        exactly if the file would pass the largest size or the image has too few blocks left. */
    method Iappend(i: nat, data: seq<byte>) returns (ok: bool)
      requires Valid() && Live(V(), i)
      modifies this`raw, this`freeblock, this`own
      ensures ok <==> CanGrow(sb, old(freeblock), old(V()).inodes[i].size, |data|)
      ensures ok ==> freeblock == old(freeblock) + Growth(old(V()).inodes[i].size, |data|)
      ensures ok ==> Valid() && V().inodes[i] == old(V()).inodes[i].(addrs := V().inodes[i].addrs, size := V().inodes[i].size)
      ensures ok ==> V().inodes[i].size == old(V()).inodes[i].size + |data| && V().inodes[i].size <= MAXBYTES
      ensures ok ==> FsBytes.Written(old(V()), V(), i, old(V()).inodes[i].size, data)
      ensures ok ==> forall j: nat :: j < sb.ninodes && j != i ==> V().inodes[j] == old(V()).inodes[j]
    {
      BlockRanges(sb, 0, i);
      var d := GetDinode(raw[sb.IBlock(i)], i % IPB);
      ghost var e0, off := V(), d.size;
      assert e0.inodes[i] == d;
      var end := d.size + |data|;
      ok, d := AppendLoop(i, d, data, end);
      if ok {
        ghost var e := E(i, d);
        FinishWrite(sb.Geo(), e0, e, own, i, off, data, end, end);
        Retight(e0, e, i, end);
        Winode(i, d.(size := end));
        assert V() == SetInode(e, i, e.inodes[i].(size := end));
      }
    }

    /** ialloc: inodes are handed out in order. */
    method Ialloc(kind: short) returns (ok: bool, inum: nat)
      requires Valid() && kind != 0
      modifies this`raw, this`freeinode
      ensures ok <==> old(freeinode) < sb.ninodes
      ensures ok ==> Valid() && inum == old(freeinode) && inum < sb.ninodes && freeinode == inum + 1
      ensures ok ==> V() == SetInode(old(V()), inum, Dinode(kind, 0, 0, 1, 0, NoAddrs()))
    {
      inum := freeinode;
      if inum >= sb.ninodes {
        return false, inum;
      }
      var d := Dinode(kind, 0, 0, 1, 0, NoAddrs());
      ghost var f := SetInode(V(), inum, d);
      EmptyInodeKeeps(sb.Geo(), V(), own, inum, d);
      EmptyStart(V(), inum, d);
      forall i: nat | inum < i < sb.ninodes ensures !Live(f, i) { assert !Live(V(), i); }
      freeinode := freeinode + 1;
      Winode(inum, d);
      assert V() == f;
      return true, inum;
    }

    /** Append to one file: it grows by `data`, every other file keeps its contents. */
    method Append(i: nat, data: seq<byte>) returns (ok: bool)
      requires Valid() && Live(V(), i)
      modifies this`raw, this`freeblock, this`own
      ensures ok <==> CanGrow(sb, old(freeblock), |FileAt(old(V()), i)|, |data|)
      ensures ok ==> freeblock == old(freeblock) + Growth(|FileAt(old(V()), i)|, |data|)
      ensures ok ==> Valid() && Live(V(), i) && FileAt(V(), i) == FileAt(old(V()), i) + data && SameFiles(old(V()), V(), i)
      ensures ok ==> TypeAt(V(), i) == TypeAt(old(V()), i)
      ensures ok && ZeroFrom(old(V()), i, |FileAt(old(V()), i)|) ==> ZeroFrom(V(), i, |FileAt(V(), i)|)
    {
      ghost var f := V();
      assert NoHole(f, i);
      ok := Iappend(i, data);
      if ok {
        AppendContent(f, V(), i, data);
        AppendZeros(f, V(), i, data);
        forall j: nat | j != i ensures SameFile(f, V(), j) {
          AppendOther(f, V(), i, data, j);
        }
      }
    }

    /** One read of main's read loop: a piece of at most BSIZE bytes. */
    method AppendPiece(i: nat, content: seq<byte>, done: nat, ghost f: Fs, ghost free0: nat) returns (ok: bool, next: nat)
      requires Valid() && done < |content| && FileIs(V(), i, content[..done]) && SameFiles(f, V(), i)
      requires freeblock == free0 + Growth(0, done)
      modifies this`raw, this`freeblock, this`own
      ensures done < next <= |content|
      ensures ok ==> freeblock == free0 + Growth(0, next) && next <= MAXBYTES
      ensures !ok ==> !CanGrow(sb, free0, 0, |content|)
      ensures ok ==> Valid() && FileIs(V(), i, content[..next]) && SameFiles(f, V(), i) && TypeAt(V(), i) == TypeAt(old(V()), i)
    {
      var cc := if |content| - done < BSIZE then |content| - done else BSIZE;
      next := done + cc;
      ghost var g := V();
      var piece := content[done..next];
      assert |FileAt(g, i)| == done && |piece| == cc;
      PieceGrows(sb, free0, done, cc, next, |content|);
      ok := Append(i, piece);
      if ok {
        Pieces(content, done, next);
        SameFilesTrans(f, g, V(), i);
      }
    }

    /** main's read loop: the whole host file. */
    method AppendFile(i: nat, content: seq<byte>) returns (ok: bool)
      requires Valid() && FileIs(V(), i, [])
      modifies this`raw, this`freeblock, this`own
      ensures ok <==> CanGrow(sb, old(freeblock), 0, |content|)
      ensures ok ==> freeblock == old(freeblock) + Growth(0, |content|)
      ensures ok ==> Valid() && FileIs(V(), i, content) && SameFiles(old(V()), V(), i) && TypeAt(V(), i) == TypeAt(old(V()), i)
    {
      var done := 0;
      assert content[..0] == [];
      while done < |content|
        invariant 0 <= done <= |content| && Valid()
        invariant FileIs(V(), i, content[..done]) && TypeAt(V(), i) == TypeAt(old(V()), i)
        invariant SameFiles(old(V()), V(), i)
        invariant freeblock == old(freeblock) + Growth(0, done) && done <= MAXBYTES
      {
        ok, done := AppendPiece(i, content, done, old(V()), old(freeblock));
        if !ok {
          return;
        }
      }
      assert content[..done] == content;
      ok := true;
    }

    /** balloc writes the bitmap: it must fit the first bitmap block, whose other bits stay clear. */
    method Balloc() returns (ok: bool)
      requires Blank()
      modifies this`raw
      ensures ok == (freeblock < BPB)
      ensures ok ==> |raw| == sb.size && Decode(sb, raw) == old(V()) && EmptyLog(sb, raw)
    {
      if freeblock >= BPB {
        return false;
      }
      var buf := Zeros();
      forall x: nat | x < BPB ensures !BitAt(buf, x) { ZeroBits(x % 8); }
      var i := 0;
      while i < freeblock
        invariant 0 <= i <= freeblock
        invariant FirstBits(buf, i)
      {
        forall x: nat | x < BPB ensures BitAt(OrBit(buf, i), x) == (x < i + 1) { OrBitAt(buf, i, x); }
        buf := OrBit(buf, i);
        i := i + 1;
      }
      BitmapIs(sb, raw, buf, freeblock);
      raw := raw[sb.bmapstart := buf];
      return true;
    }

    /** main's last steps: round the root directory's size up to whole blocks, write the bitmap.
        The result is sound; it is free of holes exactly if the root directory did not already
        end on a block boundary. */
    method Finish() returns (ok: bool)
      requires Valid() && Live(V(), ROOTINO)
      modifies this`raw
      ensures ok == (freeblock < BPB)
      ensures ok ==> |raw| == sb.size && EmptyLog(sb, raw) && Sound(sb.Geo(), Decode(sb, raw), own)
      ensures ok ==> (NoHoles(Decode(sb, raw)) <==> old(V()).inodes[ROOTINO].size % BSIZE != 0)
      ensures ok ==> Decode(sb, raw).blocks == old(V()).blocks
      ensures ok ==> old(V()).inodes[ROOTINO].size <= MAXBYTES
      ensures ok ==> Decode(sb, raw).inodes[ROOTINO] == old(V()).inodes[ROOTINO].(size := (old(V()).inodes[ROOTINO].size / BSIZE + 1) * BSIZE)
      ensures ok ==> forall j: nat :: j < sb.ninodes && j != ROOTINO ==> Decode(sb, raw).inodes[j] == old(V()).inodes[j]
    {
      BlockRanges(sb, 0, ROOTINO);
      var d := GetDinode(raw[sb.IBlock(ROOTINO)], ROOTINO % IPB);
      ghost var f := V();
      assert f.inodes[ROOTINO] == d && NoHole(f, ROOTINO);
      var off := (d.size / BSIZE + 1) * BSIZE;
      RoundUp(sb.Geo(), f, own, ROOTINO, off);
      Winode(ROOTINO, d.(size := off));
      ok := Balloc();
    }
  }

  /** buf[i/8] |= 1 << (i%8) */
  function OrBit(buf: Block, i: nat): Block
    requires i < BPB
  {
    WithBitByte(buf[i / 8], i % 8, true);
    buf[i / 8 := WithBit(buf[i / 8], i % 8, true)]
  }

  function BitAt(buf: Block, x: nat): bool
    requires x < BPB
  {
    TestBit(buf[x / 8], x % 8)
  }

  /** Exactly the first `n` bits of the block are set. */
  ghost predicate FirstBits(buf: Block, n: nat) {
    forall x: nat :: x < BPB ==> BitAt(buf, x) == (x < n)
  }

  lemma OrBitAt(buf: Block, i: nat, x: nat)
    requires i < BPB && x < BPB
    ensures BitAt(OrBit(buf, i), x) == (x == i || BitAt(buf, x))
  {
    if x / 8 == i / 8 { WithBitIs(buf[i / 8], i % 8, true, x % 8); }
  }

  lemma BitmapBit(sb: Super, raw: seq<Block>, buf: Block, used: nat, b: nat)
    requires sb.Good() && |raw| == sb.size && used < BPB && b < sb.size && FirstBits(buf, used)
    requires forall c: nat :: sb.bmapstart <= c < sb.Meta() ==> raw[c] == Zeros()
    ensures BitOf(sb, raw[sb.bmapstart := buf], b) == (b < used)
  {
    BlockRanges(sb, b, 0);
    if b < BPB {
      assert b % BPB == b && BitAt(buf, b) == (b < used);
    } else {
      assert sb.BBlock(b) != sb.bmapstart;
      ZeroBits(b % 8);
    }
  }

  lemma BitsAre(sb: Super, raw: seq<Block>, used: nat)
    requires sb.Good() && |raw| == sb.size
    requires forall b: nat :: b < sb.size ==> BitOf(sb, raw, b) == (b < used)
    ensures BitsOf(sb, raw) == Below(sb.size, used)
  {
  }

  /** A bitmap block whose first `used` bits are set encodes exactly those blocks as used. */
  lemma BitmapIs(sb: Super, raw: seq<Block>, buf: Block, used: nat)
    requires sb.Good() && |raw| == sb.size && used < BPB
    requires FirstBits(buf, used)
    requires forall b: nat :: sb.bmapstart <= b < sb.Meta() ==> raw[b] == Zeros()
    ensures Decode(sb, raw[sb.bmapstart := buf]) == Decode(sb, raw).(bits := Below(sb.size, used))
  {
    var raw' := raw[sb.bmapstart := buf];
    forall b: nat | b < sb.size ensures BitOf(sb, raw', b) == (b < used) {
      BitmapBit(sb, raw, buf, used, b);
    }
    BitsAre(sb, raw', used);
    InodesSame(sb, raw, raw');
    DataSame(sb, raw, raw');
  }

  lemma {:induction false} ZeroBits(k: nat)
    ensures !TestBit(0, k)
  {
    if k > 0 { ZeroBits(k - 1); }
  }

  /** Rounding a size up to whole blocks maps no new block, so it makes a hole exactly if the size
      was whole already. */
  lemma RoundUp(g: Geometry, f: Fs, own: Owner, i: nat, size: word)
    requires Sound(g, f, own) && NoHoles(f) && AllTight(f) && Live(f, i)
    requires size == (f.inodes[i].size / BSIZE + 1) * BSIZE
    ensures var f' := SetInode(f, i, f.inodes[i].(size := size));
            Sound(g, f', own) && (NoHoles(f') <==> f.inodes[i].size % BSIZE != 0)
  {
    var f', was := SetInode(f, i, f.inodes[i].(size := size)), f.inodes[i].size;
    ResizeKeeps(g, f, own, i, size);
    assert NoHole(f, i) && Tight(f, i, was);
    var last := was / BSIZE;
    if was % BSIZE == 0 {
      assert TightAt(f, i, was, last);
      assert !NoHole(f', i) by { if last < MAXFILE { assert Ref(f', i, last) == 0; } }
    } else {
      forall j: nat | j < |f'.inodes| ensures NoHole(f', j) {
        assert NoHole(f, j);
        assert forall k: nat :: k < MAXFILE ==> Ref(f', j, k) == Ref(f, j, k);
      }
    }
  }

  lemma EmptyStart(f: Fs, i: nat, d: Dinode)
    requires NoHoles(f) && AllTight(f) && i < |f.inodes| && d.size == 0 && d.addrs == NoAddrs()
    ensures NoHoles(SetInode(f, i, d)) && AllTight(SetInode(f, i, d))
  {
    var f' := SetInode(f, i, d);
    forall j: nat | j < |f'.inodes| ensures NoHole(f', j) && Tight(f', j, f'.inodes[j].size) {
      assert NoHole(f, j) && Tight(f, j, f.inodes[j].size);
      forall k: nat ensures TightAt(f', j, f'.inodes[j].size, k) {
        assert TightAt(f, j, f.inodes[j].size, k);
        if k < SLOTS { NoSlots(f', d, k); }
      }
      assert j != i ==> forall k: nat :: k < SLOTS ==> Ref(f', j, k) == Ref(f, j, k);
    }
  }

  lemma AppendContent(f: Fs, f': Fs, i: nat, data: seq<byte>)
    requires Live(f, i) && i < |f'.inodes| && FsBytes.Written(f, f', i, f.inodes[i].size, data)
    requires f'.inodes[i].size == f.inodes[i].size + |data| && f'.inodes[i].size <= MAXBYTES
    ensures Content(f', i) == Content(f, i) + data
  {
    WrittenContent(f, f', i, f.inodes[i].size, data);
    var c := Content(f, i);
    assert Overwrite(c, |c|, data) == c + data;
  }

  lemma AppendZeros(f: Fs, f': Fs, i: nat, data: seq<byte>)
    requires Live(f, i) && FsBytes.Written(f, f', i, f.inodes[i].size, data)
    ensures ZeroFrom(f, i, f.inodes[i].size) ==> ZeroFrom(f', i, f.inodes[i].size + |data|)
  {
    if ZeroFrom(f, i, f.inodes[i].size) {
      forall x: nat | x >= f.inodes[i].size + |data| ensures AnyByte(f', i, x) == 0 {
        assert AnyByte(f', i, x) == NewByte(f, i, f.inodes[i].size, data, i, x);
      }
    }
  }

  lemma AppendOther(f: Fs, f': Fs, i: nat, data: seq<byte>, j: nat)
    requires Live(f, i) && j != i && FsBytes.Written(f, f', i, f.inodes[i].size, data) && |f'.inodes| == |f.inodes|
    requires j < |f.inodes| ==> f'.inodes[j] == f.inodes[j]
    ensures SameFile(f, f', j)
  {
    forall x: nat ensures AnyByte(f', j, x) == AnyByte(f, j, x) {
      assert AnyByte(f', j, x) == NewByte(f, i, f.inodes[i].size, data, j, x);
    }
    if Live(f, j) && f.inodes[j].size <= MAXBYTES {
      WrittenOther(f, f', i, f.inodes[i].size, data, j);
    }
  }

  /** `data` is stored up to `o`, nothing is mapped from there on, and other inodes are untouched. */
  ghost predicate Appending(e0: Fs, e: Fs, i: nat, off: nat, data: seq<byte>, o: nat) {
    Progress(e0, e, i, off, data, o) && Others(e0, e, i) && Tight(e, i, o)
  }

  lemma StartAppend(e: Fs, i: nat, data: seq<byte>)
    requires Live(e, i) && NoHoles(e) && AllTight(e)
    ensures Appending(e, e, i, e.inodes[i].size, data, e.inodes[i].size) && e.inodes[i].size <= MAXBYTES
  {
    assert NoHole(e, i) && Tight(e, i, e.inodes[i].size);
    NoHoleMaps(e, i, e.inodes[i].size);
    WriteNothing(e, i, e.inodes[i].size);
    assert forall j: nat, m: nat :: SameSlot(e, e, j, m);
  }

  /** Inodes other than `i` have the same references. */
  ghost predicate Others(f: Fs, f': Fs, i: nat) {
    |f'.inodes| == |f.inodes| && forall j: nat, m: nat :: j != i ==> SameSlot(f, f', j, m)
  }

  lemma StayTight(e0: Fs, e: Fs, e': Fs, i: nat, o: nat, o': nat)
    requires Others(e0, e, i) && Tight(e, i, o) && OnlyMaps(e, e', i, o / BSIZE) && o < o'
    requires |e'.inodes| == |e.inodes| && forall j: nat :: Live(e0, j) ==> Live(e, j)
    requires (Live(e, i) <==> Live(e', i)) && o < MAXBYTES
    ensures Others(e0, e', i) && Tight(e', i, o')
  {
    forall j: nat, m: nat | j != i ensures SameSlot(e0, e', j, m) {
      assert Apart(i, o / BSIZE, j, m);
      assert SameSlot(e0, e, j, m) && SameSlot(e, e', j, m);
    }
    forall k: nat ensures TightAt(e', i, o', k) {
      assert TightAt(e, i, o, k);
      if Apart(i, o / BSIZE, i, k) { assert SameSlot(e, e', i, k); }
    }
  }

  /** Tightness once the new size is stored. */
  lemma Retight(e0: Fs, e: Fs, i: nat, size: word)
    requires AllTight(e0) && Others(e0, e, i) && i < |e.inodes| && Tight(e, i, size)
    requires forall j: nat :: j < |e.inodes| && j != i ==> e.inodes[j] == e0.inodes[j]
    ensures AllTight(SetInode(e, i, e.inodes[i].(size := size)))
  {
    var e' := SetInode(e, i, e.inodes[i].(size := size));
    forall j: nat | j < |e'.inodes| ensures Tight(e', j, e'.inodes[j].size) {
      forall k: nat ensures TightAt(e', j, e'.inodes[j].size, k) {
        assert TightAt(e0, j, e0.inodes[j].size, k) by { assert Tight(e0, j, e0.inodes[j].size); }
        assert TightAt(e, i, size, k);
        if j != i { assert SameSlot(e0, e, j, k); }
      }
    }
  }

  /** With no inode in use and only metadata marked, all invariants hold. */
  lemma NothingLive(g: Geometry, f: Fs)
    requires g.Fits(f)
    requires forall i: nat :: i < g.ninodes ==> !Live(f, i)
    requires forall b: nat :: b < g.size ==> f.bits[b] == (b < g.nmeta)
    ensures Sound(g, f, map[]) && NoHoles(f) && AllTight(f)
  {
    forall i: nat, k: nat | i < g.ninodes && k < SLOTS ensures SlotOk(g, f, map[], i, k) {}
    forall b: nat | b < g.size ensures BlockOk(g, f, map[], b) {}
    forall i: nat | i < g.ninodes ensures NoHole(f, i) {}
    forall i: nat, k: nat ensures i < g.ninodes ==> TightAt(f, i, f.inodes[i].size, k) {}
  }

  /** An image of zeroes, but for the super block, has no inode in use. */
  lemma ZeroImage(sb: Super, raw: seq<Block>)
    requires sb.Good() && |raw| == sb.size && forall b: nat :: b < sb.size && b != 1 ==> raw[b] == Zeros()
    ensures var f := Decode(sb, raw).(bits := Below(sb.size, sb.Meta()));
            && Sound(sb.Geo(), f, map[]) && NoHoles(f) && AllTight(f)
            && forall i: nat :: i < sb.ninodes ==> !Live(f, i)
  {
    var f := Decode(sb, raw).(bits := Below(sb.size, sb.Meta()));
    forall i: nat | i < sb.ninodes ensures !Live(f, i) {
      BlockRanges(sb, 0, i);
      ZeroDinode(i % IPB);
    }
    NothingLive(sb.Geo(), f);
  }

  lemma ZeroDinode(slot: nat)
    requires slot < IPB
    ensures GetDinode(Zeros(), slot).kind == 0
  {
    ZeroWord(IWORDS * slot);
  }

  // ---- main -------------------------------------------------------------------------

  /** The metadata blocks main sets aside: boot and super block, log, inodes, bitmap. */
  function NMeta(fssize: nat, ninodes: nat, nlog: nat): nat {
    2 + nlog + (ninodes / IPB + 1) + (fssize / BPB + 1)
  }

  /** The super block main computes; the difference of block counts is stored as a 32-bit word. */
  function Layout(fssize: nat, ninodes: nat, nlog: nat): Super {
    Super(fssize, (fssize - NMeta(fssize, ninodes, nlog)) % 0x1_0000_0000, ninodes, nlog, 2, 2 + nlog, 2 + nlog + (ninodes / IPB + 1))
  }

  /** The computed layout is a good one exactly if the metadata fits the disk; it then wastes no
      block between its areas. */
  lemma LayoutGood(fssize: nat, ninodes: nat, nlog: nat)
    requires fssize < 0x8000_0000 && NMeta(fssize, ninodes, nlog) < 0x8000_0000
    ensures var sb := Layout(fssize, ninodes, nlog);
            && (sb.Good() <==> NMeta(fssize, ninodes, nlog) <= fssize)
            && (sb.Good() ==> sb.Meta() == NMeta(fssize, ninodes, nlog) == sb.bmapstart + fssize / BPB + 1)
            && sb.logstart == 2 && sb.inodestart == sb.logstart + nlog && sb.bmapstart == sb.inodestart + ninodes / IPB + 1
  {
    var spare := fssize - NMeta(fssize, ninodes, nlog);
    if spare < 0 {
      WrapNegative(spare);
    } else {
      WrapNone(spare);
    }
  }

  lemma WrapNegative(x: int)
    requires -0x1_0000_0000 <= x < 0
    ensures x % 0x1_0000_0000 == x + 0x1_0000_0000
  {
  }

  lemma WrapNone(x: int)
    requires 0 <= x < 0x1_0000_0000
    ensures x % 0x1_0000_0000 == x
  {
  }

  const FSSIZE: nat := 1000
  const NINODES: nat := 200

  /** A host file to put on the image: its name and its bytes. */
  datatype HostFile = HostFile(name: seq<byte>, content: seq<byte>)

  /** The root directory: ".", "..", then one entry per file, in order. */
  function RootDir(files: seq<HostFile>): (d: seq<byte>)
    ensures |d| == DIRENT * (2 + |files|)
  {
    if files == [] then Dirent(ROOTINO, [46]) + Dirent(ROOTINO, [46, 46])
    else
      var n := |files| - 1;
      RootDir(files[..n]) + Dirent(2 + n, files[n].name)
  }

  /** The name entry `k` of "/" must have. */
  function ListedName(files: seq<HostFile>, k: nat): seq<byte>
    requires k < 2 + |files|
  {
    if k == 0 then [46] else if k == 1 then [46, 46] else files[k - 2].name
  }

  /** Entry `k` of a directory is right for "/": itself twice, then the files in order, then nothing. */
  predicate EntryRight(d: seq<byte>, files: seq<HostFile>, k: nat) {
    if k < 2 + |files| then
      && DIRENT * (k + 1) <= |d| && InumAt(d, k) == (if k < 2 then ROOTINO else k) && NameAt(d, k) == Name(ListedName(files, k))
    else DIRENT * (k + 1) <= |d| ==> InumAt(d, k) == 0
  }

  ghost predicate ListsFiles(d: seq<byte>, files: seq<HostFile>) {
    forall k: nat :: EntryRight(d, files, k)
  }

  /** Entry `k` is the one with that name. */
  lemma HoldsListed(d: seq<byte>, files: seq<HostFile>, name: seq<byte>, k: nat)
    requires ListsFiles(d, files)
    ensures Holds(d, name, k) <==> k < 2 + |files| && Name(ListedName(files, k)) == Name(name)
    ensures Holds(d, name, k) ==> InumAt(d, k) == if k < 2 then ROOTINO else k
  {
    assert EntryRight(d, files, k);
  }

  /** In such a directory "." and ".." are the directory itself, */
  lemma LookupDots(d: seq<byte>, files: seq<HostFile>, name: seq<byte>)
    requires ListsFiles(d, files) && (Name(name) == [46] || Name(name) == [46, 46])
    ensures Names(d, name, ROOTINO)
  {
    DotNames();
    HoldsListed(d, files, name, 0);
    HoldsListed(d, files, name, 1);
    if Name(name) == [46] {
      assert FirstHolds(d, name, 0);
    } else {
      assert FirstHolds(d, name, 1);
    }
  }

  /** any other name stands for the first file that has it, */
  lemma LookupFile(d: seq<byte>, files: seq<HostFile>, name: seq<byte>, k: nat)
    requires ListsFiles(d, files) && Name(name) != [46] && Name(name) != [46, 46]
    requires k < |files| && Name(files[k].name) == Name(name) && forall j: nat :: j < k ==> Name(files[j].name) != Name(name)
    ensures Names(d, name, 2 + k)
  {
    DotNames();
    var e := 2 + k;
    HoldsListed(d, files, name, e);
    forall j: nat | j < e ensures !Holds(d, name, j) {
      HoldsListed(d, files, name, j);
    }
    assert FirstHolds(d, name, e);
  }

  /** and a name that no file has is not found. */
  lemma LookupNothing(d: seq<byte>, files: seq<HostFile>, name: seq<byte>, e: nat)
    requires ListsFiles(d, files) && Name(name) != [46] && Name(name) != [46, 46]
    requires forall k: nat :: k < |files| ==> Name(files[k].name) != Name(name)
    ensures !Holds(d, name, e)
  {
    DotNames();
    HoldsListed(d, files, name, e);
  }

  lemma DotNames()
    ensures Name([46]) == [46] && Name([46, 46]) == [46, 46]
  {
    assert [46, 46][1..] == [46];
    assert Cut([46], 13) == [46];
  }

  lemma {:induction false} RootEntry(files: seq<HostFile>, k: nat, lo: nat, hi: nat)
    requires k < 2 + |files| && lo == DIRENT * k && hi == lo + DIRENT
    ensures hi <= |RootDir(files)| && RootDir(files)[lo..hi] == Dirent(if k < 2 then ROOTINO else k, ListedName(files, k))
    decreases |files|
  {
    if files != [] {
      var n := |files| - 1;
      var before, last := RootDir(files[..n]), Dirent(2 + n, files[n].name);
      if k < 2 + n {
        RootEntry(files[..n], k, lo, hi);
        assert (before + last)[lo..hi] == before[lo..hi];
      } else {
        assert (before + last)[lo..hi] == last;
      }
    }
  }

  lemma EntryListed(files: seq<HostFile>, d: seq<byte>, k: nat, n: nat, lo: nat, hi: nat)
    requires k < 2 + |files| && n == RootSize(|files|) <= MAXBYTES && lo == DIRENT * k && hi == lo + DIRENT
    requires n <= |d| && d[..n] == RootDir(files)
    ensures EntryRight(d, files, k)
  {
    RootEntry(files, k, lo, hi);
    assert d[lo..hi] == d[..n][lo..hi];
    DirentBack(d, k, if k < 2 then ROOTINO else k, ListedName(files, k));
  }

  lemma RootListsFiles(files: seq<HostFile>, d: seq<byte>, n: nat)
    requires n == RootSize(|files|) <= MAXBYTES && n <= |d| && d[..n] == RootDir(files)
    requires forall x :: n <= x < |d| ==> d[x] == 0
    ensures ListsFiles(d, files)
  {
    forall k: nat ensures EntryRight(d, files, k) {
      if k < 2 + |files| {
        EntryListed(files, d, k, n, DIRENT * k, DIRENT * k + DIRENT);
      }
    }
  }

  lemma RootByte(f: Fs, f': Fs, was: seq<byte>, x: nat)
    requires FileIs(f, ROOTINO, was) && f'.blocks == f.blocks && ROOTINO < |f'.inodes| && f'.inodes[ROOTINO].addrs == f.inodes[ROOTINO].addrs
    requires f.inodes[ROOTINO].size <= MAXBYTES && x < MAXBYTES
    ensures FByte(f', ROOTINO, x) == if x < |was| then was[x] else 0
  {
    assert FByte(f', ROOTINO, x) == FByte(f, ROOTINO, x) == AnyByte(f, ROOTINO, x);
    if x < |was| {
      ContentAt(f, ROOTINO, x);
    }
  }

  /** Rounding its size up shows no more of "/" than zeros. */
  lemma RootBytes(f: Fs, f': Fs, was: seq<byte>, size: word)
    requires FileIs(f, ROOTINO, was) && f'.blocks == f.blocks && ROOTINO < |f'.inodes|
    requires |was| <= size <= MAXBYTES && f.inodes[ROOTINO].size == |was| && f'.inodes[ROOTINO] == f.inodes[ROOTINO].(size := size)
    ensures var d := FileAt(f', ROOTINO);
            |d| == size && d[..|was|] == was && forall x :: |was| <= x < size ==> d[x] == 0
  {
    var d := FileAt(f', ROOTINO);
    forall x: nat | x < size ensures d[x] == if x < |was| then was[x] else 0 {
      ContentAt(f', ROOTINO, x);
      RootByte(f, f', was, x);
    }
  }

  lemma WholeBlocks(n: nat)
    requires n < MAXBYTES
    ensures n < (n / BSIZE + 1) * BSIZE <= MAXBYTES
  {
  }

  /** File `k` is in its inode. */
  predicate FileOn(f: Fs, files: seq<HostFile>, k: nat) {
    k < |files| ==> FileAt(f, 2 + k) == files[k].content && TypeAt(f, 2 + k) == T_FILE
  }

  /** What mkfs is asked for: the files, and a root directory that lists them. */
  ghost predicate Installed(f: Fs, files: seq<HostFile>) {
    && (forall k: nat :: FileOn(f, files, k)) && TypeAt(f, ROOTINO) == T_DIR
    && (RootSize(|files|) < MAXBYTES ==> ListsFiles(FileAt(f, ROOTINO), files))
  }

  /** The size of a root directory that lists `n` files. */
  function RootSize(n: nat): nat { DIRENT * (2 + n) }

  /** The blocks the contents of the first `k` files take. */
  function FileBlocks(files: seq<HostFile>, k: nat): nat
    requires k <= |files|
  {
    if k == 0 then 0 else FileBlocks(files, k - 1) + BlocksFor(|files[k - 1].content|)
  }

  /** The blocks in use once `k` files are on the image. */
  function ImageBlocks(sb: Super, files: seq<HostFile>, k: nat): nat
    requires sb.Good() && k <= |files|
  {
    sb.Meta() + BlocksFor(RootSize(k)) + FileBlocks(files, k)
  }

  /** The files fit: enough inodes and blocks, no file too long, one bitmap block. */
  predicate Fits(sb: Super, files: seq<HostFile>)
    requires sb.Good()
  {
    && 1 + |files| < sb.ninodes && RootSize(|files|) <= MAXBYTES
    && (forall k: nat :: k < |files| ==> |files[k].content| <= MAXBYTES)
    && ImageBlocks(sb, files, |files|) <= sb.size && ImageBlocks(sb, files, |files|) < BPB
  }

  lemma ImageBlocksNext(sb: Super, files: seq<HostFile>, k: nat)
    requires sb.Good() && k < |files|
    ensures ImageBlocks(sb, files, k + 1) == ImageBlocks(sb, files, k) + Growth(RootSize(k), DIRENT) + BlocksFor(|files[k].content|)
  {
  }

  lemma {:induction false} ImageBlocksGrow(sb: Super, files: seq<HostFile>, k: nat, n: nat)
    requires sb.Good() && k <= n <= |files|
    ensures ImageBlocks(sb, files, k) <= ImageBlocks(sb, files, n)
  {
    if k < n {
      ImageBlocksGrow(sb, files, k, n - 1);
      ImageBlocksNext(sb, files, n - 1);
    }
  }

  /** Room for one more file, with `free` the next free block and a root directory of `r` bytes. */
  predicate CanAdd(sb: Super, free: nat, r: nat, file: HostFile) {
    CanGrow(sb, free, r, DIRENT) && CanGrow(sb, free + Growth(r, DIRENT), 0, |file.content|)
  }

  /** What the first `k` files needed besides blocks was there. */
  predicate Roomy(sb: Super, files: seq<HostFile>, k: nat)
    requires k <= |files|
  {
    1 + k < sb.ninodes && RootSize(k) <= MAXBYTES && forall j: nat :: j < k ==> |files[j].content| <= MAXBYTES
  }

  /** A file for which there is no room rules out the whole list. */
  lemma CannotAdd(sb: Super, files: seq<HostFile>, k: nat)
    requires sb.Good() && k < |files|
    requires 2 + k >= sb.ninodes || !CanAdd(sb, ImageBlocks(sb, files, k), RootSize(k), files[k])
    ensures !Fits(sb, files)
  {
    ImageBlocksNext(sb, files, k);
    ImageBlocksGrow(sb, files, k + 1, |files|);
  }

  /** Everything main puts on the image before its last steps. */
  ghost predicate Populated(f: Fs, files: seq<HostFile>) {
    && FileIs(f, ROOTINO, RootDir(files)) && TypeAt(f, ROOTINO) == T_DIR
    && forall k: nat :: HasFile(f, files, k)
  }

  /** File `k` is in its inode, with zeros behind it. */
  ghost predicate HasFile(f: Fs, files: seq<HostFile>, k: nat) {
    k < |files| ==> FileIs(f, 2 + k, files[k].content) && TypeAt(f, 2 + k) == T_FILE
  }

  lemma TakeMore(files: seq<HostFile>, k: nat)
    requires k < |files|
    ensures files[..k + 1] == files[..k] + [files[k]]
  {
  }

  lemma RootDirMore(files: seq<HostFile>, file: HostFile)
    ensures RootDir(files + [file]) == RootDir(files) + Dirent(2 + |files|, file.name)
  {
    assert (files + [file])[..|files|] == files;
  }

  lemma FileStays(f: Fs, f1: Fs, f3: Fs, n: nat, k: nat, c: seq<byte>)
    requires SameFiles(f, f1, 2 + n) && k < n && FileIs(f, 2 + k, c) && SameFile(f1, f3, 2 + k)
    ensures FileIs(f3, 2 + k, c) && TypeAt(f3, 2 + k) == TypeAt(f, 2 + k)
  {
    KeptFile(f, f1, 2 + n, 2 + k);
  }

  /** A new inode, its directory entry and its contents extend a populated image. */
  lemma PopulateMore(f: Fs, f1: Fs, f3: Fs, files: seq<HostFile>, file: HostFile, inum: nat)
    requires Populated(f, files) && inum == 2 + |files| && SameFiles(f, f1, inum)
    requires forall j: nat :: j != inum && j != ROOTINO ==> SameFile(f1, f3, j)
    requires FileIs(f3, ROOTINO, FileAt(f1, ROOTINO) + Dirent(inum, file.name))
    requires FileIs(f3, inum, file.content) && TypeAt(f3, inum) == T_FILE && TypeAt(f3, ROOTINO) == TypeAt(f1, ROOTINO)
    ensures Populated(f3, files + [file])
  {
    KeptFile(f, f1, inum, ROOTINO);
    RootDirMore(files, file);
    assert FileIs(f3, ROOTINO, RootDir(files + [file])) && TypeAt(f3, ROOTINO) == T_DIR;
    FilesStay(f, f1, f3, files, file, inum);
  }

  lemma FilesStay(f: Fs, f1: Fs, f3: Fs, files: seq<HostFile>, file: HostFile, inum: nat)
    requires (forall k: nat :: HasFile(f, files, k)) && inum == 2 + |files| && SameFiles(f, f1, inum)
    requires forall j: nat :: j != inum && j != ROOTINO ==> SameFile(f1, f3, j)
    requires FileIs(f3, inum, file.content) && TypeAt(f3, inum) == T_FILE
    ensures forall k: nat :: HasFile(f3, files + [file], k)
  {
    forall k: nat ensures HasFile(f3, files + [file], k) {
      if k < |files| {
        assert HasFile(f, files, k) && SameFile(f1, f3, 2 + k);
        FileStays(f, f1, f3, |files|, k, files[k].content);
      }
    }
  }

  lemma KeptFile(f: Fs, f': Fs, i: nat, j: nat)
    requires SameFiles(f, f', i) && j != i
    ensures (Live(f', j) <==> Live(f, j)) && FileAt(f', j) == FileAt(f, j) && TypeAt(f', j) == TypeAt(f, j) && SameFile(f, f', j)
  {
    assert SameFile(f, f', j);
  }

  lemma NewInode(f: Fs, i: nat, d: Dinode)
    requires i < |f.inodes| && d.kind != 0 && d.size == 0 && d.addrs == NoAddrs()
    ensures SameFiles(f, SetInode(f, i, d), i) && FileIs(SetInode(f, i, d), i, []) && TypeAt(SetInode(f, i, d), i) == d.kind
  {
    var f' := SetInode(f, i, d);
    forall j: nat | j != i ensures SameFile(f, f', j) {
      if Live(f, j) && f.inodes[j].size <= MAXBYTES { SameContent(f, f', j); }
    }
    forall x: nat ensures AnyByte(f', i, x) == 0 {
      if x < MAXBYTES { NoSlots(f', d, x / BSIZE); }
    }
  }

  lemma SameContent(f: Fs, f': Fs, j: nat)
    requires Live(f, j) && j < |f'.inodes| && f'.inodes[j] == f.inodes[j] && f'.blocks == f.blocks && f.inodes[j].size <= MAXBYTES
    ensures Content(f', j) == Content(f, j)
  {
    forall x: nat | x < f.inodes[j].size ensures FByte(f', j, x) == FByte(f, j, x) {}
    SameBytes(f, j, f', f.inodes[j].size);
  }

  /** The root directory with "." and "..". */
  method MakeRoot(im: Image) returns (ok: bool)
    requires im.Valid() && im.freeinode == ROOTINO
    modifies im
    ensures ok <==> 1 < im.sb.ninodes && old(im.freeblock) < im.sb.size
    ensures ok ==> im.freeblock == old(im.freeblock) + 1
    ensures ok ==> im.Valid() && im.freeinode == 2 && Populated(im.V(), [])
  {
    var root;
    ghost var f := im.V();
    ok, root := im.Ialloc(T_DIR);
    if ok {
      NewInode(f, root, im.V().inodes[root]);
      ok := im.Append(root, Dirent(root, [46]));
      if ok {
        assert [] + Dirent(root, [46]) == Dirent(root, [46]);
        ok := im.Append(root, Dirent(root, [46, 46]));
      }
    }
  }

  /** One host file: an inode, a directory entry, the contents. */
  method AddFile(im: Image, file: HostFile, ghost files: seq<HostFile>) returns (ok: bool)
    requires im.Valid() && im.freeinode == 2 + |files| && Populated(im.V(), files)
    modifies im
    ensures ok <==> 2 + |files| < im.sb.ninodes && CanAdd(im.sb, old(im.freeblock), RootSize(|files|), file)
    ensures ok ==> im.freeblock == old(im.freeblock) + Growth(RootSize(|files|), DIRENT) + Growth(0, |file.content|)
    ensures ok ==> im.Valid() && im.freeinode == 3 + |files| && Populated(im.V(), files + [file])
  {
    var inum := 0;
    ghost var f := im.V();
    ok, inum := im.Ialloc(T_FILE);
    if ok {
      ghost var f1 := im.V();
      NewInode(f, inum, f1.inodes[inum]);
      KeptFile(f, f1, inum, ROOTINO);
      ok := FillFile(im, inum, file, f1);
      if ok {
        PopulateMore(f, f1, im.V(), files, file, inum);
      }
    }
  }

  /** The directory entry and the contents of a file whose inode has just been made. */
  method FillFile(im: Image, inum: nat, file: HostFile, ghost f1: Fs) returns (ok: bool)
    requires im.Valid() && f1 == im.V() && FileIs(f1, ROOTINO, FileAt(f1, ROOTINO)) && FileIs(f1, inum, []) && inum != ROOTINO
    modifies im`raw, im`freeblock, im`own
    ensures ok <==> CanAdd(im.sb, old(im.freeblock), |FileAt(f1, ROOTINO)|, file)
    ensures ok ==> im.freeblock == old(im.freeblock) + Growth(|FileAt(f1, ROOTINO)|, DIRENT) + Growth(0, |file.content|)
    ensures ok ==> im.Valid() && FileIs(im.V(), inum, file.content)
    ensures ok ==> TypeAt(im.V(), inum) == TypeAt(f1, inum) && TypeAt(im.V(), ROOTINO) == TypeAt(f1, ROOTINO)
    ensures ok ==> FileIs(im.V(), ROOTINO, FileAt(f1, ROOTINO) + Dirent(inum, file.name))
    ensures ok ==> forall j: nat :: j != inum && j != ROOTINO ==> SameFile(f1, im.V(), j)
  {
    ok := im.Append(ROOTINO, Dirent(inum, file.name));
    if ok {
      ghost var f2 := im.V();
      KeptFile(f1, f2, ROOTINO, inum);
      ok := im.AppendFile(inum, file.content);
      if ok {
        KeptFile(f2, im.V(), inum, ROOTINO);
        forall j: nat | j != inum && j != ROOTINO ensures SameFile(f1, im.V(), j) {
          KeptFile(f1, f2, ROOTINO, j);
          KeptFile(f2, im.V(), inum, j);
        }
      }
    }
  }

  /** The root directory ends on a block boundary exactly after 30, 62, 94, ... files. */
  lemma BlockBoundary(n: nat)
    ensures (16 * (2 + n)) % 512 == 0 <==> n % 32 == 30
  {
    var q, r := n / 32, n % 32;
    if r < 30 {
      RemainderIs(16 * (2 + n), q, 16 * (2 + r));
    } else {
      RemainderIs(16 * (2 + n), q + 1, 16 * (r - 30));
    }
  }

  lemma RemainderIs(a: nat, q: nat, r: nat)
    requires a == 512 * q + r && r < 512
    ensures a % 512 == r
  {
  }

  lemma RootSizeIs(f: Fs, d: seq<byte>)
    requires FileIs(f, ROOTINO, d) && NoHole(f, ROOTINO)
    ensures f.inodes[ROOTINO].size == |d|
  {
  }

  /** The image once the root directory and the first `k` files are on it. */
  ghost predicate Building(im: Image, files: seq<HostFile>, k: nat)
    requires k <= |files|
    reads im
  {
    && im.Valid() && im.freeinode == 2 + k && Populated(im.V(), files[..k])
    && im.freeblock == ImageBlocks(im.sb, files, k) && Roomy(im.sb, files, k)
  }

  /** One round of main's loop; it stops only where the files do not fit. */
  method AddNext(im: Image, files: seq<HostFile>, k: nat) returns (ok: bool)
    requires k < |files| && Building(im, files, k)
    modifies im
    ensures ok ==> Building(im, files, k + 1)
    ensures !ok ==> !Fits(im.sb, files)
  {
    TakeMore(files, k);
    ImageBlocksNext(im.sb, files, k);
    ok := AddFile(im, files[k], files[..k]);
    if !ok {
      CannotAdd(im.sb, files, k);
    }
  }

  /** main's loop over its arguments. */
  method AddFiles(im: Image, files: seq<HostFile>) returns (ok: bool)
    requires Building(im, files, 0)
    modifies im
    ensures ok ==> Building(im, files, |files|)
    ensures !ok ==> !Fits(im.sb, files)
  {
    ok := true;
    for i := 0 to |files|
      invariant ok && Building(im, files, i)
    {
      ok := AddNext(im, files, i);
      if !ok {
        return;
      }
    }
  }

  /** mkfs ends normally exactly if the files fit. It then leaves every host file's contents in its
      inode and an exact bitmap; no file has a hole unless 30, 62, 94, ... files were given. */
  method BuildImage(sb: Super, superBlock: Block, files: seq<HostFile>) returns (ok: bool, raw: seq<Block>, ghost own: Owner)
    requires sb.Good()
    ensures ok <==> Fits(sb, files)
    ensures ok ==> |raw| == sb.size && EmptyLog(sb, raw) && Sound(sb.Geo(), Decode(sb, raw), own)
    ensures ok ==> (NoHoles(Decode(sb, raw)) <==> |files| % 32 != 30)
    ensures ok ==> Installed(Decode(sb, raw), files)
  {
    var im := new Image(sb, superBlock);
    raw, own := [], map[];
    ImageBlocksGrow(sb, files, 0, |files|);
    ok := MakeRoot(im);
    if !ok {
      return;
    }
    assert files[..0] == [];
    ok := AddFiles(im, files);
    if !ok {
      return;
    }
    assert files[..|files|] == files;
    ok := FinishImage(im, files);
    if ok {
      raw, own := im.raw, im.own;
    }
  }

  method FinishImage(im: Image, ghost files: seq<HostFile>) returns (ok: bool)
    requires im.Valid() && Populated(im.V(), files)
    modifies im
    ensures ok <==> old(im.freeblock) < BPB
    ensures ok ==> |im.raw| == im.sb.size && EmptyLog(im.sb, im.raw) && Sound(im.sb.Geo(), Decode(im.sb, im.raw), im.own)
    ensures ok ==> (NoHoles(Decode(im.sb, im.raw)) <==> |files| % 32 != 30)
    ensures ok ==> Installed(Decode(im.sb, im.raw), files)
  {
    ghost var f := im.V();
    assert NoHole(f, ROOTINO);
    RootSizeIs(f, RootDir(files));
    BlockBoundary(|files|);
    ok := im.Finish();
    if ok {
      FinalContents(f, Decode(im.sb, im.raw), files, RootSize(|files|));
    }
  }

  lemma FinalContents(f: Fs, f': Fs, files: seq<HostFile>, n: nat)
    requires Populated(f, files) && |f'.inodes| == |f.inodes| && f'.blocks == f.blocks && n == RootSize(|files|)
    requires f.inodes[ROOTINO].size == n && f'.inodes[ROOTINO] == f.inodes[ROOTINO].(size := (n / BSIZE + 1) * BSIZE)
    requires forall j: nat :: j < |f.inodes| && j != ROOTINO ==> f'.inodes[j] == f.inodes[j]
    ensures Installed(f', files)
  {
    forall k: nat ensures FileOn(f', files, k) {
      if k < |files| {
        assert HasFile(f, files, k);
        if f.inodes[2 + k].size <= MAXBYTES { SameContent(f, f', 2 + k); }
      }
    }
    if n < MAXBYTES {
      WholeBlocks(n);
      RootBytes(f, f', RootDir(files), f'.inodes[ROOTINO].size);
      RootListsFiles(files, FileAt(f', ROOTINO), n);
    }
  }

  lemma {:induction false} NoFileBlocks(files: seq<HostFile>, k: nat)
    requires k <= |files| && forall j: nat :: j < |files| ==> files[j].content == []
    ensures FileBlocks(files, k) == 0
  {
    if k > 0 {
      NoFileBlocks(files, k - 1);
    }
  }

  /** On the disk the Makefile asks for, thirty files are enough to leave a hole in "/". */
  method ThirtyFiles(superBlock: Block, name: seq<byte>) returns (raw: seq<Block>)
    ensures var sb := Layout(FSSIZE, NINODES, LogDisk.LOGSIZE);
            sb.Good() && |raw| == sb.size && !NoHoles(Decode(sb, raw))
  {
    var sb := Layout(FSSIZE, NINODES, LogDisk.LOGSIZE);
    LayoutGood(FSSIZE, NINODES, LogDisk.LOGSIZE);
    var files := seq(30, _ => HostFile(name, []));
    NoFileBlocks(files, 30);
    assert BlocksFor(RootSize(30)) == 1;
    var ok;
    ghost var own;
    ok, raw, own := BuildImage(sb, superBlock, files);
  }
}
