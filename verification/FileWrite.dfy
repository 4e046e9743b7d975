/** filewrite of file.c: a long write is cut into transactions that fit the log. */
module FileWrite {
  import opened Blocks
  import opened FsModel
  import opened FsLayout
  import opened FsAlloc
  import opened FsBytes
  import opened FsFiles
  import LogDisk

  /** The most bytes written in one transaction. */
  const CHUNK: nat := (LogDisk.MAXOPBLOCKS - 1 - 1 - 2) / 2 * 512

  /** Bitmap blocks on the disk. */
  function BitmapBlocks(sb: Super): nat { sb.size / BPB + 1 }

  lemma UnionSize(a: set<nat>, b: set<nat>)
    ensures |a + b| <= |a| + |b|
  {
    assert a + b == a + (b - a);
  }

  lemma SubsetSize(a: set<nat>, b: set<nat>)
    requires a <= b
    ensures |a| <= |b|
  {
    assert b == a + (b - a);
  }

  lemma {:induction false} RangeSize(lo: nat, n: nat, s: set<nat>)
    requires forall x :: x in s ==> lo <= x < lo + n
    ensures |s| <= n
  {
    if n == 0 {
      assert s == {};
    } else {
      var last := lo + n - 1;
      RangeSize(lo, n - 1, s - {last});
    }
  }

  /** A chunk touches at most 3 blocks if it starts on a block boundary and 4 otherwise. */
  lemma ChunkTouches(off: nat, n: nat)
    requires n <= CHUNK
    ensures Touched(off, n) <= if off % BSIZE == 0 then 3 else 4
    ensures n == 0 ==> Touched(off, n) <= 1
  {
  }

  /** Of the whole numbers of blocks, those up to CHUNK are the ones that fit at every offset: two log
      blocks for each block touched, the inode and an indirect block. */
  lemma ChunkExactly(k: nat)
    ensures k * BSIZE <= CHUNK <==> forall off: nat :: 2 * Touched(off, k * BSIZE) + 2 <= LogDisk.MAXOPBLOCKS
  {
    if k * BSIZE <= CHUNK {
      forall off: nat ensures 2 * Touched(off, k * BSIZE) + 2 <= LogDisk.MAXOPBLOCKS {
        ChunkTouches(off, k * BSIZE);
      }
    } else {
      assert k >= 4;
      WholeTouches(k);
      assert 2 * Touched(1, k * BSIZE) + 2 > LogDisk.MAXOPBLOCKS;
    }
  }

  lemma WholeTouches(k: nat)
    ensures Touched(1, k * BSIZE) == k + 1
  {
  }

  lemma FourSets(a: set<nat>, b: set<nat>, c: set<nat>, d: set<nat>, s: set<nat>)
    requires s <= a + b + c + d
    ensures |s| <= |a| + |b| + |c| + |d|
  {
    UnionSize(a, b);
    UnionSize(a + b, c);
    UnionSize(a + b + c, d);
    SubsetSize(s, a + b + c + d);
  }

  /** The exact budget of one chunk: 4 data blocks, 4 bitmap blocks, an indirect block and the
      inode block at most, and no more bitmap blocks than the disk has. */
  lemma ChunkBudget(sb: Super, off: nat, n: nat, logged: set<nat>, data: set<nat>, maps: set<nat>, ind: nat)
    requires n <= CHUNK && MapSet(sb, maps)
    requires exists iblock: nat :: logged <= data + maps + IndSet(ind) + {iblock}
    requires |data| <= Touched(off, n) && |maps| <= Touched(off, n) + if off % BSIZE == 0 || n == 0 then 1 else 0
    ensures |logged| <= LogDisk.MAXOPBLOCKS
    ensures |logged| <= 6 + BitmapBlocks(sb)
  {
    var iblock: nat :| logged <= data + maps + IndSet(ind) + {iblock};
    ChunkTouches(off, n);
    FourSets(data, maps, IndSet(ind), {iblock}, logged);
    RangeSize(sb.bmapstart, BitmapBlocks(sb), maps);
  }

  /** struct file, for a file opened on an inode. */
  class OpenFile {
    const ip: Inode
    const writable: bool
    var off: word

    constructor (ip: Inode, writable: bool)
      ensures this.ip == ip && this.writable == writable && off == 0
    {
      this.ip, this.writable, this.off := ip, writable, 0;
    }
  }

  datatype Outcome = Returned(value: int) | Panicked

  /** Writes so far: `done` bytes of `src` at `off0`. */
  ghost predicate WrittenSoFar(f0: Fs, f: Fs, i: nat, off0: nat, src: seq<byte>, done: nat) {
    done <= |src| && FsBytes.Written(f0, f, i, off0, src[..done])
  }

  lemma WriteMore(f0: Fs, f: Fs, f': Fs, i: nat, off0: nat, src: seq<byte>, done: nat, more: nat, o: nat, chunk: seq<byte>)
    requires WrittenSoFar(f0, f, i, off0, src, done) && done <= more <= |src| && o == off0 + done && chunk == src[done..more]
    requires FsBytes.Written(f, f', i, o, chunk)
    ensures WrittenSoFar(f0, f', i, off0, src, more)
  {
    WrittenTrans(f0, f, f', i, off0, src[..done], chunk);
    assert src[..done] + chunk == src[..more];
  }

  /** One transaction of filewrite: begin_op, writei at the offset, end_op. `cost` is the number of
      distinct blocks it logged. */
  method WriteTransaction(fs: FileSystem, f: OpenFile, chunk: seq<byte>, end: nat, ghost s: nat, ghost c: nat) returns (w: WriteResult, ghost cost: nat)
    requires Steady(fs) && Synced(fs, f.ip) && |chunk| <= CHUNK && end == f.off + |chunk| && s == f.off / BSIZE && c == EndBlock(f.off, |chunk|)
    modifies fs`raw, fs`own, fs`logged, fs`base, fs`trace, f.ip`addrs, f.ip`size, f`off
    ensures fs.base == old(fs.raw)
    ensures w.Written? ==> cost <= LogDisk.MAXOPBLOCKS && cost <= 6 + BitmapBlocks(fs.sb)
    ensures !w.Panicked? ==> Steady(fs) && Synced(fs, f.ip)
    ensures w.Rejected? <==> old(f.off) > old(f.ip.size) || end > MAXBYTES
    ensures w.Rejected? ==> fs.raw == old(fs.raw) && f.off == old(f.off) && f.ip.size == old(f.ip.size)
    ensures !w.Rejected? ==> c <= MAXFILE && (w.Panicked? <==> FreeCount(old(fs.F())) < RangeNeeds(old(fs.F()), f.ip.inum, s, c))
    ensures w.Written? ==> FsBytes.Written(old(fs.F()), fs.F(), f.ip.inum, old(f.off), chunk)
    ensures w.Written? ==> f.off == end && f.ip.size == if end > old(f.ip.size) then end else old(f.ip.size)
    ensures w.Written? ==> cost == |fs.logged| && forall j: nat :: j < fs.sb.ninodes && j != f.ip.inum ==> fs.F().inodes[j] == old(fs.F()).inodes[j]
    ensures w.Written? ==> Counted(old(fs.F()), fs.F(), f.ip.inum, s, c)
  {
    fs.Begin();
    cost := 0;
    if end <= MAXBYTES {
      StepEnds(f.off, |chunk|, f.off, 0);
    }
    ghost var data, maps;
    w, data, maps := Writei(fs, f.ip, chunk, f.off, |chunk|);
    if w.Written? {
      ChunkBudget(fs.sb, f.off, |chunk|, fs.logged, data, maps, f.ip.addrs[NDIRECT]);
      cost := |fs.logged|;
      f.off := end;
    }
  }

  // ---- How far a write gets ---------------------------------------------------------------

  /** The bytes of the next transaction. */
  function NextChunk(n: nat, i: nat): nat
    requires i <= n
  {
    if n - i > CHUNK then CHUNK else n - i
  }

  /** The bytes filewrite stores when the disk has room: whole chunks up to the largest file size. */
  function Accepted(off: nat, size: nat, n: nat): nat {
    if off > size || size > MAXBYTES then 0
    else if off + n <= MAXBYTES then n
    else (MAXBYTES - off) / CHUNK * CHUNK
  }

  /** `i` bytes have been stored, in whole chunks unless that is all. */
  predicate Chunked(off: nat, size: nat, n: nat, i: nat) {
    i <= n && i <= Accepted(off, size, n) && (i < n ==> i % CHUNK == 0)
  }

  lemma ChunkFits(off: nat, size: nat, n: nat, i: nat, i': nat)
    requires Chunked(off, size, n, i) && i < n && i' == i + NextChunk(n, i) && off <= size <= MAXBYTES && off + i' <= MAXBYTES
    ensures Chunked(off, size, n, i')
  {
    if i' < n {
      NextMultiple(i);
      if off + n > MAXBYTES {
        FloorAbove(MAXBYTES - off, i');
      }
    }
  }

  lemma ChunkStops(off: nat, size: nat, n: nat, i: nat)
    requires Chunked(off, size, n, i) && i < n && (off > size || size > MAXBYTES || off + i + NextChunk(n, i) > MAXBYTES)
    ensures i == Accepted(off, size, n)
  {
    if off <= size <= MAXBYTES {
      FloorBelow(MAXBYTES - off, i);
    }
  }

  lemma NextMultiple(i: nat)
    requires i % CHUNK == 0
    ensures (i + CHUNK) % CHUNK == 0
  {
  }

  lemma FloorAbove(x: nat, i: nat)
    requires i % CHUNK == 0 && i <= x
    ensures i <= x / CHUNK * CHUNK
  {
  }

  lemma FloorBelow(x: nat, i: nat)
    requires i % CHUNK == 0 && x < i + CHUNK
    ensures x / CHUNK * CHUNK <= i
  {
  }

  lemma EndBlocks(off: nat, m: nat, n: nat)
    requires m <= n
    ensures EndBlock(off, m) <= EndBlock(off, n)
  {
    if m > 0 {
      BlocksAscend(off + m - 1, off + n - 1);
    } else if n > 0 {
      BlocksAscend(off, off + n - 1);
    }
  }

  /** Where the next chunk begins: after the blocks written, or in the last of them. */
  lemma ChunkBegins(off: nat, i: nat, i': nat)
    requires i < i'
    ensures EndBlock(off + i, i' - i) == EndBlock(off, i') && (off + i) / BSIZE < EndBlock(off, i')
    ensures off / BSIZE <= EndBlock(off, i) <= EndBlock(off, i')
    ensures var s, b := (off + i) / BSIZE, EndBlock(off, i);
            s == b || (s + 1 == b && off / BSIZE < b && s * BSIZE < off + i)
  {
    EndBlocks(off, i, i');
    EndBlocks(off, 0, i);
    BlocksAscend(off + i, off + i' - 1);
    LastBlock(off + i);
  }

  lemma LastBlock(x: nat)
    ensures x > 0 ==> x / BSIZE == (x - 1) / BSIZE + if x % BSIZE == 0 then 1 else 0
    ensures x % BSIZE != 0 ==> x / BSIZE * BSIZE < x
  {
  }

  /** The count of one chunk adds to that of the chunks before it. */
  lemma CountJoin(f0: Fs, f: Fs, f': Fs, i: nat, a: nat, b: nat, s: nat, c: nat)
    requires Counted(f0, f, i, a, b) && Counted(f, f', i, s, c) && b <= c && s < c
    requires s == b || (s + 1 == b && a < b && Ref(f, i, s) != 0)
    ensures Counted(f0, f', i, a, c)
  {
    RangeJoin(f0, f, i, a, b, s, c);
    forall k: nat | c <= k ensures SameHole(f0, f', i, k) {
      assert SameHole(f0, f, i, k) && SameHole(f, f', i, k);
    }
  }

  lemma CountShort(f0: Fs, f: Fs, i: nat, a: nat, b: nat, s: nat, c: nat, all: nat)
    requires Counted(f0, f, i, a, b) && b <= c <= all <= MAXFILE && FreeCount(f) < RangeNeeds(f, i, s, c)
    requires s == b || (s + 1 == b && a < b && Ref(f, i, s) != 0)
    ensures FreeCount(f0) < RangeNeeds(f0, i, a, all)
  {
    RangeJoin(f0, f, i, a, b, s, c);
    RangeGrows(f0, i, a, c, all);
  }

  // ---- The loop -----------------------------------------------------------------------------

  /** Where filewrite stands after `i` bytes, having started at offset `off0` of a file of `size0`
      bytes in the file system `f0`. */
  ghost predicate Underway(fs: FileSystem, f: OpenFile, src: seq<byte>, f0: Fs, off0: nat, size0: nat, i: nat, worst: nat)
    reads fs, f, f.ip
  {
    && Steady(fs) && Synced(fs, f.ip)
    && i <= |src| && f.off == off0 + i && WrittenSoFar(f0, fs.F(), f.ip.inum, off0, src, i)
    && (if i == 0 then f.ip.size == size0 else f.off <= f.ip.size && off0 <= size0)
    && worst <= LogDisk.MAXOPBLOCKS && worst <= 6 + BitmapBlocks(fs.sb)
  }

  /** One round of filewrite's loop, which stores the bytes `i .. i'` in the blocks `s .. c`. */
  method NextTransaction(fs: FileSystem, f: OpenFile, src: seq<byte>, i: nat, i': nat, ghost f0: Fs, ghost off0: nat, ghost size0: nat,
                         ghost worst: nat, ghost s: nat, ghost c: nat)
      returns (w: WriteResult, ghost worst': nat)
    requires i < i' <= |src| && i' == i + NextChunk(|src|, i) && Underway(fs, f, src, f0, off0, size0, i, worst)
    requires s == (off0 + i) / BSIZE && c == EndBlock(off0 + i, i' - i)
    modifies fs`raw, fs`own, fs`logged, fs`base, fs`trace, f.ip`addrs, f.ip`size, f`off
    ensures w.Written? ==> off0 <= size0 && Underway(fs, f, src, f0, off0, size0, i', worst')
    ensures w.Rejected? ==> Underway(fs, f, src, f0, off0, size0, i, worst) && fs.F() == old(fs.F())
    ensures w.Rejected? <==> off0 > size0 || off0 + i' > MAXBYTES
    ensures !w.Rejected? ==> c <= MAXFILE && (w.Panicked? <==> FreeCount(old(fs.F())) < RangeNeeds(old(fs.F()), f.ip.inum, s, c))
    ensures w.Written? ==> Counted(old(fs.F()), fs.F(), f.ip.inum, s, c)
  {
    ghost var e, cost, o := fs.F(), 0, f.off;
    var chunk := src[i..i'];
    w, cost := WriteTransaction(fs, f, chunk, f.off + |chunk|, s, c);
    worst' := if cost > worst then cost else worst;
    if w.Written? {
      WriteMore(f0, e, fs.F(), f.ip.inum, off0, src, i, i', o, chunk);
    }
  }

  /** Blocks `a .. b` of the file have been mapped, if the write was not out of place. */
  ghost predicate CountedSoFar(fs: FileSystem, f0: Fs, i: nat, off0: nat, size0: nat, a: nat, b: nat)
    requires fs.Ready()
    reads fs
  {
    off0 <= size0 ==> Counted(f0, fs.F(), i, a, b)
  }

  /** The same round, with the free blocks counted; `all` is the end of what would be stored with room
      enough. */
  method CountedTransaction(fs: FileSystem, f: OpenFile, src: seq<byte>, i: nat, ghost f0: Fs, ghost off0: nat, ghost size0: nat, ghost worst: nat,
                            ghost a: nat, ghost b: nat, ghost all: nat)
      returns (w: WriteResult, i': nat, ghost worst': nat, ghost b': nat)
    requires i < |src| && Underway(fs, f, src, f0, off0, size0, i, worst) && Chunked(off0, size0, |src|, i) && size0 <= MAXBYTES
    requires a == off0 / BSIZE && b == EndBlock(off0, i) && CountedSoFar(fs, f0, f.ip.inum, off0, size0, a, b)
    requires off0 <= size0 ==> all == EndBlock(off0, Accepted(off0, size0, |src|)) && all <= MAXFILE
    modifies fs`raw, fs`own, fs`logged, fs`base, fs`trace, f.ip`addrs, f.ip`size, f`off
    ensures i < i' && b' == EndBlock(off0, i')
    ensures w.Written? ==> Underway(fs, f, src, f0, off0, size0, i', worst') && Chunked(off0, size0, |src|, i')
    ensures w.Written? ==> CountedSoFar(fs, f0, f.ip.inum, off0, size0, a, b')
    ensures w.Rejected? ==> Underway(fs, f, src, f0, off0, size0, i, worst) && CountedSoFar(fs, f0, f.ip.inum, off0, size0, a, b)
    ensures w.Rejected? ==> i == Accepted(off0, size0, |src|)
    ensures w.Rejected? ==> off0 > size0 || off0 + i + NextChunk(|src|, i) > MAXBYTES
    ensures w.Panicked? ==> off0 <= size0 && FreeCount(f0) < RangeNeeds(f0, f.ip.inum, a, all)
  {
    ghost var e, s := fs.F(), (off0 + i) / BSIZE;
    i' := i + NextChunk(|src|, i);
    b' := EndBlock(off0, i');
    ChunkBegins(off0, i, i');
    LastMapped(fs, f, off0, i, s, b);
    w, worst' := NextTransaction(fs, f, src, i, i', f0, off0, size0, worst, s, b');
    if w.Rejected? {
      ChunkStops(off0, size0, |src|, i);
    } else {
      ChunkFits(off0, size0, |src|, i, i');
      EndBlocks(off0, i', Accepted(off0, size0, |src|));
      if w.Written? {
        CountJoin(f0, e, fs.F(), f.ip.inum, a, b, s, b');
      } else {
        CountShort(f0, e, f.ip.inum, a, b, s, b', all);
      }
    }
  }

  /** A chunk that begins inside a block begins in a mapped one. */
  lemma LastMapped(fs: FileSystem, f: OpenFile, off0: nat, i: nat, s: nat, b: nat)
    requires Steady(fs) && Synced(fs, f.ip) && s == (off0 + i) / BSIZE && b == EndBlock(off0, i)
    requires i > 0 ==> off0 + i <= f.ip.size
    ensures s + 1 == b ==> s < MAXFILE && Ref(fs.F(), f.ip.inum, s) != 0
  {
    SizeBound(fs, f.ip);
    ChunkBegins(off0, i, i + 1);
    assert NoHole(fs.F(), f.ip.inum);
    if s + 1 == b {
      BlockBound(off0 + i - 1);
    }
  }

  lemma AcceptedFits(off: nat, size: nat, n: nat)
    requires off <= size <= MAXBYTES
    ensures Accepted(off, size, n) <= n && off + Accepted(off, size, n) <= MAXBYTES && EndBlock(off, Accepted(off, size, n)) <= MAXFILE
  {
    StepEnds(off, Accepted(off, size, n), off, 0);
  }

  /** The disk has fewer free blocks than a write of `n` bytes at `off` of file `i` would take. */
  predicate NoRoom(f: Fs, i: nat, off: nat, size: nat, n: nat)
    requires i < |f.inodes|
  {
    off <= size <= MAXBYTES && (AcceptedFits(off, size, n); FreeCount(f) < WriteNeeds(f, i, off, Accepted(off, size, n)))
  }

  /** filewrite's loop. */
  method WriteChunks(fs: FileSystem, f: OpenFile, src: seq<byte>, ghost f0: Fs, ghost off0: nat, ghost size0: nat, ghost a: nat, ghost all: nat)
      returns (w: WriteResult, ghost i: nat, ghost worst: nat, ghost b: nat)
    requires Underway(fs, f, src, f0, off0, size0, 0, 0) && size0 <= MAXBYTES && a == off0 / BSIZE && CountedSoFar(fs, f0, f.ip.inum, off0, size0, a, a)
    requires off0 <= size0 ==> all == EndBlock(off0, Accepted(off0, size0, |src|)) && all <= MAXFILE
    modifies fs`raw, fs`own, fs`logged, fs`base, fs`trace, f.ip`addrs, f.ip`size, f`off
    ensures worst <= LogDisk.MAXOPBLOCKS && worst <= 6 + BitmapBlocks(fs.sb)
    ensures w.Panicked? ==> off0 <= size0 && FreeCount(f0) < RangeNeeds(f0, f.ip.inum, a, all)
    ensures !w.Panicked? ==> Underway(fs, f, src, f0, off0, size0, i, worst) && Chunked(off0, size0, |src|, i)
    ensures !w.Panicked? ==> b == EndBlock(off0, i) && CountedSoFar(fs, f0, f.ip.inum, off0, size0, a, b)
    ensures w.Written? ==> i == |src|
    ensures w.Rejected? ==> i < |src| && i == Accepted(off0, size0, |src|) && (off0 > size0 || off0 + i + NextChunk(|src|, i) > MAXBYTES)
  {
    var n, done := |src|, 0;
    i, worst, b := 0, 0, a;
    while done < n
      invariant done == i && Underway(fs, f, src, f0, off0, size0, i, worst) && Chunked(off0, size0, |src|, i)
      invariant b == EndBlock(off0, i) && CountedSoFar(fs, f0, f.ip.inum, off0, size0, a, b)
    {
      ghost var worst', b';
      w, done, worst', b' := CountedTransaction(fs, f, src, done, f0, off0, size0, worst, a, b, all);
      if !w.Written? {
        return;
      }
      i, worst, b := done, worst', b';
    }
    w := WriteResult.Written(n);
  }

  /** filewrite stores a prefix of `src` at the file offset and advances the offset by as much: all of
      it, or as many whole chunks as the largest file size allows, or nothing if the offset lies
      beyond the end of the file. It returns the full count if that is all of `src` and -1
      otherwise, and panics exactly if the disk has fewer free blocks than that prefix needs. Every
      transaction it completes logs at most MAXOPBLOCKS distinct blocks. */
  method Filewrite(fs: FileSystem, f: OpenFile, src: seq<byte>) returns (r: Outcome, ghost done: nat, ghost worst: nat)
    requires Steady(fs) && Synced(fs, f.ip) && |src| < 0x8000_0000
    modifies fs`raw, fs`own, fs`logged, fs`base, fs`trace, f.ip`addrs, f.ip`size, f`off
    ensures worst <= LogDisk.MAXOPBLOCKS && worst <= 6 + BitmapBlocks(fs.sb)
    ensures !f.writable ==> r == Returned(-1) && done == 0 && fs.raw == old(fs.raw) && f.off == old(f.off)
    ensures f.writable ==> (r.Panicked? <==> NoRoom(old(fs.F()), f.ip.inum, old(f.off), old(f.ip.size), |src|))
    ensures f.writable && r.Returned? ==> Steady(fs) && Synced(fs, f.ip)
    ensures f.writable && r.Returned? ==> done == Accepted(old(f.off), old(f.ip.size), |src|)
    ensures f.writable && r.Returned? ==> WrittenSoFar(old(fs.F()), fs.F(), f.ip.inum, old(f.off), src, done)
    ensures f.writable && r.Returned? ==> f.off == old(f.off) + done
    ensures f.writable && r.Returned? ==> r.value == if done == |src| then |src| else -1
    ensures f.writable && r.Returned? && done < |src| ==>
              old(f.off) > old(f.ip.size) || old(f.off) + done + NextChunk(|src|, done) > MAXBYTES
  {
    done, worst := 0, 0;
    if !f.writable {
      return Returned(-1), 0, 0;
    }
    ghost var off0, size0, a := f.off, f.ip.size, f.off / BSIZE;
    ghost var b;
    SizeBound(fs, f.ip);
    if off0 <= size0 {
      AcceptedFits(off0, size0, |src|);
    }
    WriteNothing(fs.F(), f.ip.inum, f.off);
    NothingMapped(fs.F(), f.ip.inum, a);
    var w;
    w, done, worst, b := WriteChunks(fs, f, src, fs.F(), off0, size0, a, EndBlock(off0, Accepted(off0, size0, |src|)));
    assert !w.Panicked? ==> done == Accepted(off0, size0, |src|);
    r := match w
      case Written(_) => Returned(|src|)
      case Rejected => Returned(-1)
      case Panicked => Outcome.Panicked;
  }
}
