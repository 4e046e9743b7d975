/** readi, writei and the blocks they log. */
module FsFiles {
  import opened Blocks
  import opened FsModel
  import opened FsLayout
  import opened FsAlloc
  import opened FsBytes

  datatype WriteResult = Written(n: nat) | Rejected | Panicked
  datatype ReadResult = Read(data: seq<byte>) | Rejected

  /** Between operations: an exact bitmap and no holes. */
  ghost predicate Steady(fs: FileSystem)
    reads fs
  {
    fs.Ready() && Sound(fs.sb.Geo(), fs.F(), fs.own) && NoHoles(fs.F())
  }

  /** The cached inode is allocated, is not a device, and agrees with the disk. */
  ghost predicate Synced(fs: FileSystem, ip: Inode)
    reads fs, ip
  {
    && fs.Ready() && ip.inum < fs.sb.ninodes && ip.kind != 0 && ip.kind != T_DEV
    && fs.F().inodes[ip.inum] == ip.Copy()
  }

  lemma SyncedIsHeld(fs: FileSystem, ip: Inode)
    requires Steady(fs) && Synced(fs, ip)
    ensures fs.Seen(ip) == fs.F() && fs.Held(ip)
  {
    assert fs.F().inodes[ip.inum := ip.Copy()] == fs.F().inodes;
  }

  /** File blocks touched by `n` bytes at `off`. */
  function Touched(off: nat, n: nat): nat { (off % BSIZE + n + BSIZE - 1) / BSIZE }

  /** Block `k` of file `i` is mapped if it starts below `end`. */
  predicate MappedAt(f: Fs, i: nat, end: nat, k: nat)
    requires i < |f.inodes|
  {
    k < MAXFILE && k * BSIZE < end ==> Ref(f, i, k) != 0
  }

  ghost predicate Mapped(f: Fs, i: nat, end: nat)
    requires i < |f.inodes|
  {
    forall k: nat :: MappedAt(f, i, end, k)
  }

  lemma NoHoleMaps(f: Fs, i: nat, end: nat)
    requires Live(f, i) && NoHole(f, i) && end <= f.inodes[i].size
    ensures Mapped(f, i, end)
  {
    forall k: nat ensures MappedAt(f, i, end, k) {}
  }

  lemma MappedGrows(f: Fs, f': Fs, i: nat, end: nat, end': nat)
    requires Live(f, i) && Live(f', i) && RefsGrow(f, f') && Mapped(f, i, end)
    requires end <= end' <= (end / BSIZE + 1) * BSIZE && (end' > end ==> end < MAXBYTES && Ref(f', i, end / BSIZE) != 0)
    ensures Mapped(f', i, end')
  {
    forall k: nat ensures MappedAt(f', i, end', k) {
      assert MappedAt(f, i, end, k);
      if k < MAXFILE { assert KeepsRef(f, f', i, k); }
    }
  }

  lemma SizeBound(fs: FileSystem, ip: Inode)
    requires Steady(fs) && Synced(fs, ip)
    ensures ip.size <= MAXBYTES
  {
    assert NoHole(fs.F(), ip.inum);
  }

  /** The 32-bit overflow test `off + n < off`. */
  lemma Wraps(off: word, n: word)
    ensures (off + n) % 0x1_0000_0000 < off <==> off + n >= 0x1_0000_0000
  {
  }

  // ---- readi ------------------------------------------------------------------------

  /** One iteration of readi: the bytes of the file inside one block. */
  method ReadChunk(fs: FileSystem, ip: Inode, o: nat, m: nat) returns (bytes: seq<byte>)
    requires Steady(fs) && Synced(fs, ip) && ip.size <= MAXBYTES
    requires 0 < m && o + m <= ip.size && o % BSIZE + m <= BSIZE
    modifies fs`raw, fs`own, fs`logged, fs`trace, ip`addrs
    ensures fs.raw == old(fs.raw) && fs.own == old(fs.own) && fs.logged == old(fs.logged) && fs.trace == old(fs.trace) && ip.addrs == old(ip.addrs)
    ensures bytes == Content(old(fs.F()), ip.inum)[o..o + m]
  {
    ghost var f := fs.F();
    var k, p := o / BSIZE, o % BSIZE;
    SyncedIsHeld(fs, ip);
    assert NoHole(f, ip.inum) && Ref(f, ip.inum, k) != 0;
    assert SlotOk(fs.sb.Geo(), f, fs.own, ip.inum, k);
    ContentChunk(f, ip.inum, o, m);
    var ok, addr := fs.Bmap(ip, k);
    assert ok && addr == Ref(f, ip.inum, k) && Blk(f, addr) == fs.raw[addr];
    bytes := fs.raw[addr][p..p + m];
  }

  /** readi's loop over the blocks of a range inside the file. */
  method ReadRange(fs: FileSystem, ip: Inode, off: nat, n: nat) returns (dst: seq<byte>)
    requires Steady(fs) && Synced(fs, ip) && off + n <= ip.size <= MAXBYTES
    modifies fs`raw, fs`own, fs`logged, fs`trace, ip`addrs
    ensures fs.raw == old(fs.raw) && fs.own == old(fs.own) && fs.logged == old(fs.logged) && fs.trace == old(fs.trace) && ip.addrs == old(ip.addrs)
    ensures dst == Content(old(fs.F()), ip.inum)[off..off + n]
  {
    ghost var c := Content(fs.F(), ip.inum);
    dst := [];
    var o := off;
    while o < off + n
      invariant off <= o <= off + n && dst == c[off..o]
      invariant fs.raw == old(fs.raw) && fs.own == old(fs.own) && fs.logged == old(fs.logged) && fs.trace == old(fs.trace) && ip.addrs == old(ip.addrs)
    {
      var m := if off + n - o < BSIZE - o % BSIZE then off + n - o else BSIZE - o % BSIZE;
      var bytes := ReadChunk(fs, ip, o, m);
      Glue(c, off, o, o + m);
      dst := dst + bytes;
      o := o + m;
    }
  }

  /** readi returns the part of the file that `off` and `n` select, clipped to its size, and
      allocates nothing although it goes through bmap. */
  method Readi(fs: FileSystem, ip: Inode, off: word, n: word) returns (r: ReadResult)
    requires Steady(fs) && Synced(fs, ip)
    modifies fs`raw, fs`own, fs`logged, fs`trace, ip`addrs
    ensures fs.raw == old(fs.raw) && fs.own == old(fs.own) && fs.logged == old(fs.logged) && fs.trace == old(fs.trace) && ip.addrs == old(ip.addrs)
    ensures r.Rejected? <==> off > ip.size || off + n >= 0x1_0000_0000
    ensures fs.Ready() && fs.F().inodes[ip.inum].size <= MAXBYTES
    ensures r.Read? ==> r.data == Content(fs.F(), ip.inum)[off .. if off + n <= ip.size then off + n else ip.size]
  {
    SizeBound(fs, ip);
    Wraps(off, n);
    if off > ip.size || (off + n) % 0x1_0000_0000 < off {
      return ReadResult.Rejected;
    }
    var want := if off + n > ip.size then ip.size - off else n;
    var dst := ReadRange(fs, ip, off, want);
    return Read(dst);
  }

  // ---- writei -----------------------------------------------------------------------

  /** The indirect block, if there is one. */
  function IndSet(ind: nat): set<nat> { if ind == 0 then {} else {ind} }

  /** One iteration of writei: `data` fits inside the block of byte `o`. Besides the data block it
      logs at most the indirect block and `maps`, one bitmap block per block allocated. */
  method WriteChunk(fs: FileSystem, ip: Inode, o: nat, data: seq<byte>)
      returns (ok: bool, addr: word, ghost maps: set<nat>)
    requires fs.Held(ip) && o < MAXBYTES && o % BSIZE + |data| <= BSIZE
    modifies fs`raw, fs`own, fs`logged, fs`trace, ip`addrs
    ensures !ok ==> fs.Ready() && Full(fs.F())
    ensures ok ==> fs.Held(ip) && fs.F().inodes == old(fs.F()).inodes
    ensures ok ==> FsBytes.Written(old(fs.Seen(ip)), fs.Seen(ip), ip.inum, o, data)
    ensures ok ==> RefsGrow(old(fs.Seen(ip)), fs.Seen(ip)) && Ref(fs.Seen(ip), ip.inum, o / BSIZE) != 0
    ensures ok && Ref(old(fs.Seen(ip)), ip.inum, o / BSIZE) != 0 ==> ip.addrs == old(ip.addrs) && maps == {}
    ensures ok ==> |maps| <= 1 + if ip.addrs[NDIRECT] != old(ip.addrs[NDIRECT]) then 1 else 0
    ensures ok && old(ip.addrs[NDIRECT]) != 0 ==> ip.addrs[NDIRECT] == old(ip.addrs[NDIRECT])
    ensures ok ==> MapSet(fs.sb, maps)
    ensures ok ==> fs.logged <= old(fs.logged) + {addr} + IndSet(ip.addrs[NDIRECT]) + maps
    ensures ok <==> Needs(old(fs.Seen(ip)), ip.inum, o / BSIZE) <= FreeCount(old(fs.Seen(ip)))
    ensures ok ==> Took(old(fs.Seen(ip)), fs.Seen(ip), ip.inum, o / BSIZE)
  {
    ghost var e0 := fs.Seen(ip);
    ok, addr := fs.Bmap(ip, o / BSIZE);
    maps := if ok && Ref(e0, ip.inum, o / BSIZE) == 0 then NewMaps(fs.sb, addr, old(ip.addrs[NDIRECT]), ip.addrs[NDIRECT]) else {};
    if ok {
      ghost var e1 := fs.Seen(ip);
      assert KeepsSlot(e0, e1, ip.inum, INDIRECT) && SlotOk(fs.sb.Geo(), e1, fs.own, ip.inum, INDIRECT);
      StoreChunk(fs, ip, o, data, addr, e0);
      OnlyMapsThen(e0, e1, fs.Seen(ip), ip.inum, o / BSIZE);
    }
  }

  /** The second half of an iteration: `data` goes into the mapped block `addr` of byte `o`. */
  method StoreChunk(fs: FileSystem, ip: Inode, o: nat, data: seq<byte>, addr: word, ghost e0: Fs)
    requires fs.Held(ip) && o < MAXBYTES && o % BSIZE + |data| <= BSIZE
    requires addr == Ref(fs.Seen(ip), ip.inum, o / BSIZE) && addr != 0
    requires Extends(e0, fs.Seen(ip)) && forall j: nat :: Live(fs.Seen(ip), j) <==> Live(e0, j)
    modifies fs`raw, fs`logged, fs`trace
    ensures fs.Held(ip) && fs.F().inodes == old(fs.F()).inodes
    ensures FsBytes.Written(e0, fs.Seen(ip), ip.inum, o, data) && RefsGrow(e0, fs.Seen(ip))
    ensures Ref(fs.Seen(ip), ip.inum, o / BSIZE) != 0
    ensures fs.sb.Meta() <= addr < fs.sb.size && fs.logged == old(fs.logged) + {addr}
    ensures fs.F().bits == old(fs.F()).bits && KeepsRefs(old(fs.Seen(ip)), fs.Seen(ip))
  {
    ghost var e1 := fs.Seen(ip);
    ChunkWritten(fs.sb.Geo(), e0, e1, fs.own, ip.inum, o, data);
    assert fs.raw[addr] == e1.blocks[addr];
    fs.PutData(addr, Splice(fs.raw[addr], o % BSIZE, data));
    assert fs.Seen(ip) == PutBlock(e1, addr, Splice(e1.blocks[addr], o % BSIZE, data));
    PutKeepsRefs(fs.sb.Geo(), e1, fs.own, ip.inum, o / BSIZE, Splice(e1.blocks[addr], o % BSIZE, data));
  }

  /** No reference differs. */
  ghost predicate KeepsRefs(f: Fs, f': Fs) {
    forall j: nat, m: nat :: SameSlot(f, f', j, m)
  }

  lemma PutKeepsRefs(g: Geometry, f: Fs, own: Owner, i: nat, k: nat, data: Block)
    requires Sound(g, f, own) && Live(f, i) && k < MAXFILE && Ref(f, i, k) != 0
    ensures Ref(f, i, k) < |f.blocks| && KeepsRefs(f, PutBlock(f, Ref(f, i, k), data))
  {
    assert SlotOk(g, f, own, i, k);
    forall j: nat, m: nat ensures SameSlot(f, PutBlock(f, Ref(f, i, k), data), j, m) {
      if Live(f, j) && m < SLOTS { PutBlockRef(g, f, own, i, k, data, j, m); }
    }
  }

  lemma OnlyMapsThen(f: Fs, e: Fs, e': Fs, i: nat, k: nat)
    requires OnlyMaps(f, e, i, k) && KeepsRefs(e, e') && forall j: nat :: Live(f, j) ==> Live(e, j)
    ensures OnlyMaps(f, e', i, k)
  {
    forall j: nat, m: nat | Apart(i, k, j, m) ensures SameSlot(f, e', j, m) {
      assert SameSlot(f, e, j, m) && SameSlot(e, e', j, m);
    }
  }

  /** The bitmap blocks touched when a data block was allocated, and perhaps an indirect block. */
  ghost function NewMaps(sb: Super, addr: nat, ind: nat, ind': nat): (maps: set<nat>)
    ensures |maps| <= 1 + if ind' != ind then 1 else 0
    ensures addr < sb.size && ind' < sb.size ==> MapSet(sb, maps)
  {
    {sb.BBlock(addr)} + (if ind' != ind then {sb.BBlock(ind')} else {})
  }

  /** Growing the file to `e1` and then storing `data` in the mapped block of byte `o`. */
  lemma ChunkWritten(g: Geometry, e0: Fs, e1: Fs, own: Owner, i: nat, o: nat, data: seq<byte>)
    requires Sound(g, e1, own) && Live(e1, i) && o < MAXBYTES && o % BSIZE + |data| <= BSIZE
    requires Extends(e0, e1) && forall j: nat :: Live(e1, j) <==> Live(e0, j)
    requires Ref(e1, i, o / BSIZE) != 0
    ensures g.nmeta <= Ref(e1, i, o / BSIZE) < g.size
    ensures var b := Ref(e1, i, o / BSIZE);
            var e2 := PutBlock(e1, b, Splice(e1.blocks[b], o % BSIZE, data));
            && Sound(g, e2, own) && RefsGrow(e0, e2) && Ref(e2, i, o / BSIZE) != 0
            && FsBytes.Written(e0, e2, i, o, data)
  {
    var k := o / BSIZE;
    var b := Ref(e1, i, k);
    assert SlotOk(g, e1, own, i, k);
    var blk := Splice(e1.blocks[b], o % BSIZE, data);
    var e2 := PutBlock(e1, b, blk);
    PutBlockKeeps(g, e1, own, i, k, blk);
    PutBlockGrows(g, e1, own, i, k, blk);
    PutBlockRef(g, e1, own, i, k, blk, i, k);
    PutBlockWrites(g, e1, own, i, o, data);
    ExtendsWritesNothing(e0, e1, i, o);
    WrittenTrans(e0, e1, e2, i, o, [], data);
    assert [] + data == data;
    ExtendsGrows(e0, e1);
    RefsGrowTrans(e0, e1, e2);
  }

  /** writei has stored `src` up to file position `o`. */
  ghost predicate Progress(e0: Fs, e: Fs, i: nat, off: nat, src: seq<byte>, o: nat) {
    && off <= o <= off + |src| && Live(e, i)
    && FsBytes.Written(e0, e, i, off, src[..o - off])
    && RefsGrow(e0, e) && Mapped(e, i, o)
  }

  lemma Advance(e0: Fs, e: Fs, e': Fs, i: nat, off: nat, src: seq<byte>, o: nat, m: nat, o': nat)
    requires Progress(e0, e, i, off, src, o) && Live(e', i) && o < MAXBYTES
    requires 0 < m && o' == o + m <= off + |src| && o % BSIZE + m <= BSIZE
    requires FsBytes.Written(e, e', i, o, src[o - off..o - off + m])
    requires RefsGrow(e, e') && Ref(e', i, o / BSIZE) != 0
    ensures Progress(e0, e', i, off, src, o')
  {
    RefsGrowTrans(e0, e, e');
    MappedGrows(e, e', i, o, o');
    var a, b := src[..o - off], src[o - off..o - off + m];
    WrittenTrans(e0, e, e', i, off, a, b);
    assert a + b == src[..o' - off];
  }

  /** After `t` iterations writei stands at a block boundary or at the end. */
  predicate Step(off: nat, n: nat, o: nat, t: nat) {
    && t <= Touched(off, n)
    && if t == 0 then o == off
       else off < o && (off / BSIZE + t - 1) * BSIZE < o <= (off / BSIZE + t) * BSIZE && (o == off + n || o == (off / BSIZE + t) * BSIZE)
  }

  /** The file block after the last one of `n` bytes at `off`. */
  function EndBlock(off: nat, n: nat): nat {
    if n == 0 then off / BSIZE else (off + n - 1) / BSIZE + 1
  }

  /** The blocks a write of `n` bytes at `off` has to allocate. */
  function WriteNeeds(f: Fs, i: nat, off: nat, n: nat): nat
    requires i < |f.inodes| && off + n <= MAXBYTES
  {
    StepEnds(off, n, off, 0);
    RangeNeeds(f, i, off / BSIZE, EndBlock(off, n))
  }

  lemma StepEnds(off: nat, n: nat, o: nat, t: nat)
    requires Step(off, n, o, t) && off <= o <= off + n <= MAXBYTES
    ensures EndBlock(off, n) <= MAXFILE
    ensures o == off + n ==> off / BSIZE + t == EndBlock(off, n)
    ensures o < off + n ==> o / BSIZE == off / BSIZE + t < EndBlock(off, n)
  {
    BlockOf(off / BSIZE + t, o);
    BlockBound(if n == 0 then off else off + n - 1);
    if o < off + n {
      BlocksAscend(o, off + n - 1);
    }
  }

  lemma BlockBound(x: nat)
    requires x <= MAXBYTES
    ensures x / BSIZE <= MAXFILE && (x < MAXBYTES ==> x / BSIZE < MAXFILE)
  {
  }

  lemma BlocksAscend(x: nat, y: nat)
    requires x <= y
    ensures x / BSIZE <= y / BSIZE
  {
  }

  lemma BlockOf(q: nat, o: nat)
    ensures q * BSIZE == o ==> o / BSIZE == q
    ensures q > 0 && (q - 1) * BSIZE < o <= q * BSIZE ==> (o - 1) / BSIZE + 1 == q
  {
  }

  lemma NextStep(off: nat, n: nat, o: nat, t: nat, m: nat)
    requires Step(off, n, o, t) && off <= o < off + n
    requires m == if off + n - o < BSIZE - o % BSIZE then off + n - o else BSIZE - o % BSIZE
    ensures Step(off, n, o + m, t + 1) && 0 < m && o % BSIZE + m <= BSIZE && o + m <= off + n
    ensures t == 0 ==> o == off
  {
  }

  /** The bookkeeping of writei's loop after `t` blocks, `spent` of them unmapped before. */
  ghost predicate Books(fs: FileSystem, ip: Inode, before: set<nat>, ind0: nat, data: set<nat>, maps: set<nat>, t: nat, spent: nat)
    reads fs, ip
  {
    && spent <= t && |data| <= t && |maps| <= spent + (if ip.addrs[NDIRECT] != ind0 then 1 else 0)
    && (ind0 != 0 ==> ip.addrs[NDIRECT] == ind0)
    && fs.logged <= before + data + maps + IndSet(ip.addrs[NDIRECT])
    && MapSet(fs.sb, maps)
  }

  /** One iteration of writei's loop, with the bookkeeping brought up to date. */
  method WriteStep(fs: FileSystem, ip: Inode, src: seq<byte>, off: nat, o: nat, m: nat, ghost e0: Fs,
                   ghost before: set<nat>, ghost ind0: nat, ghost data: set<nat>, ghost maps: set<nat>, ghost t: nat, ghost spent: nat,
                   ghost o': nat, ghost t': nat, ghost k: nat)
      returns (ok: bool, ghost data': set<nat>, ghost maps': set<nat>, ghost spent': nat)
    requires fs.Held(ip) && Live(e0, ip.inum) && NoHole(e0, ip.inum)
    requires Progress(e0, fs.Seen(ip), ip.inum, off, src, o) && o < MAXBYTES
    requires 0 < m && o + m <= off + |src| && o % BSIZE + m <= BSIZE && o' == o + m && t' == t + 1 && k == o / BSIZE
    requires Books(fs, ip, before, ind0, data, maps, t, spent)
    modifies fs`raw, fs`own, fs`logged, fs`trace, ip`addrs
    ensures !ok ==> fs.Ready() && Full(fs.F())
    ensures ok ==> fs.Held(ip) && fs.F().inodes == old(fs.F()).inodes
    ensures ok ==> Progress(e0, fs.Seen(ip), ip.inum, off, src, o')
    ensures ok && o < e0.inodes[ip.inum].size ==> ip.addrs == old(ip.addrs)
    ensures ok ==> Books(fs, ip, before, ind0, data', maps', t', spent')
    ensures ok ==> spent' == spent + if o % BSIZE != 0 || Ref(old(fs.Seen(ip)), ip.inum, o / BSIZE) != 0 then 0 else 1
    ensures ok <==> Needs(old(fs.Seen(ip)), ip.inum, k) <= FreeCount(old(fs.Seen(ip)))
    ensures ok ==> Took(old(fs.Seen(ip)), fs.Seen(ip), ip.inum, k)
  {
    data', maps', spent' := data, maps, spent;
    ghost var e := fs.Seen(ip);
    StillMapped(e0, e, ip.inum, o);
    ghost var mapped := Ref(e, ip.inum, o / BSIZE) != 0;
    var addr;
    ghost var added;
    ok, addr, added := WriteChunk(fs, ip, o, src[o - off..o - off + m]);
    if ok {
      Advance(e0, e, fs.Seen(ip), ip.inum, off, src, o, m, o');
      data', maps', spent' := data + {addr}, maps + added, spent + if mapped then 0 else 1;
    }
  }

  /** What writei's loop has achieved at position `o`, from the file system `e0` and the inode's
      addresses `addrs0` it started with. */
  ghost predicate Midway(fs: FileSystem, ip: Inode, e0: Fs, addrs0: seq<word>, before: set<nat>, off: nat, src: seq<byte>, o: nat,
                         data: set<nat>, maps: set<nat>, t: nat, spent: nat)
    requires |addrs0| == NDIRECT + 1
    reads fs, ip
  {
    && fs.Held(ip) && fs.F().inodes == e0.inodes && Progress(e0, fs.Seen(ip), ip.inum, off, src, o)
    && (o <= ip.size ==> ip.addrs == addrs0)
    && Step(off, |src|, o, t) && Books(fs, ip, before, addrs0[NDIRECT], data, maps, t, spent)
    && Spent(off, t, spent)
  }

  /** Blocks `a .. b` of file `i` have been mapped, at the cost of the blocks they needed. */
  ghost predicate Counted(f: Fs, e: Fs, i: nat, a: nat, b: nat) {
    && a <= b <= MAXFILE && MappedUpTo(f, e, i, a, b)
    && FreeCount(e) + RangeNeeds(f, i, a, b) == FreeCount(f)
  }

  /** Block `k` of file `i` is mapped, at the cost of the blocks it needed; nothing else is. */
  ghost predicate Took(e: Fs, e': Fs, i: nat, k: nat)
    requires k < MAXFILE
  {
    Live(e, i) && Live(e', i) && OnlyMaps(e, e', i, k) && Ref(e', i, k) != 0 && FreeCount(e') == FreeCount(e) - Needs(e, i, k)
  }

  lemma CountNext(f: Fs, e: Fs, e': Fs, i: nat, a: nat, b: nat, b': nat)
    requires Counted(f, e, i, a, b) && b < MAXFILE && Took(e, e', i, b) && b' == b + 1
    ensures Counted(f, e', i, a, b')
  {
    NeedsNow(f, e, i, a, b);
    MappedOne(f, e, e', i, a, b);
  }

  lemma CountFails(f: Fs, e: Fs, i: nat, a: nat, b: nat, end: nat)
    requires Counted(f, e, i, a, b) && b < end <= MAXFILE && FreeCount(e) < Needs(e, i, b)
    ensures FreeCount(f) < RangeNeeds(f, i, a, end)
  {
    NeedsNow(f, e, i, a, b);
    RangeGrows(f, i, a, b + 1, end);
  }

  /** A write that starts inside a block finds that block mapped. */
  predicate Spent(off: nat, t: nat, spent: nat) {
    spent <= t && (off % BSIZE != 0 && t > 0 ==> spent < t)
  }

  lemma SpentNext(off: nat, n: nat, o: nat, t: nat, spent: nat, spent': nat)
    requires Step(off, n, o, t) && Spent(off, t, spent) && spent' <= spent + (if o % BSIZE != 0 then 0 else 1)
    ensures Spent(off, t + 1, spent')
  {
  }

  /** One round of writei's loop. */
  method WriteRound(fs: FileSystem, ip: Inode, src: seq<byte>, off: nat, o: nat, ghost e0: Fs, ghost addrs0: seq<word>,
                    ghost before: set<nat>, ghost data: set<nat>, ghost maps: set<nat>, ghost t: nat, ghost spent: nat, ghost t': nat, ghost k: nat)
      returns (ok: bool, o': nat, ghost data': set<nat>, ghost maps': set<nat>, ghost spent': nat)
    requires |addrs0| == NDIRECT + 1 && off <= o < off + |src| <= MAXBYTES && t' == t + 1 && k == o / BSIZE
    requires Live(e0, ip.inum) && NoHole(e0, ip.inum) && e0.inodes[ip.inum].size == ip.size
    requires Midway(fs, ip, e0, addrs0, before, off, src, o, data, maps, t, spent)
    modifies fs`raw, fs`own, fs`logged, fs`trace, ip`addrs
    ensures !ok ==> fs.Ready() && Full(fs.F())
    ensures o < o' <= off + |src|
    ensures ok ==> Midway(fs, ip, e0, addrs0, before, off, src, o', data', maps', t', spent')
    ensures k < MAXFILE && (ok <==> Needs(old(fs.Seen(ip)), ip.inum, k) <= FreeCount(old(fs.Seen(ip))))
    ensures ok ==> Took(old(fs.Seen(ip)), fs.Seen(ip), ip.inum, k)
  {
    var m := if off + |src| - o < BSIZE - o % BSIZE then off + |src| - o else BSIZE - o % BSIZE;
    NextStep(off, |src|, o, t, m);
    o' := o + m;
    ok, data', maps', spent' := WriteStep(fs, ip, src, off, o, m, e0, before, addrs0[NDIRECT], data, maps, t, spent, o', t', k);
    if ok {
      SpentNext(off, |src|, o, t, spent, spent');
    }
  }

  /** The same round, with the free blocks counted: blocks `a .. b` of the file's blocks `a .. c` are
      mapped. */
  method CountedRound(fs: FileSystem, ip: Inode, src: seq<byte>, off: nat, o: nat, ghost e0: Fs, ghost addrs0: seq<word>,
                      ghost before: set<nat>, ghost data: set<nat>, ghost maps: set<nat>, ghost t: nat, ghost spent: nat,
                      ghost a: nat, ghost b: nat, ghost c: nat)
      returns (ok: bool, o': nat, ghost data': set<nat>, ghost maps': set<nat>, ghost t': nat, ghost spent': nat, ghost b': nat)
    requires |addrs0| == NDIRECT + 1 && off <= o < off + |src| <= MAXBYTES
    requires a == off / BSIZE && b == a + t && c == EndBlock(off, |src|) && c <= MAXFILE
    requires Live(e0, ip.inum) && NoHole(e0, ip.inum) && e0.inodes[ip.inum].size == ip.size
    requires Midway(fs, ip, e0, addrs0, before, off, src, o, data, maps, t, spent) && Counted(e0, fs.Seen(ip), ip.inum, a, b)
    modifies fs`raw, fs`own, fs`logged, fs`trace, ip`addrs
    ensures !ok ==> fs.Ready() && Full(fs.F()) && FreeCount(e0) < RangeNeeds(e0, ip.inum, a, c)
    ensures o < o' <= off + |src| && t' == t + 1 && b' == b + 1
    ensures ok ==> Midway(fs, ip, e0, addrs0, before, off, src, o', data', maps', t', spent') && Counted(e0, fs.Seen(ip), ip.inum, a, b')
  {
    StepEnds(off, |src|, o, t);
    ghost var e := fs.Seen(ip);
    t', b' := t + 1, b + 1;
    ok, o', data', maps', spent' := WriteRound(fs, ip, src, off, o, e0, addrs0, before, data, maps, t, spent, t', b);
    if ok {
      CountNext(e0, e, fs.Seen(ip), ip.inum, a, b, b');
    } else {
      CountFails(e0, e, ip.inum, a, b, c);
    }
  }

  method WriteRounds(fs: FileSystem, ip: Inode, src: seq<byte>, off: nat, end: nat, ghost e0: Fs, ghost addrs0: seq<word>, ghost before: set<nat>,
                     ghost a: nat, ghost c: nat)
      returns (ok: bool, ghost data: set<nat>, ghost maps: set<nat>, ghost t: nat, ghost spent: nat)
    requires |addrs0| == NDIRECT + 1 && end == off + |src| <= MAXBYTES && a == off / BSIZE && c == EndBlock(off, |src|) && c <= MAXFILE
    requires Live(e0, ip.inum) && NoHole(e0, ip.inum) && e0.inodes[ip.inum].size == ip.size
    requires Midway(fs, ip, e0, addrs0, before, off, src, off, {}, {}, 0, 0) && Counted(e0, fs.Seen(ip), ip.inum, a, a)
    modifies fs`raw, fs`own, fs`logged, fs`trace, ip`addrs
    ensures !ok ==> fs.Ready() && Full(fs.F()) && FreeCount(e0) < RangeNeeds(e0, ip.inum, a, c)
    ensures ok ==> Midway(fs, ip, e0, addrs0, before, off, src, end, data, maps, t, spent) && Counted(e0, fs.Seen(ip), ip.inum, a, c)
  {
    ok, data, maps, t, spent := true, {}, {}, 0, 0;
    var o := off;
    ghost var b := a;
    while o < end
      invariant ok && off <= o <= end && b == a + t
      invariant Midway(fs, ip, e0, addrs0, before, off, src, o, data, maps, t, spent)
      invariant Counted(e0, fs.Seen(ip), ip.inum, a, b)
    {
      ok, o, data, maps, t, spent, b := CountedRound(fs, ip, src, off, o, e0, addrs0, before, data, maps, t, spent, a, b, c);
      if !ok {
        return;
      }
    }
    StepEnds(off, |src|, o, t);
    assert o == end && b == c;
  }

  /** writei's loop. A partial first block is mapped already, so it costs no bitmap block. */
  method WriteLoop(fs: FileSystem, ip: Inode, src: seq<byte>, off: nat, end: nat, ghost a: nat, ghost c: nat)
      returns (ok: bool, ghost data: set<nat>, ghost maps: set<nat>)
    requires Steady(fs) && Synced(fs, ip) && off <= ip.size && end == off + |src| <= MAXBYTES
    requires a == off / BSIZE && c == EndBlock(off, |src|) && c <= MAXFILE
    modifies fs`raw, fs`own, fs`logged, fs`trace, ip`addrs
    ensures !ok ==> fs.Ready() && Full(fs.F()) && FreeCount(old(fs.F())) < RangeNeeds(old(fs.F()), ip.inum, a, c)
    ensures ok ==> fs.Held(ip) && fs.F().inodes == old(fs.F()).inodes
    ensures ok ==> Counted(old(fs.F()), fs.Seen(ip), ip.inum, a, c)
    ensures ok ==> Progress(old(fs.F()), fs.Seen(ip), ip.inum, off, src, end)
    ensures ok && end <= ip.size ==> ip.addrs == old(ip.addrs)
    ensures ok ==> fs.logged <= old(fs.logged) + data + maps + IndSet(ip.addrs[NDIRECT])
    ensures ok ==> |data| <= Touched(off, |src|) && |maps| <= Touched(off, |src|) + if off % BSIZE == 0 || src == [] then 1 else 0
    ensures ok ==> MapSet(fs.sb, maps)
  {
    StartProgress(fs, ip, src, off);
    ghost var t, spent;
    NothingMapped(fs.F(), ip.inum, a);
    ok, data, maps, t, spent := WriteRounds(fs, ip, src, off, end, fs.F(), ip.addrs, fs.logged, a, c);
  }

  lemma StartProgress(fs: FileSystem, ip: Inode, src: seq<byte>, off: nat)
    requires Steady(fs) && Synced(fs, ip) && off <= ip.size
    ensures fs.Held(ip) && fs.Seen(ip) == fs.F() && NoHole(fs.F(), ip.inum)
    ensures Progress(fs.F(), fs.F(), ip.inum, off, src, off)
  {
    SyncedIsHeld(fs, ip);
    assert NoHole(fs.F(), ip.inum);
    NoHoleMaps(fs.F(), ip.inum, off);
    WriteNothing(fs.F(), ip.inum, off);
  }

  predicate MapSet(sb: Super, maps: set<nat>) {
    forall m :: m in maps ==> sb.bmapstart <= m <= sb.bmapstart + sb.size / BPB
  }

  /** The block of byte `o` is mapped if it starts below the old end or before `o`. */
  lemma StillMapped(e0: Fs, e: Fs, i: nat, o: nat)
    requires Live(e0, i) && Live(e, i) && RefsGrow(e0, e) && NoHole(e0, i) && Mapped(e, i, o) && o < MAXBYTES
    ensures o < e0.inodes[i].size || o % BSIZE != 0 ==> Ref(e, i, o / BSIZE) != 0
  {
    assert MappedAt(e, i, o, o / BSIZE);
    assert KeepsRef(e0, e, i, o / BSIZE);
  }

  lemma WriteNothing(f: Fs, i: nat, off: nat)
    ensures FsBytes.Written(f, f, i, off, []) && RefsGrow(f, f)
  {
    forall j: nat, x: nat ensures AnyByte(f, j, x) == NewByte(f, i, off, [], j, x) {}
  }

  /** A grown inode that reaches to the end of the write leaves no hole in any file. */
  lemma GrownNoHoles(g: Geometry, e0: Fs, e: Fs, i: nat, end: nat, e': Fs)
    requires g.Fits(e0) && g.Fits(e) && NoHoles(e0) && Live(e0, i) && RefsGrow(e0, e) && Mapped(e, i, end) && end <= MAXBYTES
    requires forall j: nat :: j < g.ninodes && j != i ==> e.inodes[j] == e0.inodes[j]
    requires e.inodes[i].size == e0.inodes[i].size
    requires e' == SetInode(e, i, e.inodes[i].(size := if end > e0.inodes[i].size then end else e0.inodes[i].size))
    ensures NoHoles(e')
  {
    forall j: nat | j < |e'.inodes| ensures NoHole(e', j) {
      assert NoHole(e0, j);
      forall k: nat | Live(e', j) && k < MAXFILE && k * BSIZE < e'.inodes[j].size ensures Ref(e', j, k) != 0 {
        assert KeepsRef(e0, e, j, k);
        assert j == i ==> MappedAt(e, i, end, k);
        assert Ref(e', j, k) == Ref(e, j, k);
      }
    }
  }

  /** Changing only the size of inode `i` changes no reference, so the bitmap stays exact. */
  lemma ResizeKeeps(g: Geometry, e: Fs, own: Owner, i: nat, size: word)
    requires Sound(g, e, own) && i < g.ninodes
    ensures Sound(g, SetInode(e, i, e.inodes[i].(size := size)), own)
  {
    var e' := SetInode(e, i, e.inodes[i].(size := size));
    forall j: nat, k: nat | j < g.ninodes && k < SLOTS ensures SlotOk(g, e', own, j, k) { assert SlotOk(g, e, own, j, k); }
    forall b: nat | b < g.size ensures BlockOk(g, e', own, b) {
      assert BlockOk(g, e, own, b);
      if b in own { assert SlotOk(g, e', own, own[b].0, own[b].1); }
    }
  }

  lemma ResizeWritten(e0: Fs, e: Fs, i: nat, off: nat, data: seq<byte>, size: word)
    requires FsBytes.Written(e0, e, i, off, data) && i < |e.inodes|
    ensures FsBytes.Written(e0, SetInode(e, i, e.inodes[i].(size := size)), i, off, data)
  {
    var e' := SetInode(e, i, e.inodes[i].(size := size));
    forall j: nat, x: nat ensures AnyByte(e', j, x) == NewByte(e0, i, off, data, j, x) {
      assert AnyByte(e, j, x) == NewByte(e0, i, off, data, j, x);
    }
  }

  /** A new size changes neither references nor the bitmap. */
  lemma CountResized(f: Fs, e: Fs, e': Fs, i: nat, a: nat, b: nat)
    requires Counted(f, e, i, a, b) && i < |e'.inodes| && e' == SetInode(e, i, e.inodes[i].(size := e'.inodes[i].size))
    ensures Counted(f, e', i, a, b)
  {
    forall k: nat | b <= k ensures SameHole(f, e', i, k) {
      assert SameHole(f, e, i, k);
    }
  }

  lemma FinishWrite(g: Geometry, e0: Fs, e: Fs, own: Owner, i: nat, off: nat, src: seq<byte>, end: nat, size: word)
    requires g.Fits(e0) && Sound(g, e, own) && NoHoles(e0) && Live(e0, i) && end == off + |src| <= MAXBYTES
    requires Progress(e0, e, i, off, src, end)
    requires forall j: nat :: j < g.ninodes && j != i ==> e.inodes[j] == e0.inodes[j]
    requires e.inodes[i].size == e0.inodes[i].size
    requires size == if end > e.inodes[i].size then end else e.inodes[i].size
    ensures var e' := SetInode(e, i, e.inodes[i].(size := size));
            Sound(g, e', own) && NoHoles(e') && FsBytes.Written(e0, e', i, off, src)
  {
    assert src[..|src|] == src;
    GrownNoHoles(g, e0, e, i, end, SetInode(e, i, e.inodes[i].(size := size)));
    ResizeKeeps(g, e, own, i, size);
    ResizeWritten(e0, e, i, off, src, size);
  }

  /** writei's last step: store the new size, with the addresses, if the file has grown. */
  method EndWrite(fs: FileSystem, ip: Inode, src: seq<byte>, off: word, end: word, ghost e0: Fs)
    requires fs.Held(ip) && ip.kind != T_DEV && fs.F().inodes == e0.inodes && end == off + |src| <= MAXBYTES && off <= ip.size
    requires fs.sb.Geo().Fits(e0) && NoHoles(e0) && Live(e0, ip.inum) && e0.inodes[ip.inum].size == ip.size
    requires Progress(e0, fs.Seen(ip), ip.inum, off, src, end)
    requires end <= ip.size ==> fs.F().inodes[ip.inum] == ip.Copy()
    modifies fs`raw, fs`logged, fs`trace, ip`size
    ensures Steady(fs) && Synced(fs, ip) && FsBytes.Written(e0, fs.F(), ip.inum, off, src)
    ensures ip.size == if end > old(ip.size) then end else old(ip.size)
    ensures forall j: nat :: j < fs.sb.ninodes && j != ip.inum ==> fs.F().inodes[j] == e0.inodes[j]
    ensures old(fs.logged) <= fs.logged <= old(fs.logged) + {fs.sb.IBlock(ip.inum)}
    ensures fs.F() == SetInode(old(fs.Seen(ip)), ip.inum, old(ip.Copy()).(size := ip.size))
  {
    ghost var e := fs.Seen(ip);
    ghost var size := if end > ip.size then end else ip.size;
    FinishWrite(fs.sb.Geo(), e0, e, fs.own, ip.inum, off, src, end, size);
    GrowInode(fs, ip, end);
  }

  /** A larger size, and with it the addresses, reach the disk; otherwise both are there already. */
  method GrowInode(fs: FileSystem, ip: Inode, end: word)
    requires fs.Ready() && ip.inum < fs.sb.ninodes && (end <= ip.size ==> fs.F().inodes[ip.inum] == ip.Copy())
    modifies fs`raw, fs`logged, fs`trace, ip`size
    ensures fs.Ready() && ip.size == if end > old(ip.size) then end else old(ip.size)
    ensures fs.F() == SetInode(old(fs.Seen(ip)), ip.inum, ip.Copy()) && fs.F().inodes[ip.inum] == ip.Copy()
    ensures old(fs.logged) <= fs.logged <= old(fs.logged) + {fs.sb.IBlock(ip.inum)}
  {
    ghost var f := fs.F();
    if end > ip.size {
      ip.size := end;
      fs.Iupdate(ip);
      assert f.inodes[ip.inum := old(ip.Copy())][ip.inum := ip.Copy()] == f.inodes[ip.inum := ip.Copy()];
    } else {
      SameInode(f, ip.inum, ip.Copy());
    }
  }

  lemma SameInode(f: Fs, i: nat, d: Dinode)
    requires i < |f.inodes| && f.inodes[i] == d
    ensures SetInode(f, i, d) == f
  {
    assert f.inodes[i := d] == f.inodes;
  }

  /** writei past its tests. */
  method WriteAccepted(fs: FileSystem, ip: Inode, src: seq<byte>, off: word, end: word, ghost a: nat, ghost c: nat)
      returns (ok: bool, ghost data: set<nat>, ghost maps: set<nat>)
    requires Steady(fs) && Synced(fs, ip) && off <= ip.size && end == off + |src| <= MAXBYTES
    requires a == off / BSIZE && c == EndBlock(off, |src|) && c <= MAXFILE
    modifies fs`raw, fs`own, fs`logged, fs`trace, ip`addrs, ip`size
    ensures ok <==> RangeNeeds(old(fs.F()), ip.inum, a, c) <= FreeCount(old(fs.F()))
    ensures !ok ==> fs.Ready() && Full(fs.F())
    ensures ok ==> Steady(fs) && Synced(fs, ip) && Counted(old(fs.F()), fs.F(), ip.inum, a, c)
    ensures ok ==> ip.size == if end > old(ip.size) then end else old(ip.size)
    ensures ok ==> FsBytes.Written(old(fs.F()), fs.F(), ip.inum, off, src)
    ensures ok ==> forall j: nat :: j < fs.sb.ninodes && j != ip.inum ==> fs.F().inodes[j] == old(fs.F()).inodes[j]
    ensures ok ==> fs.logged <= old(fs.logged) + data + maps + IndSet(ip.addrs[NDIRECT]) + {fs.sb.IBlock(ip.inum)}
    ensures ok ==> |data| <= Touched(off, |src|) && |maps| <= Touched(off, |src|) + if off % BSIZE == 0 || src == [] then 1 else 0
    ensures ok ==> MapSet(fs.sb, maps)
  {
    ghost var e0 := fs.F();
    ok, data, maps := WriteLoop(fs, ip, src, off, end, a, c);
    if ok {
      ghost var e := fs.Seen(ip);
      EndWrite(fs, ip, src, off, end, e0);
      CountResized(e0, e, fs.F(), ip.inum, a, c);
    }
  }

  /** writei replaces exactly the bytes `off .. off+n` of the file, growing it if needed, leaves
      every other file alone, keeps the bitmap exact and the files without holes, and leaves the
      cached inode in agreement with the disk even when it does not call iupdate. `data` and
      `maps` bound the distinct blocks it logs. */
  method Writei(fs: FileSystem, ip: Inode, src: seq<byte>, off: word, n: word)
      returns (r: WriteResult, ghost data: set<nat>, ghost maps: set<nat>)
    requires Steady(fs) && Synced(fs, ip) && |src| == n
    modifies fs`raw, fs`own, fs`logged, fs`trace, ip`addrs, ip`size
    ensures r.Rejected? <==> off > old(ip.size) || off + n > MAXBYTES
    ensures r.Rejected? ==> fs.raw == old(fs.raw) && fs.own == old(fs.own) && fs.logged == old(fs.logged) && fs.trace == old(fs.trace) && ip.addrs == old(ip.addrs) && ip.size == old(ip.size)
    ensures r.Panicked? <==> !r.Rejected? && FreeCount(old(fs.F())) < WriteNeeds(old(fs.F()), ip.inum, off, n)
    ensures r.Panicked? ==> fs.Ready() && Full(fs.F())
    ensures r.Written? ==> r.n == n && Steady(fs) && Synced(fs, ip)
    ensures r.Written? ==> Counted(old(fs.F()), fs.F(), ip.inum, off / BSIZE, EndBlock(off, n))
    ensures r.Written? ==> ip.size == if off + n > old(ip.size) then off + n else old(ip.size)
    ensures r.Written? ==> FsBytes.Written(old(fs.F()), fs.F(), ip.inum, off, src)
    ensures r.Written? ==> forall j: nat :: j < fs.sb.ninodes && j != ip.inum ==> fs.F().inodes[j] == old(fs.F()).inodes[j]
    ensures r.Written? ==> fs.logged <= old(fs.logged) + data + maps + IndSet(ip.addrs[NDIRECT]) + {fs.sb.IBlock(ip.inum)}
    ensures r.Written? ==> |data| <= Touched(off, n) && |maps| <= Touched(off, n) + if off % BSIZE == 0 || n == 0 then 1 else 0
    ensures r.Written? ==> MapSet(fs.sb, maps)
  {
    data, maps := {}, {};
    Wraps(off, n);
    SizeBound(fs, ip);
    if off > ip.size || (off + n) % 0x1_0000_0000 < off {
      return WriteResult.Rejected, {}, {};
    }
    if (off + n) % 0x1_0000_0000 > MAXFILE * BSIZE {
      return WriteResult.Rejected, {}, {};
    }
    StepEnds(off, n, off, 0);
    var ok;
    ok, data, maps := WriteAccepted(fs, ip, src, off, off + n, off / BSIZE, EndBlock(off, n));
    r := if ok then WriteResult.Written(n) else Panicked;
  }
}
