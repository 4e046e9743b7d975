/** bio.c over memide.c's disk: the buffer cache. */
module Bio {
  import opened Blocks
  import opened BufferRing
  import opened Options
  import LogDisk
  import Log

  const ROOTDEV: nat := 1

  /** struct buf, its links apart. */
  datatype Buf = Buf(dev: nat, blockno: nat, refcnt: nat, valid: bool, dirty: bool, locked: bool, data: Block)

  predicate Caches(b: Buf, dev: nat, blockno: nat) {
    b.dev == dev && b.blockno == blockno
  }

  /** What bget may recycle. */
  predicate Idle(b: Buf) {
    b.refcnt == 0 && !b.dirty
  }

  /** At most one buffer per block, unused slots apart. */
  predicate OnePerBlock(bs: seq<Buf>, i: nat, j: nat)
    requires i < |bs| && j < |bs|
  {
    i != j && bs[i].dev != 0 ==> !Caches(bs[j], bs[i].dev, bs[i].blockno)
  }

  /** A locked buffer is referenced; a pinned buffer holds a block of the disk. */
  predicate BufOk(bs: seq<Buf>, i: nat)
    requires i < |bs|
  {
    (bs[i].locked ==> bs[i].refcnt > 0) && (bs[i].dirty ==> bs[i].valid && bs[i].dev == ROOTDEV)
  }

  predicate BufsOk(bs: seq<Buf>) {
    && (forall i :: 0 <= i < |bs| ==> BufOk(bs, i))
    && (forall i, j :: 0 <= i < |bs| && 0 <= j < |bs| ==> OnePerBlock(bs, i, j))
  }

  /** Buffers nearer the front of the list were released later. */
  predicate Later(order: seq<nat>, stamp: seq<nat>, i: nat, j: nat)
    requires i < |order| && j < |order| && order[i] < |stamp| && order[j] < |stamp|
  {
    i < j ==> stamp[order[i]] > stamp[order[j]]
  }

  predicate StampOk(order: seq<nat>, stamp: seq<nat>, clock: nat, i: nat)
    requires i < |order|
  {
    order[i] < |stamp| && stamp[order[i]] < clock
  }

  predicate Stamped(order: seq<nat>, stamp: seq<nat>, clock: nat) {
    && (forall i :: 0 <= i < |order| ==> StampOk(order, stamp, clock, i))
    && (forall i, j :: 0 <= i < |order| && 0 <= j < |order| && StampOk(order, stamp, clock, i) && StampOk(order, stamp, clock, j) ==> Later(order, stamp, i, j))
  }

  lemma StampedFront(order: seq<nat>, stamp: seq<nat>, clock: nat, b: nat)
    requires Stamped(order, stamp, clock) && b < |stamp| && b !in order
    ensures Stamped([b] + order, stamp[b := clock], clock + 1)
  {
    var o, s, c := [b] + order, stamp[b := clock], clock + 1;
    forall i | 0 <= i < |o| ensures StampOk(o, s, c, i) {
      assert i > 0 ==> StampOk(order, stamp, clock, i - 1);
    }
    forall i, j | 0 <= i < |o| && 0 <= j < |o| && StampOk(o, s, c, i) && StampOk(o, s, c, j) ensures Later(o, s, i, j) {
      assert i > 0 ==> StampOk(order, stamp, clock, i - 1);
      assert j > 0 ==> StampOk(order, stamp, clock, j - 1);
      assert i > 0 && j > 0 ==> Later(order, stamp, i - 1, j - 1);
    }
  }

  lemma StampedOut(order: seq<nat>, stamp: seq<nat>, clock: nat, p: nat)
    requires Stamped(order, stamp, clock) && p < |order|
    ensures Stamped(Without(order, p), stamp, clock)
  {
    var o := Without(order, p);
    forall i | 0 <= i < |o| ensures StampOk(o, stamp, clock, i) {
      assert StampOk(order, stamp, clock, if i < p then i else i + 1);
    }
    forall i, j | 0 <= i < |o| && 0 <= j < |o| && StampOk(o, stamp, clock, i) && StampOk(o, stamp, clock, j) ensures Later(o, stamp, i, j) {
      var x, y := if i < p then i else i + 1, if j < p then j else j + 1;
      assert StampOk(order, stamp, clock, x) && StampOk(order, stamp, clock, y) && Later(order, stamp, x, y);
    }
  }

  // ---- What the cache stands for ----------------------------------------------------------------

  /** Buffer `i` pins block `blockno`. */
  predicate Pins(bs: seq<Buf>, blockno: nat, i: nat) {
    i < |bs| && Caches(bs[i], ROOTDEV, blockno) && bs[i].dirty
  }

  /** The blocks pinned by the first `n` buffers, with their data. */
  function PinsBelow(bs: seq<Buf>, n: nat): map<nat, Block>
    requires n <= |bs|
  {
    if n == 0 then map[]
    else if bs[n - 1].dirty && bs[n - 1].dev == ROOTDEV then PinsBelow(bs, n - 1)[bs[n - 1].blockno := bs[n - 1].data]
    else PinsBelow(bs, n - 1)
  }

  /** The pinned blocks, as log.c thinks of them. */
  function PinMap(bs: seq<Buf>): map<nat, Block> {
    PinsBelow(bs, |bs|)
  }

  lemma {:induction false} PinsBelowAt(bs: seq<Buf>, n: nat, b: nat)
    requires n <= |bs| && BufsOk(bs)
    ensures b in PinsBelow(bs, n) <==> exists i: nat :: i < n && Pins(bs, b, i)
    ensures forall i: nat :: i < n && Pins(bs, b, i) ==> PinsBelow(bs, n)[b] == bs[i].data
  {
    if n > 0 {
      PinsBelowAt(bs, n - 1, b);
      if Pins(bs, b, n - 1) {
        forall i: nat | i < n && Pins(bs, b, i) ensures i == n - 1 {
          assert OnePerBlock(bs, i, n - 1);
        }
      }
    }
  }

  /** A block is pinned exactly if some buffer pins it, and then with that buffer's data. */
  lemma PinMapAt(bs: seq<Buf>, b: nat)
    requires BufsOk(bs)
    ensures b in PinMap(bs) <==> exists i: nat :: Pins(bs, b, i)
    ensures forall i: nat :: Pins(bs, b, i) ==> PinMap(bs)[b] == bs[i].data
  {
    PinsBelowAt(bs, |bs|, b);
    assert forall i: nat :: Pins(bs, b, i) ==> i < |bs| && Pins(bs, b, i);
  }

  /** The only buffer of a block decides whether it is pinned. */
  lemma PinMapOf(bs: seq<Buf>, i: nat)
    requires BufsOk(bs) && i < |bs| && bs[i].dev == ROOTDEV
    ensures bs[i].blockno in PinMap(bs) <==> bs[i].dirty
    ensures bs[i].dirty ==> PinMap(bs)[bs[i].blockno] == bs[i].data
  {
    PinMapAt(bs, bs[i].blockno);
    forall j: nat | Pins(bs, bs[i].blockno, j) ensures j == i {
      assert OnePerBlock(bs, i, j);
    }
    assert bs[i].dirty ==> Pins(bs, bs[i].blockno, i);
  }

  /** What readers see of the block in buffer `i`. */
  lemma ViewOf(disk: seq<Block>, bs: seq<Buf>, i: nat)
    requires BufsOk(bs) && i < |bs| && bs[i].dev == ROOTDEV && bs[i].blockno < |disk|
    ensures Log.View(disk, PinMap(bs))[bs[i].blockno] == if bs[i].dirty then bs[i].data else disk[bs[i].blockno]
  {
    PinMapOf(bs, i);
  }

  /** A buffer nobody has locked agrees with the disk, or is pinned. */
  predicate Agrees(disk: seq<Block>, bs: seq<Buf>, i: nat)
    requires i < |bs|
  {
    !bs[i].locked && bs[i].valid && !bs[i].dirty && bs[i].dev == ROOTDEV ==>
      bs[i].blockno < |disk| && bs[i].data == disk[bs[i].blockno]
  }

  predicate Coherent(disk: seq<Block>, bs: seq<Buf>) {
    forall i :: 0 <= i < |bs| ==> Agrees(disk, bs, i)
  }

  /** The same blocks are pinned with the same data. */
  predicate SamePin(bs: seq<Buf>, cs: seq<Buf>, i: nat)
    requires i < |bs| && i < |cs|
  {
    (bs[i].dirty || cs[i].dirty) ==> cs[i].dirty == bs[i].dirty && Caches(cs[i], bs[i].dev, bs[i].blockno) && cs[i].data == bs[i].data
  }

  lemma SamePinsAt(bs: seq<Buf>, cs: seq<Buf>, i: nat, b: nat)
    requires BufsOk(bs) && BufsOk(cs) && i < |bs| && |cs| == |bs| && cs == bs[i := cs[i]]
    requires SamePin(bs, cs, i) || (bs[i].blockno == cs[i].blockno != b)
    ensures b in PinMap(cs) <==> b in PinMap(bs)
    ensures b in PinMap(cs) ==> PinMap(cs)[b] == PinMap(bs)[b]
  {
    PinMapAt(bs, b);
    PinMapAt(cs, b);
    assert forall j: nat :: Pins(bs, b, j) <==> Pins(cs, b, j);
    if j: nat :| Pins(bs, b, j) {
      assert Pins(cs, b, j);
    }
  }

  /** A change to a buffer that is pinned neither before nor after, or keeps block and data, is not
      seen by anyone. */
  lemma SamePins(bs: seq<Buf>, cs: seq<Buf>, i: nat)
    requires BufsOk(bs) && BufsOk(cs) && i < |bs| && |cs| == |bs| && cs == bs[i := cs[i]] && SamePin(bs, cs, i)
    ensures PinMap(cs) == PinMap(bs)
  {
    forall b: nat ensures (b in PinMap(cs) <==> b in PinMap(bs)) && (b in PinMap(cs) ==> PinMap(cs)[b] == PinMap(bs)[b]) {
      SamePinsAt(bs, cs, i, b);
    }
  }

  /** Setting or clearing the pin of buffer `i` changes the pin of its block and no other. */
  lemma OnePin(bs: seq<Buf>, cs: seq<Buf>, i: nat)
    requires BufsOk(bs) && BufsOk(cs) && i < |bs| && |cs| == |bs| && cs == bs[i := cs[i]] && bs[i].dev == ROOTDEV
    requires Caches(cs[i], bs[i].dev, bs[i].blockno)
    ensures PinMap(cs) == if cs[i].dirty then PinMap(bs)[bs[i].blockno := cs[i].data] else PinMap(bs) - {bs[i].blockno}
  {
    PinMapOf(cs, i);
    var want := if cs[i].dirty then PinMap(bs)[bs[i].blockno := cs[i].data] else PinMap(bs) - {bs[i].blockno};
    forall b: nat ensures (b in PinMap(cs) <==> b in want) && (b in PinMap(cs) ==> PinMap(cs)[b] == want[b]) {
      if b != bs[i].blockno {
        SamePinsAt(bs, cs, i, b);
      }
    }
  }

  class BCache {
    const bufs: array<Buf>
    const nx: array<nat>
    const pv: array<nat>
    var disk: seq<Block>
    ghost var order: seq<nat>   // from head.next to head.prev
    ghost var stamp: seq<nat>   // when each buffer was last moved to the front
    ghost var clock: nat

    ghost predicate Valid()
      reads this, bufs, nx, pv
    {
      && nx != pv && nx.Length == pv.Length == bufs.Length + 1 && |stamp| == bufs.Length == |order|
      && Linked(nx[..], pv[..], order, bufs.Length) && BufsOk(bufs[..]) && Stamped(order, stamp, clock)
    }

    /** binit */
    constructor (n: nat, disk: seq<Block>)
      ensures Valid() && bufs.Length == n && this.disk == disk && fresh(bufs) && fresh(nx) && fresh(pv)
      ensures forall i :: 0 <= i < n ==> bufs[i] == Buf(0, 0, 0, false, false, false, Zeros())
    {
      bufs := new Buf[n](_ => Buf(0, 0, 0, false, false, false, Zeros()));
      nx := new nat[n + 1](_ => n);
      pv := new nat[n + 1](_ => n);
      this.disk := disk;
      order, stamp, clock := [], seq(n, _ => 0), 0;
      new;
      var b := 0;
      while b < n
        invariant 0 <= b <= n && this.disk == disk && |order| == b && |stamp| == n && nx.Length == pv.Length == n + 1
        invariant Linked(nx[..], pv[..], order, n) && Stamped(order, stamp, clock)
        invariant forall x :: x in order ==> x < b
        invariant forall i :: 0 <= i < n ==> bufs[i] == Buf(0, 0, 0, false, false, false, Zeros())
      {
        PushFront(b);
        b := b + 1;
      }
    }

    /** Link buffer `b` in behind the head. */
    method PushFront(b: nat)
      requires nx != pv && nx.Length == pv.Length == bufs.Length + 1 && |stamp| == bufs.Length && b < bufs.Length && b !in order
      requires Linked(nx[..], pv[..], order, bufs.Length) && Stamped(order, stamp, clock)
      modifies nx, pv, this`order, this`stamp, this`clock
      ensures Linked(nx[..], pv[..], order, bufs.Length) && Stamped(order, stamp, clock)
      ensures order == [b] + old(order) && stamp == old(stamp)[b := old(clock)] && clock == old(clock) + 1
    {
      var head := bufs.Length;
      FrontLinked(nx[..], pv[..], order, head, b);
      StampedFront(order, stamp, clock, b);
      nx[b] := nx[head];
      pv[b] := head;
      pv[nx[head]] := b;
      nx[head] := b;
      assert nx[..] == FrontNext(old(nx[..]), head, b) && pv[..] == FrontPrev(old(nx[..]), old(pv[..]), head, b);
      order, stamp, clock := [b] + order, stamp[b := clock], clock + 1;
    }

    /** bget's first loop: the buffer that caches the block, if any. */
    method Lookup(dev: nat, blockno: nat) returns (r: Option<nat>)
      requires Valid()
      ensures r.Some? ==> r.value < bufs.Length && Caches(bufs[r.value], dev, blockno)
      ensures r == None ==> forall i :: 0 <= i < bufs.Length ==> !Caches(bufs[i], dev, blockno)
    {
      var b := nx[bufs.Length];
      ghost var p := 1;
      assert LinkOk(nx[..], pv[..], order, bufs.Length, 0);
      while b != bufs.Length
        invariant 1 <= p <= |order| + 1 && b == At(order, bufs.Length, p)
        invariant forall k :: 0 <= k < p - 1 ==> order[k] < bufs.Length && !Caches(bufs[order[k]], dev, blockno)
        decreases |order| - p
      {
        assert Below(order, bufs.Length, p - 1);
        if Caches(bufs[b], dev, blockno) {
          return Some(b);
        }
        assert LinkOk(nx[..], pv[..], order, bufs.Length, p);
        b := nx[b];
        p := p + 1;
      }
      forall i | 0 <= i < bufs.Length ensures !Caches(bufs[i], dev, blockno) {
        var k := Place(order, bufs.Length, nx[..], pv[..], i);
        EndOfList(order, bufs.Length, nx[..], pv[..], p);
        assert !Caches(bufs[order[k]], dev, blockno);
      }
      return None;
    }

    /** bget's second loop: the idle buffer nearest the tail. */
    method Victim() returns (r: Option<nat>)
      requires Valid()
      ensures r.Some? ==>
                && r.value < bufs.Length && Idle(bufs[r.value])
                && forall i :: 0 <= i < bufs.Length && Idle(bufs[i]) ==> stamp[r.value] <= stamp[i]
      ensures r == None ==> forall i :: 0 <= i < bufs.Length ==> !Idle(bufs[i])
    {
      var b := pv[bufs.Length];
      ghost var p := |order|;
      assert LinkOk(nx[..], pv[..], order, bufs.Length, |order|);
      while b != bufs.Length
        invariant 0 <= p <= |order| && b == At(order, bufs.Length, p)
        invariant forall k :: p <= k < |order| ==> order[k] < bufs.Length && !Idle(bufs[order[k]])
        decreases p
      {
        assert Below(order, bufs.Length, p - 1);
        if Idle(bufs[b]) {
          forall i | 0 <= i < bufs.Length && Idle(bufs[i]) ensures stamp[b] <= stamp[i] {
            var k := Place(order, bufs.Length, nx[..], pv[..], i);
            assert StampOk(order, stamp, clock, k) && StampOk(order, stamp, clock, p - 1);
            assert Later(order, stamp, k, p - 1);
          }
          return Some(b);
        }
        assert LinkOk(nx[..], pv[..], order, bufs.Length, p - 1);
        b := pv[b];
        p := p - 1;
      }
      forall i | 0 <= i < bufs.Length ensures !Idle(bufs[i]) {
        var k := Place(order, bufs.Length, nx[..], pv[..], i);
        EndOfList(order, bufs.Length, nx[..], pv[..], p);
        assert !Idle(bufs[order[k]]);
      }
      return None;
    }

    /** bget under bcache.lock: a reference to the buffer for a block; None is the "no buffers" panic.
        Only a buffer that is neither referenced nor pinned is given away, the one released longest
        ago. */
    method Reserve(dev: nat, blockno: nat) returns (r: Option<nat>)
      requires Valid()
      modifies bufs
      ensures Valid() && PinMap(bufs[..]) == old(PinMap(bufs[..]))
      ensures r == None <==> old((forall i :: 0 <= i < bufs.Length ==> !Caches(bufs[i], dev, blockno) && !Idle(bufs[i])))
      ensures r == None ==> bufs[..] == old(bufs[..])
      ensures r.Some? ==> r.value < bufs.Length && bufs[..] == old(bufs[..])[r.value := bufs[r.value]]
      ensures r.Some? ==> GivenFor(old(bufs[..]), stamp, dev, blockno, r.value, bufs[r.value])
      ensures old(Coherent(disk, bufs[..])) ==> Coherent(disk, bufs[..])
    {
      ghost var before := bufs[..];
      r := Lookup(dev, blockno);
      if r.Some? {
        assert BufOk(before, r.value);
        bufs[r.value] := bufs[r.value].(refcnt := bufs[r.value].refcnt + 1);
        BumpOk(before, r.value, bufs[r.value]);
        SamePins(before, bufs[..], r.value);
        StillCoherent(disk, before, bufs[..], r.value);
        return;
      }
      r := Victim();
      if r.Some? {
        var b := bufs[r.value];
        assert BufOk(before, r.value);
        bufs[r.value] := b.(dev := dev, blockno := blockno, valid := false, dirty := false, refcnt := 1);
        RecycleOk(before, r.value, bufs[r.value], dev, blockno);
        SamePins(before, bufs[..], r.value);
        StillCoherent(disk, before, bufs[..], r.value);
      }
    }

    /** Someone holds a reference to buffer `i`. */
    ghost predicate Held(i: nat)
      reads this, bufs, nx, pv
    {
      Valid() && i < bufs.Length && bufs[i].refcnt > 0
    }

    /** acquiresleep: take the buffer's lock if it is free, or wait. */
    method Lock(i: nat) returns (got: bool)
      requires Held(i)
      modifies bufs
      ensures Held(i) && PinMap(bufs[..]) == old(PinMap(bufs[..]))
      ensures got == !old(bufs[i].locked) && bufs[..] == old(bufs[..])[i := old(bufs[i]).(locked := true)]
      ensures old(Coherent(disk, bufs[..])) ==> Coherent(disk, bufs[..])
    {
      ghost var before := bufs[..];
      assert BufOk(before, i);
      got := !bufs[i].locked;
      if got {
        bufs[i] := bufs[i].(locked := true);
      }
      BumpOk(before, i, bufs[i]);
      SamePins(before, bufs[..], i);
      StillCoherent(disk, before, bufs[..], i);
      assert bufs[..] == before[i := before[i].(locked := true)];
    }

    /** bget: the locked buffer for a block; or a reference and a wait, when someone else has it locked;
        or the "no buffers" panic, exactly when the block is not cached and no buffer is idle. */
    method Bget(dev: nat, blockno: nat) returns (r: Got)
      requires Valid()
      modifies bufs
      ensures Valid() && PinMap(bufs[..]) == old(PinMap(bufs[..]))
      ensures r == NoBuffers <==> old((forall i :: 0 <= i < bufs.Length ==> !Caches(bufs[i], dev, blockno) && !Idle(bufs[i])))
      ensures r == NoBuffers ==> bufs[..] == old(bufs[..])
      ensures r != NoBuffers ==>
                && r.i < bufs.Length && Held(r.i) && bufs[r.i].locked && bufs[..] == old(bufs[..])[r.i := bufs[r.i]]
                && r.Waits? == old(bufs[..])[r.i].locked
                && GivenFor(old(bufs[..]), stamp, dev, blockno, r.i, bufs[r.i].(locked := old(bufs[..])[r.i].locked))
      ensures old(Coherent(disk, bufs[..])) ==> Coherent(disk, bufs[..])
    {
      var b := Reserve(dev, blockno);
      if b == None {
        return NoBuffers;
      }
      var got := Lock(b.value);
      r := if got then Locked(b.value) else Waits(b.value);
    }

    /** iderw: write a dirty buffer out, or read an invalid one in. */
    method Iderw(i: nat)
      requires Held(i) && bufs[i].locked && (bufs[i].dirty || !bufs[i].valid)
      requires bufs[i].dev == ROOTDEV && bufs[i].blockno < |disk|
      modifies bufs, this`disk
      ensures Held(i)
      ensures var b := old(bufs[i]);
              if b.dirty then disk == old(disk)[b.blockno := b.data] && bufs[..] == old(bufs[..])[i := b.(dirty := false, valid := true)]
              else disk == old(disk) && bufs[..] == old(bufs[..])[i := b.(valid := true, data := disk[b.blockno])]
    {
      ghost var before := bufs[..];
      assert BufOk(before, i);
      var b := bufs[i];
      if b.dirty {
        disk := disk[b.blockno := b.data];
        bufs[i] := b.(dirty := false, valid := true);
      } else {
        bufs[i] := b.(data := disk[b.blockno], valid := true);
      }
      BumpOk(before, i, bufs[i]);
    }

    /** bread's work once it holds the buffer's lock: the contents are what the log's view of the disk
        shows. */
    method Load(i: nat)
      requires Held(i) && bufs[i].locked && bufs[i].dev == ROOTDEV && bufs[i].blockno < |disk|
      requires bufs[i].valid && !bufs[i].dirty ==> bufs[i].data == disk[bufs[i].blockno]
      modifies bufs, this`disk
      ensures Held(i) && disk == old(disk) && PinMap(bufs[..]) == old(PinMap(bufs[..])) && bufs[i].valid
      ensures bufs[..] == old(bufs[..])[i := old(bufs[i]).(valid := true, data := bufs[i].data)]
      ensures bufs[i].data == Log.View(disk, PinMap(bufs[..]))[bufs[i].blockno]
    {
      ghost var before := bufs[..];
      assert BufOk(before, i);
      if !bufs[i].valid {
        Iderw(i);
      }
      SamePins(before, bufs[..], i);
      ViewOf(disk, bufs[..], i);
    }

    /** bread: the locked buffer holds the block as the log's view of the disk shows it, unless it has
        to wait for the lock or there is no buffer; disk and pins do not change. */
    method Bread(blockno: nat) returns (r: Got)
      requires Valid() && Coherent(disk, bufs[..]) && blockno < |disk|
      modifies bufs, this`disk
      ensures Valid() && Coherent(disk, bufs[..]) && disk == old(disk) && PinMap(bufs[..]) == old(PinMap(bufs[..]))
      ensures r == NoBuffers <==> old((forall i :: 0 <= i < bufs.Length ==> !Caches(bufs[i], ROOTDEV, blockno) && !Idle(bufs[i])))
      ensures r.Waits? <==> old((exists i :: 0 <= i < bufs.Length && Caches(bufs[i], ROOTDEV, blockno) && bufs[i].locked))
      ensures r != NoBuffers ==> r.i < bufs.Length && Held(r.i) && bufs[r.i].locked && Caches(bufs[r.i], ROOTDEV, blockno)
      ensures r == NoBuffers ==> bufs[..] == old(bufs[..])
      ensures r != NoBuffers ==> bufs[..] == old(bufs[..])[r.i := bufs[r.i]] && bufs[r.i].refcnt == old(bufs[..])[r.i].refcnt + 1
      ensures r.Locked? ==> bufs[r.i].valid && bufs[r.i].data == Log.View(disk, PinMap(bufs[..]))[blockno]
    {
      ghost var start := bufs[..];
      r := Bget(ROOTDEV, blockno);
      if r != NoBuffers {
        assert BufOk(start, r.i) && Agrees(disk, start, r.i);
        OnlyHolder(start, ROOTDEV, blockno, r.i);
      }
      if r.Locked? {
        ghost var before := bufs[..];
        Load(r.i);
        StillCoherent(disk, before, bufs[..], r.i);
      }
    }

    /** bread, use, brelse: the block as the log's view shows it, and every buffer with as many references
        as before. */
    method ReadBlock(blockno: nat) returns (data: Option<Block>)
      requires Valid() && Coherent(disk, bufs[..]) && blockno < |disk|
      requires forall i :: 0 <= i < bufs.Length ==> !bufs[i].locked
      modifies bufs, nx, pv, this`disk, this`order, this`stamp, this`clock
      ensures Valid() && Coherent(disk, bufs[..]) && disk == old(disk) && PinMap(bufs[..]) == old(PinMap(bufs[..]))
      ensures data == None <==> old((forall i :: 0 <= i < bufs.Length ==> !Caches(bufs[i], ROOTDEV, blockno) && !Idle(bufs[i])))
      ensures data.Some? ==> data.value == Log.View(disk, PinMap(bufs[..]))[blockno]
      ensures forall i :: 0 <= i < bufs.Length ==> bufs[i].refcnt == old(bufs[i].refcnt) && !bufs[i].locked
    {
      ghost var before := bufs[..];
      var r := Bread(blockno);
      if r == NoBuffers {
        assert forall i :: 0 <= i < bufs.Length ==> bufs[..][i] == before[i];
        return None;
      }
      ghost var during := bufs[..];
      data := Some(bufs[r.i].data);
      ViewOf(disk, bufs[..], r.i);
      Brelse(r.i);
      assert bufs[..][r.i].refcnt == during[r.i].refcnt - 1;
      assert forall i :: 0 <= i < bufs.Length && i != r.i ==> bufs[..][i] == during[i] == before[i];
    }

    /** The holder changes the data; a pinned block changes with it. */
    method SetData(i: nat, data: Block)
      requires Held(i) && bufs[i].locked && bufs[i].valid && bufs[i].dev == ROOTDEV
      modifies bufs
      ensures Held(i) && bufs[..] == old(bufs[..])[i := old(bufs[i]).(data := data)]
      ensures PinMap(bufs[..]) == if bufs[i].dirty then old(PinMap(bufs[..]))[bufs[i].blockno := data] else old(PinMap(bufs[..]))
      ensures old(Coherent(disk, bufs[..])) ==> Coherent(disk, bufs[..])
    {
      ghost var before := bufs[..];
      assert BufOk(before, i);
      bufs[i] := bufs[i].(data := data);
      BumpOk(before, i, bufs[i]);
      StillCoherent(disk, before, bufs[..], i);
      if bufs[i].dirty {
        OnePin(before, bufs[..], i);
      } else {
        SamePins(before, bufs[..], i);
      }
    }

    /** log_write's last line: the block is pinned with its data. */
    method Pin(i: nat)
      requires Held(i) && bufs[i].locked && bufs[i].valid && bufs[i].dev == ROOTDEV
      modifies bufs
      ensures Held(i) && bufs[..] == old(bufs[..])[i := old(bufs[i]).(dirty := true)]
      ensures PinMap(bufs[..]) == old(PinMap(bufs[..]))[bufs[i].blockno := bufs[i].data]
      ensures old(Coherent(disk, bufs[..])) ==> Coherent(disk, bufs[..])
    {
      ghost var before := bufs[..];
      assert BufOk(before, i);
      bufs[i] := bufs[i].(dirty := true);
      BumpOk(before, i, bufs[i]);
      StillCoherent(disk, before, bufs[..], i);
      OnePin(before, bufs[..], i);
    }

    /** bwrite: the block reaches the disk and loses its pin. */
    method Bwrite(i: nat)
      requires Held(i) && bufs[i].locked && bufs[i].valid && bufs[i].dev == ROOTDEV && bufs[i].blockno < |disk|
      modifies bufs, this`disk
      ensures Held(i) && disk == old(disk)[old(bufs[i]).blockno := old(bufs[i]).data]
      ensures bufs[..] == old(bufs[..])[i := old(bufs[i]).(dirty := false)]
      ensures PinMap(bufs[..]) == old(PinMap(bufs[..])) - {bufs[i].blockno}
      ensures old(Coherent(disk, bufs[..])) ==> Coherent(disk, bufs[..])
    {
      ghost var before := bufs[..];
      assert BufOk(before, i);
      bufs[i] := bufs[i].(dirty := true);
      BumpOk(before, i, bufs[i]);
      Iderw(i);
      assert bufs[..] == before[i := before[i].(dirty := false)];
      OnePin(before, bufs[..], i);
      WriteCoherent(old(disk), disk, before, bufs[..], i);
    }

    /** brelse: the lock is dropped; with the last reference the buffer becomes the most recent. */
    method Brelse(i: nat)
      requires Held(i) && bufs[i].locked
      modifies bufs, nx, pv, this`order, this`stamp, this`clock
      ensures Valid() && PinMap(bufs[..]) == old(PinMap(bufs[..]))
      ensures bufs[..] == old(bufs[..])[i := old(bufs[i]).(locked := false, refcnt := old(bufs[i]).refcnt - 1)]
      ensures bufs[i].refcnt > 0 ==> order == old(order) && stamp == old(stamp)
      ensures bufs[i].refcnt == 0 ==>
                && order[0] == i && stamp == old(stamp)[i := old(clock)]
                && forall j :: 0 <= j < bufs.Length && j != i ==> stamp[j] < stamp[i]
      ensures old(Coherent(disk, bufs[..])) && Agrees(disk, bufs[..], i) ==> Coherent(disk, bufs[..])
    {
      ghost var before := bufs[..];
      assert BufOk(before, i);
      bufs[i] := bufs[i].(locked := false, refcnt := bufs[i].refcnt - 1);
      BumpOk(before, i, bufs[i]);
      SamePins(before, bufs[..], i);
      StillCoherent(disk, before, bufs[..], i);
      if bufs[i].refcnt == 0 {
        MoveToFront(i);
      }
    }

    /** brelse's relinking */
    method MoveToFront(i: nat)
      requires Valid() && i < bufs.Length
      modifies nx, pv, this`order, this`stamp, this`clock
      ensures Valid() && order[0] == i && stamp == old(stamp)[i := old(clock)]
      ensures forall j :: 0 <= j < bufs.Length && j != i ==> stamp[j] < stamp[i]
    {
      ghost var p := Place(order, bufs.Length, nx[..], pv[..], i);
      OutLinked(nx[..], pv[..], order, bufs.Length, p);
      StampedOut(order, stamp, clock, p);
      pv[nx[i]] := pv[i];
      nx[pv[i]] := nx[i];
      order := Without(order, p);
      PushFront(i);
      forall j | 0 <= j < bufs.Length && j != i ensures stamp[j] < stamp[i] {
        var k := Place(order, bufs.Length, nx[..], pv[..], j);
        assert StampOk(order, stamp, clock, k) && StampOk(order, stamp, clock, 0);
        assert Later(order, stamp, 0, k);
      }
    }
  }

  /** How bget and bread end. */
  datatype Got = Locked(i: nat) | Waits(i: nat) | NoBuffers

  /** Buffer `i` is the block's, with one more reference; or it was idle, the one released longest ago,
      and now stands for the block with nothing read yet. */
  predicate GivenFor(bs: seq<Buf>, stamp: seq<nat>, dev: nat, blockno: nat, i: nat, b: Buf) {
    && i < |bs| == |stamp|
    && if Caches(bs[i], dev, blockno) then b == bs[i].(refcnt := bs[i].refcnt + 1)
       else && (forall j :: 0 <= j < |bs| ==> !Caches(bs[j], dev, blockno))
            && Idle(bs[i]) && b == Buf(dev, blockno, 1, false, false, bs[i].locked, bs[i].data)
            && forall j :: 0 <= j < |bs| && Idle(bs[j]) ==> stamp[i] <= stamp[j]
  }

  lemma OnlyHolder(bs: seq<Buf>, dev: nat, blockno: nat, i: nat)
    requires BufsOk(bs) && i < |bs| && dev != 0
    requires Caches(bs[i], dev, blockno) || (Idle(bs[i]) && forall j :: 0 <= j < |bs| ==> !Caches(bs[j], dev, blockno))
    ensures bs[i].locked <==> exists j :: 0 <= j < |bs| && Caches(bs[j], dev, blockno) && bs[j].locked
  {
    assert BufOk(bs, i);
    forall j | 0 <= j < |bs| && Caches(bs[j], dev, blockno) && bs[j].locked ensures j == i {
      assert OnePerBlock(bs, j, i);
    }
  }

  lemma StillCoherent(disk: seq<Block>, bs: seq<Buf>, cs: seq<Buf>, i: nat)
    requires i < |bs| && |cs| == |bs| && cs == bs[i := cs[i]]
    ensures Coherent(disk, bs) && Agrees(disk, cs, i) ==> Coherent(disk, cs)
    ensures Coherent(disk, bs) ==> Agrees(disk, bs, i)
  {
    if Coherent(disk, bs) && Agrees(disk, cs, i) {
      forall x | 0 <= x < |cs| ensures Agrees(disk, cs, x) {
        assert Agrees(disk, bs, x);
      }
    }
  }

  /** Writing buffer `i` out keeps every other unlocked buffer in agreement: none holds its block. */
  lemma WriteCoherent(disk: seq<Block>, disk': seq<Block>, bs: seq<Buf>, cs: seq<Buf>, i: nat)
    requires BufsOk(bs) && i < |bs| && bs[i].dev == ROOTDEV && bs[i].blockno < |disk| && bs[i].locked
    requires cs == bs[i := bs[i].(dirty := false)] && disk' == disk[bs[i].blockno := bs[i].data]
    ensures Coherent(disk, bs) ==> Coherent(disk', cs)
  {
    if Coherent(disk, bs) {
      forall x | 0 <= x < |cs| ensures Agrees(disk', cs, x) {
        assert Agrees(disk, bs, x) && OnePerBlock(bs, i, x);
      }
    }
  }

  lemma BumpOk(bs: seq<Buf>, i: nat, b: Buf)
    requires BufsOk(bs) && i < |bs| && Caches(b, bs[i].dev, bs[i].blockno) && (b.locked ==> b.refcnt > 0) && (b.dirty ==> b.valid && b.dev == ROOTDEV)
    ensures BufsOk(bs[i := b])
  {
    var cs := bs[i := b];
    forall x | 0 <= x < |cs| ensures BufOk(cs, x) {
      assert BufOk(bs, x);
    }
    forall x, y | 0 <= x < |cs| && 0 <= y < |cs| ensures OnePerBlock(cs, x, y) {
      assert OnePerBlock(bs, x, y);
    }
  }

  lemma RecycleOk(bs: seq<Buf>, i: nat, b: Buf, dev: nat, blockno: nat)
    requires BufsOk(bs) && i < |bs| && Caches(b, dev, blockno) && forall x :: 0 <= x < |bs| ==> !Caches(bs[x], dev, blockno)
    requires (b.locked ==> b.refcnt > 0) && (b.dirty ==> b.valid && b.dev == ROOTDEV)
    ensures BufsOk(bs[i := b])
  {
    var cs := bs[i := b];
    forall x | 0 <= x < |cs| ensures BufOk(cs, x) {
      assert BufOk(bs, x);
    }
    forall x, y | 0 <= x < |cs| && 0 <= y < |cs| ensures OnePerBlock(cs, x, y) {
      assert OnePerBlock(bs, x, y);
    }
  }

  // ---- A full log against the number of buffers -----------------------------------------------------


  function DirtyBelow(bs: seq<Buf>, n: nat): (k: nat)
    requires n <= |bs|
    ensures k <= n
    ensures k == n <==> forall i :: 0 <= i < n ==> bs[i].dirty
  {
    if n == 0 then 0 else DirtyBelow(bs, n - 1) + if bs[n - 1].dirty then 1 else 0
  }

  lemma {:induction false} PinCount(bs: seq<Buf>, n: nat)
    requires n <= |bs| && BufsOk(bs)
    ensures |PinsBelow(bs, n)| == DirtyBelow(bs, n)
  {
    if n > 0 {
      PinCount(bs, n - 1);
      assert BufOk(bs, n - 1);
      if bs[n - 1].dirty {
        var b := bs[n - 1].blockno;
        PinsBelowAt(bs, n - 1, b);
        forall i: nat | i < n - 1 ensures !Pins(bs, b, i) {
          assert OnePerBlock(bs, n - 1, i);
        }
      }
    }
  }

  lemma {:induction false} ListedCount(lh: seq<nat>)
    requires LogDisk.Distinct(lh)
    ensures |Log.Listed(lh)| == |lh|
  {
    if lh != [] {
      var n := |lh| - 1;
      var most := lh[..n];
      forall i: nat, j: nat | i < j < n ensures LogDisk.Differ(most, i, j) {
        assert LogDisk.Differ(lh, i, j);
      }
      forall i: nat | i < n ensures most[i] != lh[n] {
        assert LogDisk.Differ(lh, i, n);
      }
      ListedCount(most);
      assert lh == most + [lh[n]];
      assert Log.Listed(lh) == Log.Listed(most) + {lh[n]};
    }
  }

  /** With the listed blocks pinned and nothing else referenced, commit's bread of a block of the log
      that is not cached finds a buffer if and only if the list is shorter than the number of buffers. */
  lemma CommitFindsBuffer(bs: seq<Buf>, lh: seq<nat>)
    requires BufsOk(bs) && LogDisk.Distinct(lh) && PinMap(bs).Keys == Log.Listed(lh)
    requires forall i :: 0 <= i < |bs| ==> bs[i].refcnt == 0
    ensures (exists i :: 0 <= i < |bs| && Idle(bs[i])) <==> |lh| < |bs|
  {
    PinCount(bs, |bs|);
    ListedCount(lh);
    assert |PinMap(bs)| == |PinMap(bs).Keys|;
  }

  /** There are as many buffers as the log may list blocks: a full log leaves commit without one. */
  lemma FullLogStarvesCommit(bs: seq<Buf>, lh: seq<nat>, b: nat)
    requires |bs| == LogDisk.NBUF && |lh| == LogDisk.LOGSIZE && b !in lh
    requires BufsOk(bs) && LogDisk.Distinct(lh) && PinMap(bs).Keys == Log.Listed(lh)
    ensures forall i :: 0 <= i < |bs| ==> !Caches(bs[i], ROOTDEV, b) && !Idle(bs[i])
  {
    PinCount(bs, |bs|);
    ListedCount(lh);
    assert |PinMap(bs)| == |PinMap(bs).Keys|;
    forall i | 0 <= i < |bs| ensures !Caches(bs[i], ROOTDEV, b) && !Idle(bs[i]) {
      assert BufOk(bs, i) && bs[i].dirty;
      PinMapOf(bs, i);
      assert bs[i].blockno in PinMap(bs).Keys;
    }
  }
}
