/** log.c: the in-memory log over the buffer cache. The cache is seen through what bio.c
    guarantees: a read returns the pinned copy of a block if there is one and the disk copy
    otherwise, and a write through the cache reaches the disk and unpins the block. */
module Log {
  import opened Blocks
  import opened LogDisk

  /** What readers of the cache see. */
  function View(d: Disk, pins: map<nat, Block>): (v: Disk)
    ensures |v| == |d|
    ensures forall b: nat :: b < |d| ==> v[b] == if b in pins then pins[b] else d[b]
  {
    seq(|d|, b requires 0 <= b < |d| => if b in pins then pins[b] else d[b])
  }

  /** log_write's effect on the block list: absorb a block already listed, append otherwise. */
  function Absorb(lh: seq<nat>, b: nat): (r: seq<nat>)
    ensures b in r
  {
    if b in lh then lh else lh + [b]
  }

  function Listed(lh: seq<nat>): set<nat> { set b | b in lh }

  predicate LogWritePanics(lay: Layout, lh: seq<nat>, outstanding: nat) {
    |lh| >= LOGSIZE || |lh| >= lay.size - 1 || outstanding < 1
  }

  predicate MustWait(lh: seq<nat>, outstanding: nat, committing: bool) {
    committing || |lh| + (outstanding + 1) * MAXOPBLOCKS > LOGSIZE
  }

  lemma AppendUnlisted(lay: Layout, n: nat, lh: seq<nat>, b: nat)
    requires Listable(lay, n, lh) && b < n && !lay.InLog(b) && b !in lh && |lh| < LOGSIZE
    ensures Listable(lay, n, lh + [b])
    ensures Listed(lh + [b]) == Listed(lh) + {b}
  {
    forall i: nat, j: nat | i < j < |lh| + 1 ensures Differ(lh + [b], i, j) {
      if j < |lh| { assert Differ(lh, i, j); }
    }
  }

  lemma RemoveAbsent(pins: map<nat, Block>, b: nat)
    requires b !in pins
    ensures pins - {b} == pins
  {
  }

  /** `r` is recovery from the point where `c` has written its header. */
  ghost predicate Resumes(c: Txn, r: Recovery) {
    c.Good() && r.Good() && r.lay == c.lay && r.lh == c.lh && r.disk == c.Stage(c.N + 1)
  }

  lemma {:induction false} StagesMeet(c: Txn, r: Recovery, k: nat)
    requires Resumes(c, r) && k <= c.N + 1
    ensures c.Stage(c.N + 1 + k) == r.Stage(k)
  {
    if k > 0 {
      StagesMeet(c, r, k - 1);
      CommitOps(c, r, k - 1);
    }
  }

  lemma {:induction false} TracesMeet(c: Txn, t: Trace, r: Recovery, k: nat)
    requires Resumes(c, r) && k <= c.N + 1
    ensures c.After(t, c.N + 1 + k) == r.After(c.After(t, c.N + 1), k)
  {
    if k > 0 {
      TracesMeet(c, t, r, k - 1);
      CommitOps(c, r, k - 1);
    }
  }

  /** From the header write on, commit and a recovery from the committed disk do the same. */
  lemma CommitEndsAsRecovery(c: Txn, t: Trace, r: Recovery, k: nat)
    requires Resumes(c, r) && k <= c.N + 1
    ensures c.Stage(c.N + 1 + k) == r.Stage(k)
    ensures c.After(t, c.N + 1 + k) == r.After(c.After(t, c.N + 1), k)
  {
    StagesMeet(c, r, k);
    TracesMeet(c, t, r, k);
  }

  lemma CommitEnd(c: Txn, t: Trace, r: Recovery)
    requires Resumes(c, r)
    ensures c.Stage(c.Steps) == r.Stage(r.Steps)
    ensures c.After(t, c.Steps) == r.After(c.After(t, c.N + 1), r.Steps)
  {
    CommitEndsAsRecovery(c, t, r, r.Steps);
  }

  lemma CommitOps(c: Txn, r: Recovery, i: nat)
    requires Resumes(c, r) && i <= c.N
    ensures c.Op(c.N + 1 + i) == r.Op(i)
  {
    c.StageIs(c.N + 1, if i < c.N then c.lay.start + 1 + i else c.lay.start);
  }

  /** A finished commit has an empty header and leaves on disk what readers saw in the cache. */
  lemma CommitShowsView(c: Txn, pins: map<nat, Block>)
    requires c.Good() && c.view == View(c.disk, pins) && pins.Keys == Listed(c.lh)
    requires HeadCount(c.disk[c.lay.start]) == 0
    ensures HeadCount(c.Stage(c.Steps)[c.lay.start]) == 0
    ensures forall b: nat :: b < |c.disk| && !c.lay.InLog(b) ==> c.Stage(c.Steps)[b] == c.view[b]
    ensures c.lh == [] ==> c.view == c.disk
  {
    CommitPrefix(c, c.Steps);
    forall b: nat | b < |c.disk| && !c.lay.InLog(b) ensures c.Stage(c.Steps)[b] == c.view[b] {
      c.StageIs(c.Steps, b);
    }
  }

  datatype EndResult = Panicked | StillOpen | CommittedGroup

  class Log {
    const lay: Layout
    var disk: Disk
    var pins: map<nat, Block>   // cached blocks held by B_DIRTY
    var lh: seq<nat>            // log.lh: n and block[0..n]
    var outstanding: nat
    var committing: bool
    ghost var trace: Trace

    ghost predicate Valid()
      reads this
    {
      && GoodList(lay, |disk|, lh)
      && pins.Keys == Listed(lh)
    }

    /** The commit that would write the current log. */
    ghost function Pending(): (c: Txn)
      requires Valid()
      reads this
      ensures c.Good()
    {
      Txn(lay, disk, View(disk, pins), lh)
    }

    /** initlog on a freshly booted machine: nothing cached, then recover_from_log. */
    constructor (lay: Layout, disk: Disk)
      requires GoodDisk(lay, disk)
      ensures Valid() && this.lay == lay && lh == [] && pins == map[] && outstanding == 0 && !committing
      ensures var r := RecoveryOf(lay, disk);
              this.disk == r.Stage(r.Steps) && trace == r.After(Boot, r.Steps)
    {
      this.lay, this.disk := lay, disk;
      pins, lh, outstanding, committing, trace := map[], [], 0, false, Boot;
      new;
      Recover();
    }

    /** bwrite: the block reaches the disk and loses its pin. */
    method Bwrite(b: nat, data: Block)
      requires b < |disk|
      modifies this`disk, this`pins, this`trace
      ensures disk == Put(old(disk), Write(b, data)) && pins == old(pins) - {b}
      ensures trace == Then(old(trace), Write(b, data))
    {
      disk := disk[b := data];
      pins := pins - {b};
      trace := Then(trace, Write(b, data));
    }

    /** bread */
    function Bread(b: nat): Block
      requires b < |disk|
      reads this
    {
      if b in pins then pins[b] else disk[b]
    }

    method WriteLog()
      requires Valid()
      modifies this`disk, this`pins, this`trace
      ensures pins == old(pins)
      ensures disk == old(Pending()).Stage(|lh|) && trace == old(Pending()).After(old(trace), |lh|)
    {
      ghost var c := Pending();
      var tail := 0;
      while tail < |lh|
        invariant 0 <= tail <= |lh| && |disk| == |c.disk| && pins == old(pins)
        invariant disk == c.Stage(tail) && trace == c.After(old(trace), tail)
      {
        var to := lay.start + tail + 1;
        assert lay.InLog(to);
        RemoveAbsent(pins, to);
        assert lh[tail] in Listed(lh);
        var from := Bread(lh[tail]);
        assert Write(to, from) == c.Op(tail);
        Bwrite(to, from);
        tail := tail + 1;
      }
    }

    method InstallTrans(ghost r: Recovery)
      requires r.Good() && r == Recovery(lay, disk, lh) && pins.Keys <= Listed(lh)
      modifies this`disk, this`pins, this`trace
      ensures pins == map[]
      ensures disk == r.Stage(|lh|) && trace == r.After(old(trace), |lh|)
    {
      var tail := 0;
      while tail < |lh|
        invariant 0 <= tail <= |lh| && |disk| == |r.disk|
        invariant pins.Keys <= Listed(lh[tail..])
        invariant disk == r.Stage(tail) && trace == r.After(old(trace), tail)
      {
        var from := lay.start + tail + 1;
        assert lay.InLog(from);
        r.StageIs(tail, from);
        assert lh[tail..] == [lh[tail]] + lh[tail + 1..];
        Bwrite(lh[tail], Bread(from));
        tail := tail + 1;
      }
    }

    method WriteHead()
      requires GoodList(lay, |disk|, lh) && lay.start !in pins
      modifies this`disk, this`pins, this`trace
      ensures pins == old(pins)
      ensures var w := Write(lay.start, PutHead(old(disk)[lay.start], lh, |lh|));
              disk == Put(old(disk), w) && trace == Then(old(trace), w)
    {
      var buf := Bread(lay.start);
      buf := PutWord(buf, 0, |lh|);
      var i := 0;
      while i < |lh|
        invariant 0 <= i <= |lh|
        invariant buf == PutHead(disk[lay.start], lh, i)
      {
        buf := PutWord(buf, i + 1, lh[i]);
        i := i + 1;
      }
      RemoveAbsent(pins, lay.start);
      Bwrite(lay.start, buf);
    }

    /** commit issues exactly the writes whose every prefix CommitIsAtomic speaks of. With every buffer
        pinned by the list its first bread panics, and nothing is written. */
    method Commit() returns (ok: bool)
      requires Valid()
      modifies this`disk, this`pins, this`trace, this`lh
      ensures Valid() && ok == (|old(lh)| < NBUF)
      ensures ok ==> lh == [] && pins == map[]
      ensures !ok ==> lh == old(lh) && pins == old(pins)
      ensures !ok || old(lh) == [] ==> trace == old(trace) && disk == old(disk)
      ensures var c := old(Pending());
              ok && old(lh) != [] ==> disk == c.Stage(c.Steps) && trace == c.After(old(trace), c.Steps)
    {
      ok := true;
      if |lh| > 0 {
        if |lh| >= NBUF {
          return false;
        }
        ghost var c := Pending();
        LogAndHead();
        ghost var r := Recovery(lay, disk, lh);
        InstallAndClear(r);
        CommitEnd(c, old(trace), r);
      }
    }

    /** The first half of commit, up to the header write. */
    method LogAndHead()
      requires Valid() && lh != []
      modifies this`disk, this`pins, this`trace
      ensures pins == old(pins)
      ensures var c := old(Pending());
              disk == c.Stage(c.N + 1) && trace == c.After(old(trace), c.N + 1) && Recovery(lay, disk, lh).Good()
    {
      ghost var c := Pending();
      WriteLog();
      c.StageIs(|lh|, lay.start);
      assert lay.InLog(lay.start);
      WriteHead();
    }

    /** The common end of commit and recover_from_log. */
    method InstallAndClear(ghost r: Recovery)
      requires r.Good() && r == Recovery(lay, disk, lh) && pins.Keys <= Listed(lh)
      modifies this`disk, this`pins, this`trace, this`lh
      ensures lh == [] && pins == map[]
      ensures disk == r.Stage(r.Steps) && trace == r.After(old(trace), r.Steps)
    {
      InstallTrans(r);
      r.StageIs(|lh|, lay.start);
      assert lay.InLog(lay.start);
      lh := [];
      WriteHead();
    }

    method ReadHead()
      requires GoodDisk(lay, disk) && lay.start !in pins
      modifies this`lh
      ensures lh == Head(disk[lay.start])
    {
      var buf := Bread(lay.start);
      var n := GetWord(buf, 0);
      lh := [];
      var i := 0;
      while i < n
        invariant 0 <= i <= n
        invariant lh == Head(buf)[..i]
      {
        lh := lh + [GetWord(buf, i + 1)];
        i := i + 1;
      }
    }

    method Recover()
      requires GoodDisk(lay, disk) && pins == map[]
      modifies this`disk, this`pins, this`trace, this`lh
      ensures Valid() && lh == [] && pins == map[]
      ensures var r := RecoveryOf(lay, old(disk));
              disk == r.Stage(r.Steps) && trace == r.After(old(trace), r.Steps)
    {
      ReadHead();
      InstallAndClear(RecoveryOf(lay, disk));
    }

    /** begin_op's loop body: false means the caller sleeps and tries again. */
    method TryBeginOp() returns (admitted: bool)
      modifies this`outstanding
      ensures admitted == !MustWait(lh, old(outstanding), committing)
      ensures outstanding == old(outstanding) + if admitted then 1 else 0
    {
      if committing {
        return false;
      } else if |lh| + (outstanding + 1) * MAXOPBLOCKS > LOGSIZE {
        return false;
      }
      outstanding := outstanding + 1;
      return true;
    }

    /** log_write of block `b` whose buffer now holds `data`; false is a panic. */
    method LogWrite(b: nat, data: Block) returns (ok: bool)
      requires Valid() && b < |disk| && !lay.InLog(b)
      modifies this`lh, this`pins
      ensures ok == !LogWritePanics(lay, old(lh), outstanding)
      ensures ok ==> Valid() && lh == Absorb(old(lh), b) && pins == old(pins)[b := data]
      ensures ok ==> lh == if b in old(lh) then old(lh) else old(lh) + [b]
      ensures !ok ==> lh == old(lh) && pins == old(pins)
    {
      if |lh| >= LOGSIZE || |lh| >= lay.size - 1 {
        return false;
      }
      if outstanding < 1 {
        return false;
      }
      var i := 0;
      while i < |lh| && lh[i] != b
        invariant 0 <= i <= |lh|
        invariant b !in lh[..i]
      {
        i := i + 1;
      }
      assert lh[..|lh|] == lh;
      if i == |lh| {
        AppendUnlisted(lay, |disk|, lh, b);
        lh := lh + [b];
      } else {
        assert lh[i := b] == lh;
        lh := lh[i := b];
      }
      pins := pins[b := data];
      return true;
    }

    method EndOp() returns (r: EndResult)
      requires Valid() && HeadCount(disk[lay.start]) == 0 && outstanding > 0
      modifies this
      ensures outstanding == old(outstanding) - 1
      ensures r.Panicked? <==> old(committing) || (outstanding == 0 && |old(lh)| >= NBUF)
      ensures r.Panicked? ==> disk == old(disk) && trace == old(trace)
      ensures r.CommittedGroup? <==> !r.Panicked? && outstanding == 0
      ensures !r.Panicked? ==> Valid() && !committing && HeadCount(disk[lay.start]) == 0 && |disk| == |old(disk)|
      ensures r.StillOpen? ==> lh == old(lh) && pins == old(pins) && disk == old(disk) && trace == old(trace)
      ensures r.CommittedGroup? ==> lh == [] && pins == map[]
      ensures r.CommittedGroup? ==> forall b: nat :: b < |disk| && !lay.InLog(b) ==> disk[b] == old(Bread(b))
    {
      outstanding := outstanding - 1;
      if committing {
        return Panicked;
      }
      if outstanding == 0 {
        committing := true;
        ghost var c := Pending();
        CommitShowsView(c, pins);
        var ok := Commit();
        if !ok {
          return Panicked;
        }
        committing := false;
        return CommittedGroup;
      }
      return StillOpen;
    }
  }
}
