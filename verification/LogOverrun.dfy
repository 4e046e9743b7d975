/** When log_write's unlocked test lets the list outgrow the log area, and what that breaks. */
module LogOverrun {
  import opened Blocks
  import opened LogDisk
  import opened Log
  import opened LogSystem
  import opened LogRefinement
  import opened LogRuns
  import opened Options

  function Ones(): (b: Block)
    ensures b[0] == 1
  {
    seq(BSIZE, _ => 1)
  }

  // ---- Two operations pass the test together ------------------------------------------

  /** Home block `x` is zero on disk, and for readers unless it is the last block listed. */
  ghost predicate MarkedAt(c: Config, s: State, x: nat) {
    c.Home(x) && x < |s.disk| ==>
      s.disk[x] == Zeros() && (x in s.pins ==> s.pins[x] == if x == First(c) + c.lay.size - 1 then Ones() else Zeros())
  }

  /** A reachable state in which two open operations have logged one block more than fits. */
  ghost predicate Overrun(c: Config, s: State) {
    && Reachable(c, s) && s.phase.Running? && !s.committing && HeadOk(c, s)
    && |s.lh| == c.lay.size && (forall i :: 0 <= i < |s.lh| ==> ListedAt(c, s, i))
    && |s.ops| == s.outstanding == 2 && s.ops[0].call.None? && s.ops[1].call.None?
    && (forall x: nat :: MarkedAt(c, s, x)) && First(c) + c.lay.size - 1 in s.pins
  }

  ghost predicate HeadOk(c: Config, s: State) {
    |s.disk| == c.nblocks && c.lay.Fits(s.disk) && HeadCount(s.disk[c.lay.start]) == 0
  }

  lemma PassTest(c: Config, s: State, i: nat, b: nat, data: Block) returns (t: State)
    requires Reachable(c, s) && MayLog(c, s, i, b) && !LogWritePanics(c.lay, s.lh, s.outstanding)
    ensures Reachable(c, t) && t == s.(ops := s.ops[i := s.ops[i].(call := Some(Call(b, data)))])
  {
    ReachStep(c, s, LogTest(i, b, data));
    t := Step(c, s, LogTest(i, b, data));
  }

  /** Two log_write calls pass their tests. */
  lemma BothTest(c: Config, s: State, b: nat) returns (t: State)
    requires Reachable(c, s) && |s.ops| == 2 && MayLog(c, s, 0, b) && MayLog(c, s, 1, b + 1) && !LogWritePanics(c.lay, s.lh, s.outstanding)
    ensures Reachable(c, t) && |t.ops| == 2 && t == s.(ops := t.ops)
    ensures t.ops[0].call == Some(Call(b, Zeros())) && t.ops[1].call == Some(Call(b + 1, Ones()))
  {
    var m := PassTest(c, s, 0, b, Zeros());
    t := PassTest(c, m, 1, b + 1, Ones());
  }

  lemma AppendNew(c: Config, s: State, i: nat, b: nat, data: Block) returns (t: State)
    requires Reachable(c, s) && i < |s.ops| && s.ops[i].call == Some(Call(b, data)) && b !in s.lh
    ensures Reachable(c, t) && t == s.(lh := s.lh + [b], pins := s.pins[b := data], ops := t.ops)
    ensures t.ops == s.ops[i := Op(s.ops[i].wrote + {b}, s.ops[i].epoch, None)]
  {
    ReachStep(c, s, LogAppend(i));
    t := Step(c, s, LogAppend(i));
  }

  /** Then both append, although the first append leaves no room for the second. */
  lemma BothAppend(c: Config, s: State, b: nat) returns (t: State)
    requires Reachable(c, s) && |s.ops| == 2 && b !in s.lh && b + 1 !in s.lh
    requires s.ops[0].call == Some(Call(b, Zeros())) && s.ops[1].call == Some(Call(b + 1, Ones()))
    ensures Reachable(c, t) && t.lh == s.lh + [b, b + 1] && t.pins == s.pins[b := Zeros()][b + 1 := Ones()]
    ensures t == s.(lh := t.lh, pins := t.pins, ops := t.ops) && |t.ops| == 2 && t.ops[0].call.None? && t.ops[1].call.None?
  {
    var m := AppendNew(c, s, 0, b, Zeros());
    t := AppendNew(c, m, 1, b + 1, Ones());
    assert s.lh + [b] + [b + 1] == s.lh + [b, b + 1];
  }

  lemma NextTwoAreNew(c: Config, s: State, n: nat, used: seq<nat>)
    requires Shape(c, s, n, used)
    ensures First(c) + n !in s.lh && First(c) + n + 1 !in s.lh
  {
    forall j | 0 <= j < n ensures s.lh[j] < First(c) + n {
      assert ListedAt(c, s, j);
    }
  }

  /** Both test at length size - 2, then both append. */
  lemma TwoAtOnce(c: Config, s: State, n: nat, used: seq<nat>) returns (t: State)
    requires Wide(c) && Shape(c, s, n, used) && |used| == 2 && n + 2 == c.lay.size <= LOGSIZE && used[0] < c.limit && used[1] < c.limit
    ensures var b := First(c) + n;
            && Reachable(c, t) && t.lh == s.lh + [b, b + 1] && t.pins == s.pins[b := Zeros()][b + 1 := Ones()]
            && t == s.(lh := t.lh, pins := t.pins, ops := t.ops) && |t.ops| == 2 && t.ops[0].call.None? && t.ops[1].call.None?
  {
    assert OpUsed(s, used, 0) && OpUsed(s, used, 1);
    NextTwoAreNew(c, s, n, used);
    t := BothTest(c, s, First(c) + n);
    t := BothAppend(c, t, First(c) + n);
  }

  lemma ReachOverrun(c: Config) returns (s: State)
    requires Wide(c) && !c.Roomy()
    ensures Overrun(c, s)
  {
    var n := c.lay.size - 2;
    Shares(n, c.limit);
    var s0 := ReachLength(c, n);
    s := TwoAtOnce(c, s0, n, [Share(n, 0), Share(n, 1)]);
    forall i | 0 <= i < |s.lh| ensures ListedAt(c, s, i) {
      assert i < n ==> ListedAt(c, s0, i);
    }
    forall x: nat ensures MarkedAt(c, s, x) {
      assert ZeroAt(c, s0, x);
    }
  }

  /** The list stays inside the log area in every run if and only if the area holds
      MAXOPBLOCKS + 2 * limit blocks besides the header, or nothing is ever logged. */
  lemma InsideExactly(c: Config)
    requires Wide(c)
    ensures (forall s :: Reachable(c, s) ==> |s.lh| < c.lay.size) <==> c.Roomy()
  {
    if c.Roomy() {
      forall s | Reachable(c, s) ensures |s.lh| < c.lay.size {
        var run :| IsRun(c, run) && run[|run| - 1] == s;
        RunKeeps(c, run, |run| - 1);
        StaysInside(c, s);
      }
    } else {
      var s := ReachOverrun(c);
      assert Reachable(c, s);
    }
  }

  // ---- What the commit of such a list does ----------------------------------------------

  /** The disk after `k` writes of write_log on a list that overruns. */
  ghost function Spilled(t: Txn, k: nat): (d: Disk)
    requires t.Overruns() && k <= t.lay.size
    ensures |d| == |t.disk|
  {
    if k == 0 then t.disk else Put(Spilled(t, k - 1), t.SpillOp(k - 1))
  }

  /** The header keeps its old contents, and the block behind the log gets another block's data. */
  lemma {:induction false} SpilledAt(t: Txn, k: nat)
    requires t.Overruns() && k <= t.lay.size
    ensures Spilled(t, k)[t.lay.start] == t.disk[t.lay.start]
    ensures k == t.lay.size ==> Spilled(t, k)[t.lay.start + t.lay.size] == t.view[t.lh[t.lay.size - 1]]
  {
    if k > 0 {
      SpilledAt(t, k - 1);
    }
  }

  lemma {:induction false} ReachSpill(c: Config, s: State, k: nat) returns (t: State)
    requires Reachable(c, s) && s.phase.Committing? && s.phase.k == 0 && s.phase.txn.Overruns() && s.lh != [] && |s.lh| < NBUF
    requires s.disk == s.phase.txn.disk && k <= s.phase.txn.lay.size
    ensures Reachable(c, t) && t == s.(disk := Spilled(s.phase.txn, k), phase := Committing(s.phase.txn, k))
  {
    t := s;
    if k > 0 {
      t := ReachSpill(c, s, k - 1);
      ReachStep(c, t, CommitWrite);
      t := Step(c, t, CommitWrite);
    }
  }

  /** Both operations end, and the commit of the list begins. */
  lemma BothEnd(c: Config, s: State) returns (t: State)
    requires Reachable(c, s) && !s.committing && |s.ops| == s.outstanding == 2 && s.ops[0].call.None? && s.ops[1].call.None?
    ensures Reachable(c, t) && t.lh == s.lh && t.disk == s.disk
    ensures t.phase == Committing(Txn(c.lay, s.disk, View(s.disk, s.pins), s.lh), 0)
  {
    ReachStep(c, s, End(1));
    t := LastEnds(c, s, Step(c, s, End(1)));
  }

  lemma ReachCommit(c: Config, s: State) returns (t: State)
    requires c.Good() && Wide(c) && Overrun(c, s)
    ensures Reachable(c, t) && t.lh == s.lh && t.disk == s.disk
    ensures t.phase == Committing(Txn(c.lay, s.disk, View(s.disk, s.pins), s.lh), 0) && t.phase.txn.Overruns()
  {
    t := BothEnd(c, s);
    var run :| IsRun(c, run) && run[|run| - 1] == s;
    RunKeeps(c, run, |run| - 1);
  }

  lemma LastEnds(c: Config, s: State, u: State) returns (t: State)
    requires Reachable(c, u) && u == s.(ops := u.ops, outstanding := 1) && |u.ops| == 1 && u.ops[0].call.None? && !u.committing
    ensures Reachable(c, t) && t.lh == s.lh && t.disk == s.disk
    ensures t.phase == Committing(Txn(c.lay, s.disk, View(s.disk, s.pins), s.lh), 0)
  {
    ReachStep(c, u, End(0));
    t := Step(c, u, End(0));
  }

  /** While a commit is under way, a crash would keep the old contents of every home block, or the
      new contents of every one. */
  ghost predicate AtomicAt(c: Config, s: State) {
    s.phase.Committing? ==>
      && GoodDisk(c.lay, s.disk) && |s.disk| == c.nblocks == |s.phase.txn.disk| == |s.phase.txn.view|
      && ((forall b: nat :: c.Home(b) ==> Durable(c.lay, s.disk, b) == s.phase.txn.disk[b])
          || (forall b: nat :: c.Home(b) ==> Durable(c.lay, s.disk, b) == s.phase.txn.view[b]))
  }

  lemma AtomicInside(c: Config, s: State)
    requires c.Good() && c.Contained() && Reachable(c, s)
    ensures AtomicAt(c, s)
  {
    var run :| IsRun(c, run) && run[|run| - 1] == s;
    RunOk(c, run, |run| - 1);
    if s.phase.Committing? {
      forall b: nat | c.Home(b)
        ensures Durable(c.lay, s.disk, b) == if s.phase.k > |s.lh| then s.phase.txn.view[b] else s.phase.txn.disk[b]
      {
        CommittingAt(c, s, b);
      }
    }
  }

  /** Home block `x` would be neither old nor new. */
  lemma NotAtomic(c: Config, s: State, x: nat)
    requires s.phase.Committing? && c.lay.Fits(s.disk) && HeadCount(s.disk[c.lay.start]) == 0 && c.Home(x)
    requires |s.disk| == c.nblocks == |s.phase.txn.disk| == |s.phase.txn.view|
    requires s.disk[x] != s.phase.txn.disk[x] && s.disk[x] != s.phase.txn.view[x]
    ensures !AtomicAt(c, s)
  {
    if GoodDisk(c.lay, s.disk) {
      assert Head(s.disk[c.lay.start]) == [];
      assert Durable(c.lay, s.disk, x) == s.disk[x];
    }
  }

  /** The block behind the log is zero before and after the transaction; the last block is not. */
  lemma MarkedView(c: Config, o: State)
    requires Wide(c) && Overrun(c, o)
    ensures var v := View(o.disk, o.pins);
            && c.Home(First(c)) && o.disk[First(c)] == Zeros() && v[First(c)] == Zeros()
            && o.lh[c.lay.size - 1] < |v| && v[o.lh[c.lay.size - 1]] == Ones()
  {
    assert MarkedAt(c, o, First(c)) && ListedAt(c, o, c.lay.size - 1) && MarkedAt(c, o, First(c) + c.lay.size - 1);
    var run :| IsRun(c, run) && run[|run| - 1] == o;
    RunKeeps(c, run, |run| - 1);
  }

  /** With the header still empty, the home block behind the log holds what is neither its old nor
      its new contents. */
  lemma TornOutside(c: Config) returns (s: State)
    requires Wide(c) && !c.Contained()
    ensures Reachable(c, s) && !AtomicAt(c, s)
  {
    var o := ReachOverrun(c);
    MarkedView(c, o);
    var t := ReachCommit(c, o);
    s := ReachSpill(c, t, c.lay.size);
    SpilledAt(t.phase.txn, c.lay.size);
    assert Ones()[0] != Zeros()[0];
    NotAtomic(c, s, First(c));
  }

  /** Commits are atomic under crashes in every run if and only if the list cannot outgrow the log
      area while a buffer is left for the commit. */
  lemma AtomicExactly(c: Config)
    requires Wide(c)
    ensures (forall s :: Reachable(c, s) ==> AtomicAt(c, s)) <==>
            c.limit == 0 || c.lay.size == 1 || c.lay.size > MAXOPBLOCKS + 2 * c.limit || c.lay.size >= NBUF
  {
    if c.Contained() {
      forall s | Reachable(c, s) ensures AtomicAt(c, s) {
        AtomicInside(c, s);
      }
    } else {
      var s := TornOutside(c);
      assert Reachable(c, s);
    }
  }

  // ---- The log mkfs makes ---------------------------------------------------------------

  /** commit has work to do and no buffer to do it with. */
  ghost predicate Starved(s: State) {
    s.phase.Committing? && s.phase.k == 0 && |s.lh| >= NBUF
  }

  /** From there the code panics: nothing but a crash is left, and it keeps the old contents. */
  lemma StarvedOnlyCrashes(c: Config, s: State, a: Action)
    requires Inv(c, s) && c.Contained() && Starved(s) && Enabled(c, s, a)
    ensures a == Crash
    ensures GoodDisk(c.lay, s.disk) && forall b: nat :: c.Home(b) ==> Durable(c.lay, s.disk, b) == s.phase.txn.disk[b] == s.disk[b]
  {
    CrashSafe(c, s);
    assert Head(s.disk[c.lay.start]) == [];
  }

  /** A list that pins every buffer. */
  lemma ReachFull(c: Config) returns (s: State)
    requires Wide(c) && c.lay.size >= NBUF && c.limit == MAXOPBLOCKS
    ensures Reachable(c, s) && |s.lh| == NBUF && Starved(s)
  {
    if c.lay.size == NBUF {
      var o := ReachOverrun(c);
      s := ReachCommit(c, o);
    } else {
      var o := ReachLength(c, NBUF);
      assert OpUsed(o, [Share(NBUF, 0), Share(NBUF, 1)], 0) && OpUsed(o, [Share(NBUF, 0), Share(NBUF, 1)], 1);
      s := BothEnd(c, o);
    }
  }

  /** In a log at least as large as the cache, no commit runs out of buffers, in any run, if and only
      if operations log fewer than MAXOPBLOCKS blocks. */
  lemma NeverStarvedExactly(c: Config)
    requires Wide(c) && c.lay.size >= NBUF
    ensures (forall s :: Reachable(c, s) ==> !Starved(s)) <==> c.limit < MAXOPBLOCKS
  {
    if c.limit < MAXOPBLOCKS {
      forall s | Reachable(c, s) ensures !Starved(s) {
        var run :| IsRun(c, run) && run[|run| - 1] == s;
        RunKeeps(c, run, |run| - 1);
        OpsBounded(c, s, c.limit);
      }
    } else {
      var s := ReachFull(c);
      assert Reachable(c, s);
    }
  }

  /** mkfs's log with operations of MAXOPBLOCKS blocks: every crash is safe, although the list can
      leave the log area, because the commit of such a list never makes its first write. */
  lemma DefaultLogIsSafe(c: Config) returns (s: State)
    requires Wide(c) && c.lay.size == LOGSIZE && c.limit == MAXOPBLOCKS
    ensures forall r :: Reachable(c, r) ==> AtomicAt(c, r) && GoodDisk(c.lay, r.disk)
    ensures Reachable(c, s) && |s.lh| == c.lay.size && Starved(s) && forall a :: Enabled(c, s, a) ==> a == Crash
  {
    forall r | Reachable(c, r) ensures AtomicAt(c, r) && GoodDisk(c.lay, r.disk) {
      AtomicInside(c, r);
      var run :| IsRun(c, run) && run[|run| - 1] == r;
      RunOk(c, run, |run| - 1);
    }
    s := ReachFull(c);
    var run :| IsRun(c, run) && run[|run| - 1] == s;
    RunKeeps(c, run, |run| - 1);
    forall a | Enabled(c, s, a) ensures a == Crash {
      StarvedOnlyCrashes(c, s, a);
    }
  }
}
