/** Groups of operations: from a moment without open operations to the next one. What processes see
    changes by the log_write calls of the group, in the order in which they took log.lock; and
    what every group keeps, every crash keeps. */
module LogGroups {
  import opened Blocks
  import opened LogDisk
  import opened Log
  import opened LogSystem
  import opened LogRefinement
  import opened LogRuns
  import opened Options

  ghost predicate Stack(c: Config, run: seq<State>) {
    c.Good() && c.Contained() && IsRun(c, run)
  }

  // ---- What a group logs ------------------------------------------------------------------

  ghost predicate Appends(c: Config, s: State, t: State, i: nat) {
    Enabled(c, s, LogAppend(i)) && t == Step(c, s, LogAppend(i))
  }

  /** The block and data of the log_write that takes the log from `s` to `t`, if one does. */
  ghost function LoggedBy(c: Config, s: State, t: State): Option<Write> {
    if exists i: nat :: Appends(c, s, t, i) then
      var i: nat :| Appends(c, s, t, i);
      Some(Write(s.ops[i].call.value.b, s.ops[i].call.value.data))
    else None
  }

  /** The log_write calls between moments `m` and `k`. */
  ghost function GroupTrace(c: Config, run: seq<State>, m: nat, k: nat): Trace
    requires m <= k < |run|
    decreases k
  {
    if k == m then Boot
    else
      var t := GroupTrace(c, run, m, k - 1);
      match LoggedBy(c, run[k - 1], run[k])
      case Some(w) => Then(t, w)
      case None => t
  }

  /** Operations are open from just after moment `m` until just before moment `n`, when the last of
      them ends. */
  ghost predicate Group(run: seq<State>, m: nat, n: nat) {
    && m < n < |run| && run[m].ops == [] && run[n].ops == [] && !run[n].phase.Recovering?
    && m + 1 < n && forall k :: m < k < n ==> run[k].ops != []
  }

  /** Inside a group, only log_write changes what processes see. */
  lemma StepLogs(c: Config, s: State, t: State)
    requires Ok(c, s) && Next(c, s, t) && (s.ops != [] || t.ops != []) && !t.phase.Recovering?
    ensures Ok(c, t)
    ensures var w := LoggedBy(c, s, t);
            Abs(c, t).visible == if w.Some? then Put(Abs(c, s).visible, w.value) else Abs(c, s).visible
  {
    var a :| Enabled(c, s, a) && t == Step(c, s, a);
    StepRefines(c, s, a);
    if exists i: nat :: Appends(c, s, t, i) {
      forall i: nat | Appends(c, s, t, i)
        ensures Abs(c, t).visible == Put(Abs(c, s).visible, Write(s.ops[i].call.value.b, s.ops[i].call.value.data))
      {
        LogAppendRefines(c, s, i);
      }
    } else {
      assert !a.LogAppend? by {
        if a.LogAppend? { assert Appends(c, s, t, a.i); }
      }
      BeginTestEndRefine(c, s, a);
    }
  }

  /** What processes see after part of a group is what they saw before it, with the group's
      log_write calls replayed. */
  lemma {:induction false} GroupEffect(c: Config, run: seq<State>, m: nat, k: nat)
    requires Stack(c, run) && m <= k < |run| && run[m].ops == [] && (forall j :: m < j < k ==> run[j].ops != [])
    requires m < k ==> run[k].ops != [] || (m + 1 < k && !run[k].phase.Recovering?)
    ensures Ok(c, run[m]) && Ok(c, run[k])
    ensures Abs(c, run[k]).visible == Replay(Abs(c, run[m]).visible, GroupTrace(c, run, m, k))
    decreases k
  {
    RunOk(c, run, m);
    RunOk(c, run, k);
    if m < k {
      var p := k - 1;
      GroupEffect(c, run, m, p);
      assert Next(c, run[p], run[p + 1]);
      StepLogs(c, run[p], run[k]);
      TraceNext(c, run, m, p, k, Abs(c, run[m]).visible);
    }
  }

  lemma TraceNext(c: Config, run: seq<State>, m: nat, p: nat, k: nat, d: Disk)
    requires m <= p && k == p + 1 < |run|
    ensures var w := LoggedBy(c, run[p], run[k]);
            var e := Replay(d, GroupTrace(c, run, m, p));
            Replay(d, GroupTrace(c, run, m, k)) == if w.Some? then Put(e, w.value) else e
  {
  }

  // ---- What every group keeps ---------------------------------------------------------------

  ghost predicate GroupKeeps(good: iset<Disk>, c: Config, run: seq<State>, m: nat, n: nat) {
    Group(run, m, n) && Ok(c, run[m]) && Ok(c, run[n]) && Abs(c, run[m]).visible in good ==> Abs(c, run[n]).visible in good
  }

  ghost predicate GroupsKeep(good: iset<Disk>, c: Config, run: seq<State>) {
    forall m: nat, n: nat :: GroupKeeps(good, c, run, m, n)
  }

  /** The open group began at a good disk. */
  ghost predicate Began(good: iset<Disk>, c: Config, run: seq<State>, n: nat, m: nat) {
    && m < n < |run| && run[m].ops == [] && Ok(c, run[m]) && Abs(c, run[m]).visible in good
    && forall k :: m < k <= n ==> run[k].ops != []
  }

  /** What a crash would keep is good, and so is what processes see when no operation is open. */
  ghost predicate Safe(good: iset<Disk>, c: Config, run: seq<State>, n: nat) {
    && n < |run| && Ok(c, run[n]) && Abs(c, run[n]).durable in good
    && if run[n].ops == [] then Abs(c, run[n]).visible in good else exists m: nat :: Began(good, c, run, n, m)
  }

  /** A state without open operations reached from a safe one. */
  lemma QuietSafe(good: iset<Disk>, c: Config, run: seq<State>, n: nat)
    requires Stack(c, run) && GroupsKeep(good, c, run) && Safe(good, c, run, n) && n + 1 < |run|
    requires Next(c, run[n], run[n + 1]) && Ok(c, run[n + 1]) && run[n + 1].ops == []
    requires SpecNext(Abs(c, run[n]), Abs(c, run[n + 1]))
    ensures Abs(c, run[n + 1]).visible in good
  {
    var p, q := Abs(c, run[n]), Abs(c, run[n + 1]);
    SpecDurable(p, q);
    if run[n + 1].phase.Recovering? {
      SameAtBoot(c, run[n + 1]);
    } else if run[n].ops != [] {
      var m: nat :| Began(good, c, run, n, m);
      assert Group(run, m, n + 1);
      assert GroupKeeps(good, c, run, m, n + 1);
    }
  }

  lemma StepSafe(good: iset<Disk>, c: Config, run: seq<State>, n: nat)
    requires Stack(c, run) && GroupsKeep(good, c, run) && Safe(good, c, run, n) && n + 1 < |run|
    ensures Safe(good, c, run, n + 1)
  {
    assert Next(c, run[n], run[n + 1]);
    var a :| Enabled(c, run[n], a) && run[n + 1] == Step(c, run[n], a);
    StepRefines(c, run[n], a);
    SpecDurable(Abs(c, run[n]), Abs(c, run[n + 1]));
    if run[n + 1].ops == [] {
      QuietSafe(good, c, run, n);
    } else if run[n].ops == [] {
      assert Began(good, c, run, n + 1, n);
    } else {
      var m: nat :| Began(good, c, run, n, m);
      assert Began(good, c, run, n + 1, m);
    }
  }

  /** In every run from a good disk whose groups keep it good, a crash at any moment leaves a good
      disk. */
  lemma {:induction false} RunSafe(good: iset<Disk>, c: Config, run: seq<State>, n: nat)
    requires Stack(c, run) && GroupsKeep(good, c, run) && n < |run|
    requires Ok(c, run[0]) && Abs(c, run[0]).durable in good
    ensures Safe(good, c, run, n)
  {
    if n == 0 {
      SameAtBoot(c, run[0]);
    } else {
      RunSafe(good, c, run, n - 1);
      StepSafe(good, c, run, n - 1);
    }
  }

  // ---- Every short list of log_write calls is an operation --------------------------------

  /** The trace writes home blocks only, no more than an operation may. */
  ghost predicate Fitting(c: Config, t: Trace) {
    |Touches(t)| <= c.limit && forall b :: b in Touches(t) ==> c.Home(b)
  }

  /** One operation is open, and has made the calls of `t`. */
  ghost predicate Midway(c: Config, s: State, d: Disk, t: Trace) {
    && Reachable(c, s) && Ok(c, s) && s.phase.Running? && !s.committing && |s.ops| == s.outstanding == 1
    && s.ops[0].call.None? && s.ops[0].wrote == Touches(t) && Listed(s.lh) == Touches(t) && |s.lh| == |Touches(t)|
    && Abs(c, s).visible == Replay(d, t)
  }

  lemma FitsMore(c: Config, t: Trace, w: Write)
    requires Fitting(c, Then(t, w))
    ensures Fitting(c, t) && c.Home(w.block) && (w.block in Touches(t) || |Touches(t)| < c.limit)
  {
    assert Touches(Then(t, w)) == Touches(t) + {w.block};
    if w.block in Touches(t) {
      assert Touches(Then(t, w)) == Touches(t);
    }
  }

  /** One more log_write call. */
  lemma CallOnce(c: Config, s: State, d: Disk, t: Trace, w: Write) returns (u: State)
    requires Midway(c, s, d, t) && Fitting(c, Then(t, w)) && c.limit < c.lay.size - 1 && c.limit < LOGSIZE
    ensures Midway(c, u, d, Then(t, w))
  {
    FitsMore(c, t, w);
    ReachStep(c, s, LogTest(0, w.block, w.data));
    var v := Step(c, s, LogTest(0, w.block, w.data));
    StepRefines(c, s, LogTest(0, w.block, w.data));
    BeginTestEndRefine(c, s, LogTest(0, w.block, w.data));
    u := CallDone(c, v, d, t, w);
  }

  lemma CallDone(c: Config, v: State, d: Disk, t: Trace, w: Write) returns (u: State)
    requires Reachable(c, v) && Ok(c, v) && v.phase.Running? && !v.committing && |v.ops| == v.outstanding == 1
    requires v.ops[0].call == Some(Call(w.block, w.data)) && v.ops[0].wrote == Touches(t) && Listed(v.lh) == Touches(t) && |v.lh| == |Touches(t)|
    requires Abs(c, v).visible == Replay(d, t)
    ensures Midway(c, u, d, Then(t, w))
  {
    ReachStep(c, v, LogAppend(0));
    u := Step(c, v, LogAppend(0));
    StepRefines(c, v, LogAppend(0));
    LogAppendRefines(c, v, 0);
    AbsorbSize(v.lh, w.block, Touches(t));
  }

  lemma AbsorbSize(lh: seq<nat>, b: nat, all: set<nat>)
    requires Listed(lh) == all && |lh| == |all|
    ensures Listed(Absorb(lh, b)) == all + {b} && |Absorb(lh, b)| == |all + {b}|
  {
    assert b in lh <==> b in Listed(lh);
    if b in lh {
      assert all + {b} == all;
    }
  }

  lemma {:induction false} CallAll(c: Config, s: State, t: Trace) returns (u: State)
    requires Reachable(c, s) && Ok(c, s) && s.phase.Running? && s.ops == [] && Fitting(c, t) && c.limit < c.lay.size - 1 && c.limit < LOGSIZE
    ensures Midway(c, u, Abs(c, s).visible, t)
  {
    match t
    case Boot =>
      ReachStep(c, s, Begin);
      u := Step(c, s, Begin);
      StepRefines(c, s, Begin);
      BeginTestEndRefine(c, s, Begin);
    case Then(before, w) =>
      FitsMore(c, before, w);
      u := CallAll(c, s, before);
      u := CallOnce(c, u, Abs(c, s).visible, before, w);
  }

  /** From any reachable state without open operations, begin_op, log_write calls that write no more
      blocks than an operation may, and end_op make a run, and processes then see those calls. */
  lemma OperationRuns(c: Config, s: State, t: Trace) returns (u: State)
    requires Reachable(c, s) && Ok(c, s) && s.phase.Running? && s.ops == [] && Fitting(c, t) && c.limit < c.lay.size - 1 && c.limit < LOGSIZE
    ensures Reachable(c, u) && Ok(c, u) && u.ops == [] && Abs(c, u).visible == Replay(Abs(c, s).visible, t)
  {
    u := CallAll(c, s, t);
    ReachStep(c, u, End(0));
    StepRefines(c, u, End(0));
    BeginTestEndRefine(c, u, End(0));
    u := Step(c, u, End(0));
  }
}
