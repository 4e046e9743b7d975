/** Where commits stay inside the log area, the logging system refines a disk on which whole groups of
    operations become durable in one step, and only when no operation is open. */
module LogRefinement {
  import opened Blocks
  import opened LogDisk
  import opened Log
  import opened LogSystem

  /** `durable` is what a crash keeps, `visible` what running operations read. */
  datatype Spec = Spec(durable: Disk, visible: Disk, open: nat)

  ghost predicate SpecNext(p: Spec, q: Spec) {
    || q == p
    || q == Spec(p.durable, p.visible, p.open + 1)                     // an operation begins
    || p == Spec(q.durable, q.visible, q.open + 1)                     // an operation ends
    || (p.open > 0 && OneBlock(p.visible, q.visible)
        && q == Spec(p.durable, q.visible, p.open))                    // an operation writes
    || (p.open == 0 && q == Spec(p.visible, p.visible, 0))             // the group commits
    || q == Spec(p.durable, p.durable, 0)                              // the machine crashes
  }

  /** `e` is `d` with at most one block replaced. */
  ghost predicate OneBlock(d: Disk, e: Disk) {
    |d| == |e| && exists b: nat :: b < |d| && e == d[b := e[b]]
  }

  // ---- The refinement mapping -------------------------------------------------------

  /** The invariant, with the consequence that the disk can be recovered at any moment. */
  ghost predicate Ok(c: Config, s: State) {
    Inv(c, s) && c.Contained() && GoodDisk(c.lay, s.disk)
  }

  ghost function VisibleAt(c: Config, s: State, b: nat): Block
    requires Ok(c, s) && b < c.nblocks
  {
    match s.phase
    case Running => View(s.disk, s.pins)[b]
    case Committing(t, _) => t.view[b]
    case Recovering(_, _) => Durable(c.lay, s.disk, b)
  }

  ghost function DurableAt(c: Config, s: State, b: nat): Block
    requires Ok(c, s) && b < c.nblocks
  {
    Durable(c.lay, s.disk, b)
  }

  /** The log area is not part of the abstract disk: its blocks read as zero. */
  ghost function DurableDisk(c: Config, s: State): (d: Disk)
    requires Ok(c, s)
    ensures |d| == c.nblocks
  {
    seq(c.nblocks, b requires 0 <= b < c.nblocks => if c.lay.InLog(b) then Zeros() else DurableAt(c, s, b))
  }

  ghost function VisibleDisk(c: Config, s: State): (d: Disk)
    requires Ok(c, s)
    ensures |d| == c.nblocks
  {
    seq(c.nblocks, b requires 0 <= b < c.nblocks => if c.lay.InLog(b) then Zeros() else VisibleAt(c, s, b))
  }

  ghost function Abs(c: Config, s: State): Spec
    requires Ok(c, s)
  {
    Spec(DurableDisk(c, s), VisibleDisk(c, s), |s.ops|)
  }

  lemma SameDurableAbs(c: Config, s: State, t: State)
    requires Ok(c, s) && Ok(c, t)
    requires forall b: nat :: c.Home(b) ==> DurableAt(c, t, b) == DurableAt(c, s, b)
    ensures Abs(c, t).durable == Abs(c, s).durable
  {
  }

  lemma SameVisibleAbs(c: Config, s: State, t: State)
    requires Ok(c, s) && Ok(c, t)
    requires forall b: nat :: c.Home(b) ==> VisibleAt(c, t, b) == VisibleAt(c, s, b)
    ensures Abs(c, t).visible == Abs(c, s).visible
  {
  }

  // ---- Each step refines ------------------------------------------------------------

  lemma OneBlockIs(d: Disk, e: Disk, b: nat)
    requires |d| == |e| && b < |d| && forall x: nat :: x < |d| && x != b ==> e[x] == d[x]
    ensures OneBlock(d, e)
  {
    assert e == d[b := e[b]];
  }

  lemma LogAppendAt(c: Config, s: State, i: nat, x: nat)
    requires Ok(c, s) && Enabled(c, s, LogAppend(i)) && Ok(c, Step(c, s, LogAppend(i))) && c.Home(x)
    ensures DurableAt(c, Step(c, s, LogAppend(i)), x) == DurableAt(c, s, x)
    ensures x != s.ops[i].call.value.b ==> VisibleAt(c, Step(c, s, LogAppend(i)), x) == VisibleAt(c, s, x)
  {
    assert s.phase.Running?;
  }

  lemma LogAppendRefines(c: Config, s: State, i: nat)
    requires Ok(c, s) && Enabled(c, s, LogAppend(i)) && Ok(c, Step(c, s, LogAppend(i)))
    ensures SpecNext(Abs(c, s), Abs(c, Step(c, s, LogAppend(i))))
    ensures Abs(c, Step(c, s, LogAppend(i))).visible == Put(Abs(c, s).visible, Write(s.ops[i].call.value.b, s.ops[i].call.value.data))
  {
    var t := Step(c, s, LogAppend(i));
    var b := s.ops[i].call.value.b;
    assert OpOk(c, s, i);
    forall x: nat | c.Home(x)
      ensures DurableAt(c, t, x) == DurableAt(c, s, x)
      ensures x != b ==> VisibleAt(c, t, x) == VisibleAt(c, s, x)
    {
      LogAppendAt(c, s, i, x);
    }
    SameDurableAbs(c, s, t);
    VisibleButOne(c, s, t, b);
    VisibleNow(c, s, t, b, s.ops[i].call.value.data);
  }

  lemma VisibleNow(c: Config, s: State, t: State, b: nat, data: Block)
    requires Ok(c, s) && Ok(c, t) && c.Home(b) && VisibleAt(c, t, b) == data
    requires forall x: nat :: c.Home(x) && x != b ==> VisibleAt(c, t, x) == VisibleAt(c, s, x)
    ensures VisibleDisk(c, t) == Put(VisibleDisk(c, s), Write(b, data))
  {
  }

  lemma VisibleButOne(c: Config, s: State, t: State, b: nat)
    requires Ok(c, s) && Ok(c, t) && c.Home(b)
    requires forall x: nat :: c.Home(x) && x != b ==> VisibleAt(c, t, x) == VisibleAt(c, s, x)
    ensures OneBlock(VisibleDisk(c, s), VisibleDisk(c, t))
  {
    OneBlockIs(VisibleDisk(c, s), VisibleDisk(c, t), b);
  }

  lemma BeginTestEndRefine(c: Config, s: State, a: Action)
    requires Ok(c, s) && Enabled(c, s, a) && (a.Begin? || a.LogTest? || a.End?) && Ok(c, Step(c, s, a))
    ensures SpecNext(Abs(c, s), Abs(c, Step(c, s, a))) && Abs(c, Step(c, s, a)).visible == Abs(c, s).visible
  {
    var t := Step(c, s, a);
    assert s.phase.Running?;
    SameDurableAbs(c, s, t);
    SameVisibleAbs(c, s, t);
  }

  lemma CommittingAt(c: Config, s: State, b: nat)
    requires Ok(c, s) && s.phase.Committing? && c.Home(b)
    ensures VisibleAt(c, s, b) == s.phase.txn.view[b]
    ensures DurableAt(c, s, b) == if s.phase.k > |s.lh| then s.phase.txn.view[b] else s.phase.txn.disk[b]
  {
    if |s.lh| < NBUF {
      CommitPrefix(s.phase.txn, s.phase.k);
    }
  }

  /** The header write is the commit: before it and after it nothing durable changes. */
  lemma CommitWriteRefines(c: Config, s: State)
    requires Ok(c, s) && Enabled(c, s, CommitWrite) && Ok(c, Step(c, s, CommitWrite))
    ensures var p, q := Abs(c, s), Abs(c, Step(c, s, CommitWrite));
            p.open == 0 && q == if s.phase.k == |s.lh| then Spec(p.visible, p.visible, 0) else p
  {
    var t := Step(c, s, CommitWrite);
    forall b: nat | c.Home(b)
      ensures VisibleAt(c, t, b) == VisibleAt(c, s, b)
      ensures DurableAt(c, t, b) == if s.phase.k == |s.lh| then VisibleAt(c, s, b) else DurableAt(c, s, b)
    {
      CommitWriteAt(c, s, b);
    }
    SameVisibleAbs(c, s, t);
    if s.phase.k == |s.lh| {
      BecomesDurable(c, s, t);
    } else {
      SameDurableAbs(c, s, t);
    }
  }

  lemma CommitWriteAt(c: Config, s: State, b: nat)
    requires Ok(c, s) && Enabled(c, s, CommitWrite) && Ok(c, Step(c, s, CommitWrite)) && c.Home(b)
    ensures var t := Step(c, s, CommitWrite);
            && VisibleAt(c, t, b) == VisibleAt(c, s, b)
            && DurableAt(c, t, b) == if s.phase.k == |s.lh| then VisibleAt(c, s, b) else DurableAt(c, s, b)
  {
    CommittingAt(c, s, b);
    CommittingAt(c, Step(c, s, CommitWrite), b);
  }

  lemma BecomesDurable(c: Config, s: State, t: State)
    requires Ok(c, s) && Ok(c, t)
    requires forall b: nat :: c.Home(b) ==> DurableAt(c, t, b) == VisibleAt(c, s, b)
    ensures Abs(c, t).durable == Abs(c, s).visible
  {
  }

  lemma CommitDoneRefines(c: Config, s: State)
    requires Ok(c, s) && Enabled(c, s, CommitDone) && Ok(c, Step(c, s, CommitDone))
    ensures Abs(c, Step(c, s, CommitDone)) == Abs(c, s)
  {
    var t := Step(c, s, CommitDone);
    var Committing(txn, k) := s.phase;
    CommitShowsView(txn, s.pins);
    SameDurableAbs(c, s, t);
    SameVisibleAbs(c, s, t);
  }

  lemma RecoveringAt(c: Config, s: State, b: nat)
    requires Ok(c, s) && s.phase.Recovering? && c.Home(b)
    ensures DurableAt(c, s, b) == VisibleAt(c, s, b) == Durable(c.lay, s.phase.rec.disk, b)
  {
    RecoverPrefix(c.lay, s.phase.rec.disk, s.phase.k);
  }

  lemma RecoverWriteRefines(c: Config, s: State)
    requires Ok(c, s) && Enabled(c, s, RecoverWrite) && Ok(c, Step(c, s, RecoverWrite))
    ensures Abs(c, Step(c, s, RecoverWrite)) == Abs(c, s)
  {
    var t := Step(c, s, RecoverWrite);
    forall b: nat | c.Home(b) ensures DurableAt(c, t, b) == DurableAt(c, s, b) && VisibleAt(c, t, b) == VisibleAt(c, s, b) {
      RecoveringAt(c, s, b);
      RecoveringAt(c, t, b);
    }
    SameDurableAbs(c, s, t);
    SameVisibleAbs(c, s, t);
  }

  lemma RecoverDoneRefines(c: Config, s: State)
    requires Ok(c, s) && Enabled(c, s, RecoverDone) && Ok(c, Step(c, s, RecoverDone))
    ensures Abs(c, Step(c, s, RecoverDone)) == Abs(c, s)
  {
    RecoverPrefix(c.lay, s.phase.rec.disk, s.phase.k);
    SameDurableAbs(c, s, Step(c, s, RecoverDone));
    SameVisibleAbs(c, s, Step(c, s, RecoverDone));
  }

  lemma CrashRefines(c: Config, s: State)
    requires Ok(c, s) && Enabled(c, s, Crash) && Ok(c, Step(c, s, Crash))
    ensures Abs(c, Step(c, s, Crash)) == Spec(Abs(c, s).durable, Abs(c, s).durable, 0)
  {
    var t := Step(c, s, Crash);
    SameDurableAbs(c, s, t);
    assert Abs(c, t).visible == Abs(c, s).durable;
  }

  /** Forward simulation: every step of the logging system is a step of the atomic disk. */
  lemma StepRefines(c: Config, s: State, a: Action)
    requires Ok(c, s) && Enabled(c, s, a)
    ensures Ok(c, Step(c, s, a))
    ensures SpecNext(Abs(c, s), Abs(c, Step(c, s, a)))
  {
    StepKeeps(c, s, a);
    CrashSafe(c, Step(c, s, a));
    match a
    case Begin => BeginTestEndRefine(c, s, a);
    case LogTest(_, _, _) => BeginTestEndRefine(c, s, a);
    case LogAppend(i) => LogAppendRefines(c, s, i);
    case End(_) => BeginTestEndRefine(c, s, a);
    case CommitWrite => CommitWriteRefines(c, s);
    case CommitDone => CommitDoneRefines(c, s);
    case RecoverWrite => RecoverWriteRefines(c, s);
    case RecoverDone => RecoverDoneRefines(c, s);
    case Crash => CrashRefines(c, s);
  }

  // ---- Whole runs -------------------------------------------------------------------

  lemma RunOk(c: Config, run: seq<State>, n: nat)
    requires c.Good() && c.Contained() && IsRun(c, run) && n < |run|
    ensures Ok(c, run[n])
  {
    RunKeeps(c, run, n);
    CrashSafe(c, run[n]);
  }

  /** Durable blocks change only to what is visible while no operation is open. */
  lemma SpecDurable(p: Spec, q: Spec)
    requires SpecNext(p, q)
    ensures q.durable == p.durable || (p.open == 0 && q.durable == p.visible)
  {
  }

  /** At moment `m` no operation was open, and what was visible was `d`. */
  ghost predicate ShowedQuietly(c: Config, run: seq<State>, m: nat, d: Disk) {
    m < |run| && Ok(c, run[m]) && Abs(c, run[m]).open == 0 && Abs(c, run[m]).visible == d
  }

  lemma StepQuiescent(c: Config, s: State, t: State)
    requires Ok(c, s) && Next(c, s, t)
    ensures Ok(c, t)
    ensures Abs(c, t).durable == Abs(c, s).durable || (Abs(c, s).open == 0 && Abs(c, t).durable == Abs(c, s).visible)
  {
    var a :| Enabled(c, s, a) && t == Step(c, s, a);
    StepRefines(c, s, a);
    SpecDurable(Abs(c, s), Abs(c, t));
  }

  /** In every run, what a crash would keep is exactly what was visible at some earlier moment
      when no operation was open: a crash never exposes part of an operation. */
  lemma {:induction false} DurableWasQuiescent(c: Config, run: seq<State>, n: nat)
    requires c.Good() && c.Contained() && IsRun(c, run) && n < |run|
    ensures Ok(c, run[n])
    ensures exists m: nat :: m <= n && ShowedQuietly(c, run, m, Abs(c, run[n]).durable)
  {
    RunOk(c, run, n);
    if n == 0 {
      SameAtBoot(c, run[n]);
      assert ShowedQuietly(c, run, 0, Abs(c, run[n]).durable);
    } else {
      var p := n - 1;
      DurableWasQuiescent(c, run, p);
      var m: nat :| m <= p && ShowedQuietly(c, run, m, Abs(c, run[p]).durable);
      assert Next(c, run[p], run[p + 1]);
      StepQuiescent(c, run[p], run[n]);
      assert ShowedQuietly(c, run, m, Abs(c, run[n]).durable) || ShowedQuietly(c, run, p, Abs(c, run[n]).durable);
    }
  }

  lemma SameAtBoot(c: Config, s: State)
    requires Ok(c, s) && s.phase.Recovering?
    ensures Abs(c, s).visible == Abs(c, s).durable
  {
  }
}
