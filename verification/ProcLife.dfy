/** The life of a process, step by step: which step takes it from which state to which, who becomes its
    parent and which pid it has; and what a scheduler looks at between taking and releasing the lock. */
module ProcLife {
  import opened ProcTable
  import opened Options
  import opened ProcInvariants
  import opened ProcScans
  import opened ProcTheorems

  /** CPU `c` runs process `i`. */
  predicate RunBy(s: State, c: nat, i: nat) {
    c < |s.cpus| && s.cpus[c].mode == InProc(i)
  }

  /** Process `i` is being created by the process that CPU `c` runs. */
  predicate MadeBy(s: State, c: nat, i: nat) {
    c < |s.cpus| && i < |s.procs| && s.cpus[c].mode.InProc? && s.procs[i].maker == Some(s.cpus[c].mode.i)
  }

  /** The step wakes the sleeper `i`: a wakeup of its channel, kill, or the exit of a process its wait
      concerns. */
  predicate Wakes(s: State, c: nat, a: Action, i: nat)
    requires c < |s.cpus| && i < |s.procs|
  {
    match a
    case Wakeup(chan) => chan == s.procs[i].chan
    case Spurious(j) => j == i
    case Exit => s.cpus[c].mode.InProc? && s.cpus[c].mode.i < |s.procs| && LeavesWait(s.procs, s.cpus[c].mode.i, s.procs[i].chan)
    case _ => false
  }

  /** The state of process `i` after a step. */
  function StateAfter(s: State, c: nat, a: Action, i: nat): PState
    requires c < |s.cpus| && i < |s.procs|
  {
    match s.procs[i].state
    case UNUSED => if a == ForkAlloc(i) then EMBRYO else UNUSED
    case EMBRYO => if MadeBy(s, c, i) && a == ForkPublish then RUNNABLE else if MadeBy(s, c, i) && a == ForkFail then UNUSED else EMBRYO
    case RUNNABLE => if a == SchedDispatch && s.cpus[c].mode == Scan(i) then RUNNING else RUNNABLE
    case RUNNING =>
      if !RunBy(s, c, i) then RUNNING
      else if a == Yield then RUNNABLE
      else if a == WaitSleep || a == SleepSwitch then SLEEPING
      else if a == Exit then ZOMBIE
      else RUNNING
    case SLEEPING => if Wakes(s, c, a, i) then RUNNABLE else SLEEPING
    case ZOMBIE => if a == WaitReap(i) then UNUSED else ZOMBIE
  }

  function ParentAfter(s: State, c: nat, a: Action, i: nat): Option<nat>
    requires c < |s.cpus| && i < |s.procs|
  {
    if a == WaitReap(i) then None
    else if a == ForkLink && s.procs[i].state == EMBRYO && MadeBy(s, c, i) then s.procs[i].maker
    else if a == Exit && s.cpus[c].mode.InProc? && s.procs[i].parent == Some(s.cpus[c].mode.i) then Some(INIT)
    else s.procs[i].parent
  }

  function PidAfter(s: State, a: Action, i: nat): int
    requires i < |s.procs|
  {
    if a == WaitReap(i) then 0 else if a == ForkAlloc(i) then s.nextpid else s.procs[i].pid
  }

  predicate Follows(s: State, c: nat, a: Action, t: State, i: nat)
    requires c < |s.cpus| && i < |s.procs|
  {
    && |t.procs| == |s.procs| && t.procs[i].state == StateAfter(s, c, a, i)
    && t.procs[i].parent == ParentAfter(s, c, a, i) && t.procs[i].pid == PidAfter(s, a, i)
  }

  lemma SchedFollows(s: State, c: nat, a: Action, i: nat)
    requires c < |s.cpus| && i < |s.procs| && KindOf(a) == OfSched && SchedEnabled(s, c, a)
    ensures Follows(s, c, a, SchedStep(s, c, a), i)
  {
  }

  lemma WakeupFollows(s: State, c: nat, a: Action, i: nat)
    requires c < |s.cpus| && i < |s.procs| && KindOf(a) == OfWakeup && WakeupEnabled(s, c, a)
    ensures Follows(s, c, a, WakeupStep(s, c, a), i)
  {
  }

  lemma Unaffected(s: State, c: nat, a: Action, i: nat)
    requires c < |s.cpus| && i < |s.procs| && (KindOf(a) == OfLock || KindOf(a) == OfSelf)
    ensures StateAfter(s, c, a, i) == s.procs[i].state && ParentAfter(s, c, a, i) == s.procs[i].parent && PidAfter(s, a, i) == s.procs[i].pid
  {
  }

  lemma LockFollows(k: Clients, s: State, c: nat, m: nat, a: Action, i: nat)
    requires |s.data| == |s.held| && i < |s.procs| && RunBy(s, c, m) && KindOf(a) == OfLock && LockEnabled(k, s, m, a)
    ensures Follows(s, c, a, LockStep(k, s, m, a), i)
  {
    Unaffected(s, c, a, i);
  }

  lemma SelfFollows(k: Clients, s: State, c: nat, m: nat, a: Action, i: nat)
    requires |s.data| == |s.held| && i < |s.procs| && RunBy(s, c, m) && m < |s.procs| && KindOf(a) == OfSelf && SelfEnabled(k, s, m, a)
    ensures Follows(s, c, a, SelfStep(k, s, c, m, a), i)
  {
    Unaffected(s, c, a, i);
  }

  lemma LeaveFollows(s: State, c: nat, m: nat, a: Action, i: nat)
    requires i < |s.procs| && RunBy(s, c, m) && CpuOk(s, c) && KindOf(a) == OfLeave && LeaveEnabled(s, m, a)
    ensures Follows(s, c, a, LeaveStep(s, c, m, a), i)
  {
  }

  lemma ForkFollows(s: State, c: nat, m: nat, a: Action, i: nat)
    requires i < |s.procs| && RunBy(s, c, m) && CpuOk(s, c) && ForkOk(s, m) && ForkOk(s, i) && KindOf(a) == OfFork && ForkEnabled(s, m, a)
    ensures Follows(s, c, a, ForkStep(s, m, a), i)
  {
  }

  lemma ExitFollows(s: State, c: nat, m: nat, i: nat)
    requires i < |s.procs| && RunBy(s, c, m) && CpuOk(s, c) && ExitEnabled(s, m)
    ensures Follows(s, c, Exit, ExitStep(s, c, m), i)
  {
    ExitTableIs(s.procs, m, i);
    ExitFate(s, c, m, i, ExitTable(s.procs, m)[i]);
  }

  lemma ExitFate(s: State, c: nat, m: nat, i: nat, q: Proc)
    requires i < |s.procs| && RunBy(s, c, m) && CpuOk(s, c) && AfterExit(s.procs, m, i, q)
    ensures q.state == StateAfter(s, c, Exit, i) && q.parent == ParentAfter(s, c, Exit, i) && q.pid == PidAfter(s, Exit, i)
  {
  }

  lemma ReapFollows(s: State, c: nat, m: nat, j: nat, i: nat)
    requires i < |s.procs| && RunBy(s, c, m) && CpuOk(s, c) && ReapEnabled(s, m, j)
    ensures Follows(s, c, WaitReap(j), ReapStep(s, m, j), i)
  {
  }

  lemma StepFollows(k: Clients, s: State, c: nat, a: Action, t: State, i: nat)
    requires Inv(k, s) && Next(k, s, c, a) == Some(t) && i < |s.procs|
    ensures c < |s.cpus| && Follows(s, c, a, t, i)
  {
    var m := if s.cpus[c].mode.InProc? then s.cpus[c].mode.i else 0;
    match KindOf(a)
    case OfSched => SchedFollows(s, c, a, i);
    case OfWakeup => WakeupFollows(s, c, a, i);
    case OfLock => LockFollows(k, s, c, m, a, i);
    case OfSelf => SelfFollows(k, s, c, m, a, i);
    case OfLeave =>
      assert CpuOk(s, c);
      LeaveFollows(s, c, m, a, i);
    case OfFork =>
      assert CpuOk(s, c) && SlotOk(k, s, i) && SlotOk(k, s, m);
      ForkFollows(s, c, m, a, i);
    case OfExit =>
      assert CpuOk(s, c);
      ExitFollows(s, c, m, i);
    case OfReap =>
      assert CpuOk(s, c);
      ReapFollows(s, c, m, a.j, i);
  }

  /** In every run, every step leaves every process in the state the table above gives it, with that
      parent and pid. */
  lemma LifeCycle(k: Clients, s: State, c: nat, a: Action, t: State, i: nat)
    requires Disciplined(k) && Reachable(k, s) && Next(k, s, c, a) == Some(t) && i < |s.procs|
    ensures c < |s.cpus| && Follows(s, c, a, t, i)
  {
    Invariant(k, s);
    StepFollows(k, s, c, a, t, i);
  }

  /** A sleeper is woken by exactly the steps that concern it, and nothing but its state changes then
      unless its parent exits. */
  lemma SleepsUntilWoken(k: Clients, s: State, c: nat, a: Action, t: State, i: nat)
    requires Disciplined(k) && Reachable(k, s) && Next(k, s, c, a) == Some(t) && i < |s.procs| && s.procs[i].state == SLEEPING
    ensures c < |s.cpus| && |t.procs| == |s.procs|
    ensures t.procs[i].state == if Wakes(s, c, a, i) then RUNNABLE else SLEEPING
    ensures a.Wakeup? && a.chan != s.procs[i].chan ==> t.procs[i] == s.procs[i]
  {
    LifeCycle(k, s, c, a, t, i);
  }

  // ---- The scheduler's pass over the table ---------------------------------------------------

  /** CPU `c`'s scheduler finds slot `j` not runnable, or runs the process in it. */
  predicate LooksAt(s: State, c: nat, a: Action, j: nat) {
    && c < |s.cpus| && j < |s.procs| && s.cpus[c].mode == Scan(j)
    && ((a == SchedSkip && s.procs[j].state != RUNNABLE) || (a == SchedDispatch && s.procs[j].state == RUNNABLE))
  }

  ghost predicate LookedNow(k: Clients, before: History, c: nat, a: Action, j: nat) {
    exists s :: IsRun(k, before, s) && LooksAt(s, c, a, j)
  }

  /** CPU `c` has looked at slot `j` since it last took ptable.lock in its scheduler. */
  ghost predicate Looked(k: Clients, r: History, c: nat, j: nat) {
    match r
    case Begin(_) => false
    case More(before, d, a) =>
      if d != c then Looked(k, before, c, j)
      else a != SchedAcquire && (Looked(k, before, c, j) || LookedNow(k, before, c, a, j))
  }

  /** How far a pass has come: slot `j` is behind it. */
  predicate Behind(m: Mode, j: nat) {
    match m
    case Idle => false
    case Scan(i) => j < i
    case InProc(i) => j <= i
    case Returned(i) => j <= i
  }

  lemma SchedMoves(s: State, c: nat, a: Action, j: nat)
    requires c < |s.cpus| && SchedEnabled(s, c, a)
    ensures var t := SchedStep(s, c, a);
            && |t.procs| == |s.procs| && |t.cpus| == |s.cpus| && (forall d :: 0 <= d < |s.cpus| && d != c ==> t.cpus[d] == s.cpus[d])
            && (Behind(t.cpus[c].mode, j) ==> a != SchedAcquire && (Behind(s.cpus[c].mode, j) || LooksAt(s, c, a, j)))
  {
  }

  /** A process keeps its CPU, or hands it back to the scheduler where it left off. */
  lemma ProcMoves(k: Clients, s: State, c: nat, m: nat, a: Action)
    requires RunBy(s, c, m) && m < |s.procs| && |s.data| == |s.held| && ProcEnabled(k, s, m, a)
    ensures var t := ProcStep(k, s, c, m, a);
            |t.procs| == |s.procs| && (t.cpus == s.cpus || t.cpus == s.cpus[c := Cpu(Some(m), Returned(m))])
  {
  }

  /** A step moves its own CPU only. A pass begins at slot 0 and moves on by one slot at a time, at that
      slot. */
  lemma PassMoves(k: Clients, s: State, c: nat, a: Action, t: State, j: nat)
    requires Next(k, s, c, a) == Some(t)
    ensures c < |s.cpus| == |t.cpus| && |t.procs| == |s.procs| && forall d :: 0 <= d < |s.cpus| && d != c ==> t.cpus[d] == s.cpus[d]
    ensures Behind(t.cpus[c].mode, j) ==> a != SchedAcquire && (Behind(s.cpus[c].mode, j) || LooksAt(s, c, a, j))
  {
    match KindOf(a)
    case OfSched => SchedMoves(s, c, a, j);
    case OfWakeup =>
    case _ => ProcMoves(k, s, c, s.cpus[c].mode.i, a);
  }

  lemma {:induction false} PassLooks(k: Clients, r: History, s: State, c: nat, j: nat)
    requires IsRun(k, r, s) && c < |s.cpus| && j < |s.procs| && Behind(s.cpus[c].mode, j)
    ensures Looked(k, r, c, j)
  {
    match r
    case Begin(_) =>
    case More(before, d, a) =>
      var t :| IsRun(k, before, t) && Next(k, t, d, a) == Some(s);
      PassMoves(k, t, d, a, s, j);
      if Behind(t.cpus[c].mode, j) {
        PassLooks(k, before, t, c, j);
      } else {
        assert d == c && LooksAt(t, c, a, j);
        assert LookedNow(k, before, c, a, j);
      }
  }

  /** A scheduler that gives up ptable.lock at the end of its pass has looked at every slot since it took
      it: each was found not runnable, or its process was run. */
  lemma WholePass(k: Clients, r: History, s: State, c: nat, j: nat)
    requires IsRun(k, r, s) && Next(k, s, c, SchedRelease).Some? && j < |s.procs|
    ensures Looked(k, r, c, j)
  {
    PassLooks(k, r, s, c, j);
  }
}
