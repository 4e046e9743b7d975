/** fork, exit and wait keep the process table invariant; so does every step of every run. */
module ProcFamily {
  import opened ProcTable
  import opened Options
  import opened ProcInvariants

  // ---- fork -------------------------------------------------------------------------

  function ChildOf(s: State, i: nat, a: Action): nat
    requires i < |s.procs| && ForkEnabled(s, i, a)
  {
    if a.ForkAlloc? then a.j else s.procs[i].task.child
  }

  /** A live process stays live, and does not fall asleep in wait. */
  predicate KeepsAlive(s: State, t: State, y: nat)
    requires y < |s.procs| && y < |t.procs|
  {
    Alive(s.procs[y]) ==> Alive(t.procs[y]) && (AsleepInWait(t.procs[y], y) ==> AsleepInWait(s.procs[y], y))
  }

  /** A slot that a step does not touch stays in order if those it refers to do. */
  lemma Bystander(k: Clients, s: State, t: State, x: nat)
    requires Inv(k, s) && x < |s.procs| && |t.procs| == |s.procs|
    requires t.procs[x] == s.procs[x] && t.cpus == s.cpus && t.held == s.held && t.data == s.data && t.owed == s.owed && t.lost == s.lost
    requires t.exited == s.exited && t.nextpid >= s.nextpid
    requires s.procs[x].state == ZOMBIE ==> t.reaped[s.procs[x].pid] == s.reaped[s.procs[x].pid]
    requires s.procs[x].on.Some? && s.procs[x].on == s.lock ==> t.lock == s.lock
    requires forall y :: 0 <= y < |s.procs| ==> KeepsAlive(s, t, y)
    requires s.procs[x].state == EMBRYO ==> ForkOk(s, x) && t.procs[s.procs[x].maker.value].task == s.procs[s.procs[x].maker.value].task
    requires s.procs[x].task != NoTask ==> ForkOk(s, x) && t.procs[s.procs[x].task.child] == s.procs[s.procs[x].task.child]
    ensures SlotOk(k, t, x)
  {
    assert SlotOk(k, s, x);
    if s.procs[x].parent.Some? {
      assert KeepsAlive(s, t, s.procs[x].parent.value);
    }
  }

  lemma ForkAlive(k: Clients, s: State, c: nat, i: nat, a: Action)
    requires Running(k, s, c, i) && ForkEnabled(s, i, a)
    ensures forall y :: 0 <= y < |s.procs| ==> KeepsAlive(s, ForkStep(s, i, a), y)
  {
    assert CpuOk(s, c) && SlotOk(k, s, i) && SlotOk(k, s, ChildOf(s, i, a));
  }

  /** Only the caller and the child change. */
  lemma ForkTouches(s: State, i: nat, a: Action, y: nat)
    requires i < |s.procs| && ForkEnabled(s, i, a) && y < |s.procs| && y != i && y != ChildOf(s, i, a)
    ensures |ForkStep(s, i, a).procs| == |s.procs| && ForkStep(s, i, a).procs[y] == s.procs[y]
  {
  }

  /** An unfinished fork of another process is not the caller's. */
  lemma ForkApart(k: Clients, s: State, c: nat, i: nat, a: Action, x: nat)
    requires Running(k, s, c, i) && ForkEnabled(s, i, a) && x < |s.procs| && x != i && x != ChildOf(s, i, a)
    ensures ForkOk(s, x)
    ensures s.procs[x].state == EMBRYO ==> s.procs[x].maker.value != i && s.procs[x].maker.value != ChildOf(s, i, a)
    ensures s.procs[x].task != NoTask ==> s.procs[x].task.child != i && s.procs[x].task.child != ChildOf(s, i, a)
  {
    assert SlotOk(k, s, i) && SlotOk(k, s, x) && SlotOk(k, s, ChildOf(s, i, a)) && CpuOk(s, c);
  }

  lemma ForkOther(k: Clients, s: State, c: nat, i: nat, a: Action, x: nat)
    requires Running(k, s, c, i) && ForkEnabled(s, i, a) && x < |s.procs| && x != i && x != ChildOf(s, i, a)
    ensures SlotOk(k, ForkStep(s, i, a), x)
  {
    ForkTouches(s, i, a, x);
    ForkApart(k, s, c, i, a, x);
    if s.procs[x].state == EMBRYO {
      ForkTouches(s, i, a, s.procs[x].maker.value);
    }
    if s.procs[x].task != NoTask {
      ForkTouches(s, i, a, s.procs[x].task.child);
    }
    ForkAlive(k, s, c, i, a);
    Bystander(k, s, ForkStep(s, i, a), x);
  }

  lemma ForkParent(k: Clients, s: State, c: nat, i: nat, a: Action)
    requires Running(k, s, c, i) && ForkEnabled(s, i, a)
    ensures SlotOk(k, ForkStep(s, i, a), i)
  {
    assert CpuOk(s, c) && SlotOk(k, s, i) && SlotOk(k, s, ChildOf(s, i, a));
  }

  lemma ForkChild(k: Clients, s: State, c: nat, i: nat, a: Action)
    requires Running(k, s, c, i) && ForkEnabled(s, i, a)
    ensures SlotOk(k, ForkStep(s, i, a), ChildOf(s, i, a))
  {
    assert CpuOk(s, c) && SlotOk(k, s, i) && SlotOk(k, s, ChildOf(s, i, a));
    assert PidDone(s, s.nextpid);
  }

  /** A slot in use keeps its pid; the child's is either its own or one never used. */
  lemma ForkPid(k: Clients, s: State, c: nat, i: nat, a: Action, x: nat)
    requires Running(k, s, c, i) && ForkEnabled(s, i, a) && x < |s.procs|
    ensures var p, q := s.procs[x], ForkStep(s, i, a).procs[x];
            if a.ForkAlloc? && x == a.j then q.pid == s.nextpid
            else q.pid == p.pid && (q.state != UNUSED ==> p.state != UNUSED && p.pid < s.nextpid)
  {
    assert CpuOk(s, c) && SlotOk(k, s, i) && SlotOk(k, s, x) && SlotOk(k, s, ChildOf(s, i, a));
  }

  lemma ForkPids(k: Clients, s: State, c: nat, i: nat, a: Action, x: nat, y: nat)
    requires Running(k, s, c, i) && ForkEnabled(s, i, a) && x < |s.procs| && y < |s.procs|
    ensures PidsDiffer(ForkStep(s, i, a), x, y)
  {
    assert PidsDiffer(s, x, y);
    ForkPid(k, s, c, i, a, x);
    ForkPid(k, s, c, i, a, y);
  }

  lemma ForkDone(k: Clients, s: State, c: nat, i: nat, a: Action, pid: int)
    requires Running(k, s, c, i) && ForkEnabled(s, i, a)
    ensures PidDone(ForkStep(s, i, a), pid)
  {
    assert CpuOk(s, c) && SlotOk(k, s, i) && PidDone(s, pid) && SlotOk(k, s, ChildOf(s, i, a));
  }

  lemma ForkCpu(k: Clients, s: State, c: nat, i: nat, a: Action, d: nat)
    requires Running(k, s, c, i) && ForkEnabled(s, i, a) && d < |s.cpus|
    ensures CpuOk(ForkStep(s, i, a), d)
  {
    assert CpuOk(s, c) && CpuOk(s, d) && SlotOk(k, s, i) && SlotOk(k, s, ChildOf(s, i, a));
  }

  lemma ForkKeeps(k: Clients, s: State, c: nat, i: nat, a: Action)
    requires Running(k, s, c, i) && ForkEnabled(s, i, a)
    ensures Inv(k, ForkStep(s, i, a))
  {
    var t := ForkStep(s, i, a);
    forall x | 0 <= x < |t.procs| ensures SlotOk(k, t, x) {
      if x == i {
        ForkParent(k, s, c, i, a);
      } else if x == ChildOf(s, i, a) {
        ForkChild(k, s, c, i, a);
      } else {
        ForkOther(k, s, c, i, a, x);
      }
    }
    forall x, y | 0 <= x < |t.procs| && 0 <= y < |t.procs| ensures PidsDiffer(t, x, y) {
      ForkPids(k, s, c, i, a, x, y);
    }
    forall pid ensures PidDone(t, pid) {
      ForkDone(k, s, c, i, a, pid);
    }
    forall d | 0 <= d < |t.cpus| ensures CpuOk(t, d) {
      ForkCpu(k, s, c, i, a, d);
    }
    forall ch | ch in t.owed ensures OwedOk(k, t, ch) {
      assert OwedOk(k, s, ch);
    }
  }

  // ---- wait -------------------------------------------------------------------------

  lemma ReapOther(k: Clients, s: State, c: nat, i: nat, j: nat, x: nat)
    requires Running(k, s, c, i) && ReapEnabled(s, i, j) && x < |s.procs| && x != i && x != j
    ensures SlotOk(k, ReapStep(s, i, j), x)
  {
    assert SlotOk(k, s, i) && SlotOk(k, s, x) && SlotOk(k, s, j) && CpuOk(s, c) && PidsDiffer(s, x, j);
    var t := ReapStep(s, i, j);
    forall y | 0 <= y < |s.procs| ensures KeepsAlive(s, t, y) {
      assert SlotOk(k, s, y);
    }
    Bystander(k, s, t, x);
  }

  lemma ReapTwo(k: Clients, s: State, c: nat, i: nat, j: nat)
    requires Running(k, s, c, i) && ReapEnabled(s, i, j)
    ensures SlotOk(k, ReapStep(s, i, j), i) && SlotOk(k, ReapStep(s, i, j), j)
  {
    assert SlotOk(k, s, i) && SlotOk(k, s, j) && CpuOk(s, c);
  }

  lemma ReapPids(k: Clients, s: State, c: nat, i: nat, j: nat)
    requires Running(k, s, c, i) && ReapEnabled(s, i, j)
    ensures forall x, y :: 0 <= x < |s.procs| && 0 <= y < |s.procs| ==> PidsDiffer(ReapStep(s, i, j), x, y)
    ensures forall pid :: PidDone(ReapStep(s, i, j), pid)
  {
    assert CpuOk(s, c) && SlotOk(k, s, i) && SlotOk(k, s, j);
    var t := ReapStep(s, i, j);
    forall x, y | 0 <= x < |s.procs| && 0 <= y < |s.procs| ensures PidsDiffer(t, x, y) {
      assert PidsDiffer(s, x, y);
    }
    forall pid ensures PidDone(t, pid) {
      assert PidDone(s, pid);
    }
  }

  lemma ReapKeeps(k: Clients, s: State, c: nat, i: nat, j: nat)
    requires Running(k, s, c, i) && ReapEnabled(s, i, j)
    ensures Inv(k, ReapStep(s, i, j))
  {
    var t := ReapStep(s, i, j);
    assert CpuOk(s, c) && SlotOk(k, s, i) && SlotOk(k, s, j);
    forall x | 0 <= x < |t.procs| ensures SlotOk(k, t, x) {
      if x == i || x == j {
        ReapTwo(k, s, c, i, j);
      } else {
        ReapOther(k, s, c, i, j, x);
      }
    }
    ReapPids(k, s, c, i, j);
    forall d | 0 <= d < |t.cpus| ensures CpuOk(t, d) {
      assert CpuOk(s, d);
    }
    forall ch | ch in t.owed ensures OwedOk(k, t, ch) {
      assert OwedOk(k, s, ch);
    }
  }

  // ---- exit -------------------------------------------------------------------------

  /** What exit does to the slot of another process. */
  lemma ExitOther(ps: seq<Proc>, me: nat, x: nat)
    requires me < |ps| && x < |ps| && x != me && ps[me].parent.Some?
    ensures var p, q := ps[x], ExitTable(ps, me)[x];
            && q.(state := p.state, parent := p.parent) == p
            && q.parent == (if p.parent == Some(me) then Some(INIT) else p.parent)
            && (q.state == p.state || (p.state == SLEEPING && q.state == RUNNABLE))
            && (AsleepInWait(p, x) && ps[me].parent == Some(x) ==> q.state == RUNNABLE)
            && (AsleepInWait(p, x) && x == INIT && HasZombieChild(ps, me) ==> q.state == RUNNABLE)
  {
    if HasZombieChild(ps, me) {
      var j :| 0 <= j < |ps| && ps[j].parent == Some(me) && ps[j].state == ZOMBIE;
      var woken := WakeAll(ps, OfProc(ps[me].parent.value));
      assert woken[j].parent == Some(me) && woken[j].state == ZOMBIE;
    }
  }

  lemma ExitMe(ps: seq<Proc>, me: nat)
    requires me < |ps| && ps[me].parent.Some? && ps[me].parent != Some(me) && ps[me].state == RUNNING
    ensures ExitTable(ps, me)[me] == ps[me].(state := ZOMBIE, run := Out(Exited), on := None)
  {
  }

  lemma ExitSlot(k: Clients, s: State, c: nat, i: nat, x: nat)
    requires Running(k, s, c, i) && ExitEnabled(s, i) && x < |s.procs| && x != i
    ensures StateOk(ExitStep(s, c, i), x) && PidOk(ExitStep(s, c, i), x)
  {
    assert CpuOk(s, c) && SlotOk(k, s, i) && SlotOk(k, s, x) && PidsDiffer(s, x, i);
    ExitOther(s.procs, i, x);
  }

  lemma ExitSleep(k: Clients, s: State, c: nat, i: nat, x: nat)
    requires Running(k, s, c, i) && ExitEnabled(s, i) && x < |s.procs| && x != i
    ensures SleepOk(k, ExitStep(s, c, i), x)
  {
    assert CpuOk(s, c) && SlotOk(k, s, i) && SlotOk(k, s, x);
    ExitOther(s.procs, i, x);
  }

  lemma ExitFamily(k: Clients, s: State, c: nat, i: nat, x: nat)
    requires Running(k, s, c, i) && ExitEnabled(s, i) && x < |s.procs| && x != i
    ensures FamilyOk(ExitStep(s, c, i), x)
  {
    assert CpuOk(s, c) && SlotOk(k, s, i) && SlotOk(k, s, x);
    ExitOther(s.procs, i, x);
    assert SlotOk(k, s, INIT);
    ExitOther(s.procs, i, INIT);
    if s.procs[x].parent.Some? && s.procs[x].parent != Some(i) {
      ExitOther(s.procs, i, s.procs[x].parent.value);
    }
  }

  lemma ExitFork(k: Clients, s: State, c: nat, i: nat, x: nat)
    requires Running(k, s, c, i) && ExitEnabled(s, i) && x < |s.procs| && x != i
    ensures ForkOk(ExitStep(s, c, i), x)
  {
    assert CpuOk(s, c) && SlotOk(k, s, i) && SlotOk(k, s, x);
    ExitOther(s.procs, i, x);
    var p := s.procs[x];
    if p.state == EMBRYO {
      ExitOther(s.procs, i, p.maker.value);
    }
    if p.task != NoTask {
      ExitOther(s.procs, i, p.task.child);
    }
  }

  lemma ExitOwn(k: Clients, s: State, c: nat, i: nat)
    requires Running(k, s, c, i) && ExitEnabled(s, i)
    ensures SlotOk(k, ExitStep(s, c, i), i)
  {
    assert CpuOk(s, c) && SlotOk(k, s, i) && PidDone(s, s.procs[i].pid);
    ExitMe(s.procs, i);
    var q := s.procs[i].parent.value;
    assert SlotOk(k, s, q);
    ExitOther(s.procs, i, q);
  }

  lemma ExitPids(k: Clients, s: State, c: nat, i: nat)
    requires Running(k, s, c, i) && ExitEnabled(s, i)
    ensures forall x, y :: 0 <= x < |s.procs| && 0 <= y < |s.procs| ==> PidsDiffer(ExitStep(s, c, i), x, y)
    ensures forall pid :: PidDone(ExitStep(s, c, i), pid)
  {
    assert CpuOk(s, c) && SlotOk(k, s, i);
    var t := ExitStep(s, c, i);
    ExitMe(s.procs, i);
    forall x | 0 <= x < |s.procs| ensures t.procs[x].pid == s.procs[x].pid && (t.procs[x].state == UNUSED <==> s.procs[x].state == UNUSED) && (s.procs[x].state == ZOMBIE ==> t.procs[x].state == ZOMBIE) {
      if x != i {
        ExitOther(s.procs, i, x);
      }
    }
    forall x, y | 0 <= x < |s.procs| && 0 <= y < |s.procs| ensures PidsDiffer(t, x, y) {
      assert PidsDiffer(s, x, y);
    }
    forall pid ensures PidDone(t, pid) {
      assert PidDone(s, pid);
    }
  }

  lemma ExitCpu(k: Clients, s: State, c: nat, i: nat, d: nat)
    requires Running(k, s, c, i) && ExitEnabled(s, i) && d < |s.cpus|
    ensures CpuOk(ExitStep(s, c, i), d)
  {
    assert CpuOk(s, c) && CpuOk(s, d) && SlotOk(k, s, i);
    ExitMe(s.procs, i);
    var m := s.cpus[d].mode;
    if m.InProc? && m.i != i {
      ExitOther(s.procs, i, m.i);
    }
  }

  lemma ExitKeeps(k: Clients, s: State, c: nat, i: nat)
    requires Running(k, s, c, i) && ExitEnabled(s, i)
    ensures Inv(k, ExitStep(s, c, i))
  {
    var t := ExitStep(s, c, i);
    forall x | 0 <= x < |t.procs| ensures SlotOk(k, t, x) {
      if x == i {
        ExitOwn(k, s, c, i);
      } else {
        ExitSlot(k, s, c, i, x);
        ExitSleep(k, s, c, i, x);
        ExitFamily(k, s, c, i, x);
        ExitFork(k, s, c, i, x);
      }
    }
    ExitPids(k, s, c, i);
    forall d | 0 <= d < |t.cpus| ensures CpuOk(t, d) {
      ExitCpu(k, s, c, i, d);
    }
    forall ch | ch in t.owed ensures OwedOk(k, t, ch) {
      assert OwedOk(k, s, ch);
    }
  }

  // ---- Every step, every run ----------------------------------------------------------

  lemma StepKeeps(k: Clients, s: State, c: nat, a: Action, t: State)
    requires Disciplined(k) && Inv(k, s) && Next(k, s, c, a) == Some(t)
    ensures Inv(k, t)
  {
    var i := if s.cpus[c].mode.InProc? then s.cpus[c].mode.i else 0;
    match KindOf(a)
    case OfSched => SchedKeeps(k, s, c, a);
    case OfWakeup => WakeupKeeps(k, s, c, a);
    case OfLock => LockKeeps(k, s, c, i, a);
    case OfSelf => SelfKeeps(k, s, c, i, a);
    case OfLeave => LeaveKeeps(k, s, c, i, a);
    case OfFork => ForkKeeps(k, s, c, i, a);
    case OfExit => ExitKeeps(k, s, c, i);
    case OfReap => ReapKeeps(k, s, c, i, a.j);
  }

  lemma {:induction false} RunKeeps(k: Clients, r: History, s: State)
    requires Disciplined(k) && IsRun(k, r, s)
    ensures Inv(k, s)
  {
    match r
    case Begin(s0) => InitInv(k, s0);
    case More(before, c, a) =>
      var t :| IsRun(k, before, t) && Next(k, t, c, a) == Some(s);
      RunKeeps(k, before, t);
      StepKeeps(k, t, c, a, s);
  }
}
