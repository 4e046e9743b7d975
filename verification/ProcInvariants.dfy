/** What every step of the process table machine keeps. */
module ProcInvariants {
  import opened ProcTable
  import opened Options

  predicate Alive(p: Proc) {
    p.state == SLEEPING || p.state == RUNNABLE || p.state == RUNNING
  }

  /** Past fork: published by its creator and not yet reaped. */
  predicate PastFork(p: Proc) {
    Alive(p) || p.state == ZOMBIE
  }

  predicate AsleepInWait(p: Proc, i: nat) {
    p.state == SLEEPING && p.chan == OfProc(i)
  }

  /** Where the thread of slot `i` may stand in each process state. */
  predicate StateOk(s: State, i: nat)
    requires i < |s.procs|
  {
    var p := s.procs[i];
    match p.state
    case UNUSED => p.parent == None && p.run == Nowhere && p.task == NoTask && p.on == None && i != INIT
    case EMBRYO => p.run == Nowhere && p.task == NoTask && p.on == None && i != INIT
    case SLEEPING => p.on == None && ((p.run == Out(Waited) && p.chan == OfProc(i)) || (p.run.Out? && p.run.why.Slept? && p.chan == Addr(p.run.why.ch)))
    case RUNNABLE => p.on == None && p.run.Out? && p.run.why != Exited
    case RUNNING =>
      && p.on.Some? && p.on.value < |s.cpus| && s.cpus[p.on.value] == Cpu(Some(i), InProc(i))
      && (p.run == Run.Free || p.run.Regain? || s.lock == p.on)
      && !p.run.Out? && p.run != Nowhere && p.run != Back(Exited)
    case ZOMBIE => p.run == Out(Exited) && p.on == None && p.task == NoTask && i != INIT
  }

  /** Parents are live, and not asleep in wait over a zombie child. */
  predicate FamilyOk(s: State, i: nat)
    requires i < |s.procs|
  {
    var p := s.procs[i];
    && (i == INIT ==> p.parent == None)
    && (i != INIT && PastFork(p) ==> p.parent.Some?)
    && (p.parent.Some? ==>
          && p.parent.value < |s.procs| && p.parent.value != i && Alive(s.procs[p.parent.value])
          && (p.state == ZOMBIE ==> !AsleepInWait(s.procs[p.parent.value], p.parent.value)))
  }

  predicate Making(q: Proc, j: nat) {
    q.task == Forking(j) || q.task == Adopting(j)
  }

  /** An unfinished fork and its EMBRYO point at each other. */
  predicate ForkOk(s: State, i: nat)
    requires i < |s.procs|
  {
    var p := s.procs[i];
    && (p.state == EMBRYO ==> p.maker.Some? && p.maker.value < |s.procs| && Making(s.procs[p.maker.value], i))
    && (p.task != NoTask ==>
          && p.task.child < |s.procs| && p.task.child != i && Alive(p)
          && s.procs[p.task.child].state == EMBRYO && s.procs[p.task.child].maker == Some(i)
          && s.procs[p.task.child].parent == (if p.task.Adopting? then Some(i) else None))
  }

  /** The channel on which `p` sleeps, or is committed to sleep. */
  function SleepsOn(p: Proc): Option<nat> {
    if p.run.SleepGap? then Some(p.run.ch)
    else if p.state == SLEEPING && p.chan.Addr? then Some(p.chan.ch)
    else None
  }

  /** Where a thread will need its channel's lock again. */
  function Returns(r: Run): Option<nat> {
    match r
    case Out(w) => if w.Slept? then Some(w.ch) else None
    case Back(w) => if w.Slept? then Some(w.ch) else None
    case SleepHold(ch) => Some(ch)
    case SleepGap(ch) => Some(ch)
    case Regain(ch) => Some(ch)
    case _ => None
  }

  /** A sleeper's condition is false, or its wakeup is still owed or was left out. */
  ghost predicate SleepOk(k: Clients, s: State, i: nat)
    requires i < |s.procs| && |s.data| == |s.held|
  {
    var p := s.procs[i];
    && (Returns(p.run).Some? ==> k.lockOf(Returns(p.run).value) < |s.held|)
    && (SleepsOn(p).Some? ==>
          var ch := SleepsOn(p).value;
          k.lockOf(ch) < |s.held| && (!k.cond(ch, s.data[k.lockOf(ch)]) || ch in s.owed || ch in s.lost))
    && (p.run.SleepHold? ==>
          && s.held[k.lockOf(p.run.ch)] == Some(i) && !k.cond(p.run.ch, s.data[k.lockOf(p.run.ch)])
          && NoneOwed(k, s, k.lockOf(p.run.ch)))
  }

  predicate CpuOk(s: State, c: nat)
    requires c < |s.cpus|
  {
    var x := s.cpus[c];
    match x.mode
    case Idle => x.proc == None && s.lock != Some(c)
    case Scan(_) => x.proc == None && s.lock == Some(c)
    case Returned(i) => x.proc == Some(i) && s.lock == Some(c) && i < |s.procs| && s.procs[i].state != RUNNING
    case InProc(i) =>
      && x.proc == Some(i) && i < |s.procs| && s.procs[i].state == RUNNING && s.procs[i].on == Some(c)
      && (s.lock == Some(c) ==> s.procs[i].run != Run.Free && !s.procs[i].run.Regain?)
  }

  /** Pids of slots in use, and the record of which have exited and been reaped. */
  predicate PidOk(s: State, i: nat)
    requires i < |s.procs|
  {
    var p := s.procs[i];
    && (p.state != UNUSED ==> 0 < p.pid < s.nextpid)
    && (p.state == EMBRYO || Alive(p) ==> p.pid !in s.exited)
    && (p.state == ZOMBIE ==> p.pid in s.exited && s.exited[p.pid] == i && s.reaped[p.pid] == 0)
  }

  predicate PidsDiffer(s: State, i: nat, j: nat)
    requires i < |s.procs| && j < |s.procs|
  {
    i != j && s.procs[i].state != UNUSED && s.procs[j].state != UNUSED ==> s.procs[i].pid != s.procs[j].pid
  }

  /** An exited pid is a zombie not yet reaped, or has been reaped exactly once. */
  predicate PidDone(s: State, pid: int) {
    if pid in s.exited then
      pid < s.nextpid &&
      (s.reaped[pid] == 1 ||
       (s.reaped[pid] == 0 && s.exited[pid] < |s.procs| && s.procs[s.exited[pid]].state == ZOMBIE && s.procs[s.exited[pid]].pid == pid))
    else s.reaped[pid] == 0
  }

  ghost predicate OwedOk(k: Clients, s: State, ch: nat) {
    k.lockOf(ch) < |s.held| && s.held[k.lockOf(ch)].Some?
  }

  ghost predicate SlotOk(k: Clients, s: State, i: nat)
    requires i < |s.procs| && |s.data| == |s.held|
  {
    StateOk(s, i) && FamilyOk(s, i) && ForkOk(s, i) && SleepOk(k, s, i) && PidOk(s, i)
  }

  ghost predicate Inv(k: Clients, s: State) {
    && |s.procs| > 0 && |s.data| == |s.held| && s.nextpid > 0
    && (s.lock.Some? ==> s.lock.value < |s.cpus|)
    && (forall i :: 0 <= i < |s.procs| ==> SlotOk(k, s, i))
    && (forall c :: 0 <= c < |s.cpus| ==> CpuOk(s, c))
    && (forall i, j :: 0 <= i < |s.procs| && 0 <= j < |s.procs| ==> PidsDiffer(s, i, j))
    && (forall pid :: PidDone(s, pid))
    && (forall ch :: ch in s.owed ==> OwedOk(k, s, ch))
  }

  lemma InitInv(k: Clients, s: State)
    requires Init(s)
    ensures Inv(k, s)
  {
  }

  // ---- Steps that keep every process's identity ---------------------------------------

  /** Slot `i` keeps its pid, family and fork, stays alive or as it was, and does not fall asleep in
      wait over a zombie child. */
  predicate QuietAt(s: State, t: State, i: nat)
    requires i < |s.procs| && i < |t.procs|
  {
    var p, q := s.procs[i], t.procs[i];
    && q.pid == p.pid && q.parent == p.parent && q.task == p.task && q.maker == p.maker
    && (q.state == p.state || (Alive(p) && Alive(q)))
    && (AsleepInWait(q, i) ==> AsleepInWait(p, i) || !HasZombieChild(s.procs, i))
  }

  predicate Quiet(s: State, t: State) {
    && |t.procs| == |s.procs| && |t.cpus| == |s.cpus| && |t.held| == |s.held| && |t.data| == |s.data|
    && t.nextpid == s.nextpid && t.exited == s.exited && t.reaped == s.reaped
    && (t.lock.Some? ==> t.lock.value < |t.cpus|)
    && forall i :: 0 <= i < |s.procs| ==> QuietAt(s, t, i)
  }

  lemma QuietSlot(k: Clients, s: State, t: State, i: nat)
    requires Inv(k, s) && Quiet(s, t) && i < |s.procs|
    ensures FamilyOk(t, i) && ForkOk(t, i) && PidOk(t, i)
  {
    assert SlotOk(k, s, i) && QuietAt(s, t, i);
    var p := s.procs[i];
    if p.parent.Some? {
      assert QuietAt(s, t, p.parent.value);
    }
    if p.task != NoTask {
      assert QuietAt(s, t, p.task.child);
    }
    if p.maker.Some? && p.maker.value < |s.procs| {
      assert QuietAt(s, t, p.maker.value);
    }
  }

  lemma QuietPids(k: Clients, s: State, t: State)
    requires Inv(k, s) && Quiet(s, t)
    ensures forall i, j :: 0 <= i < |t.procs| && 0 <= j < |t.procs| ==> PidsDiffer(t, i, j)
    ensures forall pid :: PidDone(t, pid)
  {
    forall i, j | 0 <= i < |t.procs| && 0 <= j < |t.procs| ensures PidsDiffer(t, i, j) {
      assert PidsDiffer(s, i, j) && QuietAt(s, t, i) && QuietAt(s, t, j);
    }
    forall pid ensures PidDone(t, pid) {
      assert PidDone(s, pid);
      if pid in s.exited && s.exited[pid] < |s.procs| {
        assert QuietAt(s, t, s.exited[pid]);
      }
    }
  }

  /** What is left to show of a quiet step. */
  ghost predicate Settled(k: Clients, t: State, i: nat)
    requires i < |t.procs| && |t.data| == |t.held|
  {
    StateOk(t, i) && SleepOk(k, t, i)
  }

  lemma QuietKeeps(k: Clients, s: State, t: State)
    requires Inv(k, s) && Quiet(s, t)
    requires forall i :: 0 <= i < |t.procs| ==> Settled(k, t, i)
    requires forall c :: 0 <= c < |t.cpus| ==> CpuOk(t, c)
    requires forall ch :: ch in t.owed ==> OwedOk(k, t, ch)
    ensures Inv(k, t)
  {
    forall i | 0 <= i < |t.procs| ensures SlotOk(k, t, i) {
      assert Settled(k, t, i);
      QuietSlot(k, s, t, i);
    }
    QuietPids(k, s, t);
  }

  // ---- The scheduler ----------------------------------------------------------------

  lemma SchedQuiet(k: Clients, s: State, c: nat, a: Action, i: nat)
    requires Inv(k, s) && c < |s.cpus| && SchedEnabled(s, c, a) && i < |s.procs|
    ensures QuietAt(s, SchedStep(s, c, a), i) && Settled(k, SchedStep(s, c, a), i)
  {
    assert CpuOk(s, c) && SlotOk(k, s, i);
    if s.procs[i].on.Some? && s.procs[i].on.value < |s.cpus| {
      assert CpuOk(s, s.procs[i].on.value);
    }
  }

  lemma SchedCpu(k: Clients, s: State, c: nat, a: Action, d: nat)
    requires Inv(k, s) && c < |s.cpus| && SchedEnabled(s, c, a) && d < |s.cpus|
    ensures CpuOk(SchedStep(s, c, a), d)
  {
    assert CpuOk(s, c) && CpuOk(s, d);
  }

  lemma SchedKeeps(k: Clients, s: State, c: nat, a: Action)
    requires Inv(k, s) && c < |s.cpus| && SchedEnabled(s, c, a)
    ensures Inv(k, SchedStep(s, c, a))
  {
    var t := SchedStep(s, c, a);
    forall i | 0 <= i < |t.procs| ensures QuietAt(s, t, i) && Settled(k, t, i) {
      SchedQuiet(k, s, c, a, i);
    }
    forall d | 0 <= d < |t.cpus| ensures CpuOk(t, d) {
      SchedCpu(k, s, c, a, d);
    }
    forall ch | ch in t.owed ensures OwedOk(k, t, ch) {
      assert OwedOk(k, s, ch);
    }
    QuietKeeps(k, s, t);
  }

  // ---- Wakeups ------------------------------------------------------------------------

  lemma WakeupKeeps(k: Clients, s: State, c: nat, a: Action)
    requires Inv(k, s) && c < |s.cpus| && WakeupEnabled(s, c, a)
    ensures Inv(k, WakeupStep(s, c, a))
  {
    var t := WakeupStep(s, c, a);
    forall i | 0 <= i < |t.procs| ensures QuietAt(s, t, i) && Settled(k, t, i) {
      assert SlotOk(k, s, i);
    }
    forall d | 0 <= d < |t.cpus| ensures CpuOk(t, d) {
      assert CpuOk(s, d);
    }
    forall ch | ch in t.owed ensures OwedOk(k, t, ch) {
      assert OwedOk(k, s, ch);
    }
    QuietKeeps(k, s, t);
  }

  // ---- What a running process does to itself --------------------------------------------

  /** Process `i` runs on CPU `c`. */
  ghost predicate Running(k: Clients, s: State, c: nat, i: nat) {
    Inv(k, s) && c < |s.cpus| && i < |s.procs| && s.cpus[c].mode == InProc(i)
  }

  lemma LockSettled(k: Clients, s: State, c: nat, i: nat, a: Action, j: nat)
    requires Disciplined(k) && Running(k, s, c, i) && s.procs[i].run == Run.Free && LockEnabled(k, s, i, a) && j < |s.procs|
    ensures Settled(k, LockStep(k, s, i, a), j)
  {
    assert SlotOk(k, s, j);
  }

  lemma LockKeeps(k: Clients, s: State, c: nat, i: nat, a: Action)
    requires Disciplined(k) && Running(k, s, c, i) && s.procs[i].run == Run.Free && LockEnabled(k, s, i, a)
    ensures Inv(k, LockStep(k, s, i, a))
  {
    var t := LockStep(k, s, i, a);
    assert forall j :: 0 <= j < |t.procs| ==> QuietAt(s, t, j);
    forall j | 0 <= j < |t.procs| ensures Settled(k, t, j) {
      LockSettled(k, s, c, i, a, j);
    }
    forall d | 0 <= d < |t.cpus| ensures CpuOk(t, d) {
      assert CpuOk(s, d);
    }
    forall ch | ch in t.owed ensures OwedOk(k, t, ch) {
      assert ch in s.owed ==> OwedOk(k, s, ch);
    }
    QuietKeeps(k, s, t);
  }

  lemma SelfOther(k: Clients, s: State, c: nat, i: nat, a: Action, j: nat)
    requires Running(k, s, c, i) && SelfEnabled(k, s, i, a) && j < |s.procs| && j != i
    ensures QuietAt(s, SelfStep(k, s, c, i, a), j) && Settled(k, SelfStep(k, s, c, i, a), j)
  {
    assert SlotOk(k, s, j) && CpuOk(s, c) && SlotOk(k, s, i);
  }

  lemma SelfMe(k: Clients, s: State, c: nat, i: nat, a: Action)
    requires Running(k, s, c, i) && SelfEnabled(k, s, i, a)
    ensures QuietAt(s, SelfStep(k, s, c, i, a), i) && Settled(k, SelfStep(k, s, c, i, a), i)
  {
    assert SlotOk(k, s, i) && CpuOk(s, c);
  }

  lemma SelfCpu(k: Clients, s: State, c: nat, i: nat, a: Action, d: nat)
    requires Running(k, s, c, i) && SelfEnabled(k, s, i, a) && d < |s.cpus|
    ensures CpuOk(SelfStep(k, s, c, i, a), d)
  {
    assert CpuOk(s, c) && CpuOk(s, d) && SlotOk(k, s, i);
  }

  lemma SelfKeeps(k: Clients, s: State, c: nat, i: nat, a: Action)
    requires Running(k, s, c, i) && SelfEnabled(k, s, i, a)
    ensures Inv(k, SelfStep(k, s, c, i, a))
  {
    var t := SelfStep(k, s, c, i, a);
    forall j | 0 <= j < |t.procs| ensures QuietAt(s, t, j) && Settled(k, t, j) {
      if j == i {
        SelfMe(k, s, c, i, a);
      } else {
        SelfOther(k, s, c, i, a, j);
      }
    }
    forall d | 0 <= d < |t.cpus| ensures CpuOk(t, d) {
      SelfCpu(k, s, c, i, a, d);
    }
    assert SlotOk(k, s, i);
    forall ch | ch in t.owed ensures OwedOk(k, t, ch) {
      assert OwedOk(k, s, ch);
    }
    QuietKeeps(k, s, t);
  }

  lemma LeaveOther(k: Clients, s: State, c: nat, i: nat, a: Action, j: nat)
    requires Running(k, s, c, i) && LeaveEnabled(s, i, a) && j < |s.procs| && j != i
    ensures QuietAt(s, LeaveStep(s, c, i, a), j) && Settled(k, LeaveStep(s, c, i, a), j)
  {
    assert SlotOk(k, s, j) && CpuOk(s, c) && SlotOk(k, s, i);
  }

  lemma LeaveMe(k: Clients, s: State, c: nat, i: nat, a: Action)
    requires Running(k, s, c, i) && LeaveEnabled(s, i, a)
    ensures QuietAt(s, LeaveStep(s, c, i, a), i) && Settled(k, LeaveStep(s, c, i, a), i)
  {
    assert SlotOk(k, s, i) && CpuOk(s, c);
  }

  lemma LeaveCpu(k: Clients, s: State, c: nat, i: nat, a: Action, d: nat)
    requires Running(k, s, c, i) && LeaveEnabled(s, i, a) && d < |s.cpus|
    ensures CpuOk(LeaveStep(s, c, i, a), d)
  {
    assert CpuOk(s, c) && CpuOk(s, d) && SlotOk(k, s, i);
  }

  lemma LeaveKeeps(k: Clients, s: State, c: nat, i: nat, a: Action)
    requires Running(k, s, c, i) && LeaveEnabled(s, i, a)
    ensures Inv(k, LeaveStep(s, c, i, a))
  {
    var t := LeaveStep(s, c, i, a);
    forall j | 0 <= j < |t.procs| ensures QuietAt(s, t, j) && Settled(k, t, j) {
      if j == i {
        LeaveMe(k, s, c, i, a);
      } else {
        LeaveOther(k, s, c, i, a, j);
      }
    }
    forall d | 0 <= d < |t.cpus| ensures CpuOk(t, d) {
      LeaveCpu(k, s, c, i, a, d);
    }
    forall ch | ch in t.owed ensures OwedOk(k, t, ch) {
      assert OwedOk(k, s, ch);
    }
    QuietKeeps(k, s, t);
  }
}
