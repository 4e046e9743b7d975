/** proc.c as a state machine: any number of processes and CPUs, the scheduler that hands
    ptable.lock across swtch, sleep and wakeup, fork, exit and wait. A step is what one thread
    does between two points where another may intervene. */
module ProcTable {
  import opened Options

  datatype PState = UNUSED | EMBRYO | SLEEPING | RUNNABLE | RUNNING | ZOMBIE

  /** A sleep channel: a process (wait) or an address guarded by some other lock. */
  datatype Chan = NoChan | OfProc(i: nat) | Addr(ch: nat)

  /** Why a process called sched. */
  datatype Why = Started | Yielded | Slept(ch: nat) | Waited | Exited

  /** Where a process's kernel thread stands. */
  datatype Run =
    | Nowhere                // slot not in use, or not yet published
    | Out(why: Why)          // inside swtch, off the CPU
    | Back(why: Why)         // switched to, ptable.lock held, not yet released
    | Free                   // running without ptable.lock
    | SleepHold(ch: nat)     // sleep: ptable.lock acquired, the caller's lock still held
    | SleepGap(ch: nat)      // sleep: the caller's lock released, not yet SLEEPING
    | Regain(ch: nat)        // sleep: awake, wants the caller's lock back

  /** An unfinished fork: the child slot, before and after its parent field is set. */
  datatype Task = NoTask | Forking(child: nat) | Adopting(child: nat)

  /** struct proc; `on` and `maker` record which CPU runs it and which process is creating it. */
  datatype Proc = Proc(state: PState, pid: int, parent: Option<nat>, chan: Chan, run: Run, task: Task,
                       on: Option<nat>, maker: Option<nat>)

  const FREE_SLOT: Proc := Proc(UNUSED, 0, None, NoChan, Nowhere, NoTask, None, None)

  /** What a CPU executes: its scheduler, or the process in `proc`. */
  datatype Mode = Idle | Scan(i: nat) | InProc(i: nat) | Returned(i: nat)

  datatype Cpu = Cpu(proc: Option<nat>, mode: Mode)

  /** What a lock protects: the counters begin_op waits on, a sleep lock's flag, a pipe's counters and
      open ends, or anything else. */
  datatype Data =
    | LogData(committing: bool, n: int, outstanding: int)
    | SleepLockData(locked: bool, pid: int)
    | PipeData(nread: nat, nwrite: nat, readopen: bool, writeopen: bool)
    | OtherData(v: int)

  /** `lock`: the CPU holding ptable.lock. `held[l]`, `data[l]`: holder and protected data of lock
      `l`. `owed`: channels some holder must still call wakeup on. `lost`: channels whose wakeup a
      holder left out, and that have not been woken since. `exited`: where each exited pid became a
      zombie. `reaped`: how often wait has returned each pid. */
  datatype State = State(
    procs: seq<Proc>, cpus: seq<Cpu>, lock: Option<nat>, nextpid: int,
    held: seq<Option<nat>>, data: seq<Data>, owed: set<nat>, lost: set<nat>,
    exited: map<int, nat>, reaped: multiset<int>)

  /** The kernel code that sleeps. `lockOf`: the lock guarding a channel. `cond`: what its sleepers
      wait for. `change`: the updates made under the lock. `wakes`: whether the code follows such an
      update with wakeup before it releases the lock or sleeps. `skips`: when it may return without
      that wakeup. `silent`: updates made without the lock. */
  datatype Clients = Clients(
    lockOf: nat -> nat, cond: (nat, Data) -> bool, change: (nat, Data, Data) -> bool,
    wakes: (nat, Data, Data) -> bool, skips: (nat, Data) -> bool, silent: (nat, Data, Data) -> bool)

  /** A condition that becomes true does so under its lock and is followed by wakeup. */
  ghost predicate Disciplined(k: Clients) {
    && (forall ch: nat, v, w :: k.change(k.lockOf(ch), v, w) && k.cond(ch, w) ==> k.cond(ch, v) || k.wakes(ch, v, w))
    && (forall ch: nat, v, w :: k.silent(k.lockOf(ch), v, w) && k.cond(ch, w) ==> k.cond(ch, v))
  }

  const INIT: nat := 0

  // ---- Table scans ------------------------------------------------------------------

  function Woken(p: Proc, c: Chan): Proc {
    if p.state == SLEEPING && p.chan == c then p.(state := RUNNABLE) else p
  }

  /** wakeup1 */
  function WakeAll(ps: seq<Proc>, c: Chan): (r: seq<Proc>)
    ensures |r| == |ps| && forall i :: 0 <= i < |ps| ==> r[i] == Woken(ps[i], c)
  {
    seq(|ps|, i requires 0 <= i < |ps| => Woken(ps[i], c))
  }

  function Adopted(p: Proc, me: nat): Proc {
    if p.parent == Some(me) then p.(parent := Some(INIT)) else p
  }

  /** exit's loop: pass abandoned children to init. */
  function GiveAway(ps: seq<Proc>, me: nat): (r: seq<Proc>)
    ensures |r| == |ps| && forall i :: 0 <= i < |ps| ==> r[i] == Adopted(ps[i], me)
  {
    seq(|ps|, i requires 0 <= i < |ps| => Adopted(ps[i], me))
  }

  predicate HasZombieChild(ps: seq<Proc>, me: nat) {
    exists j :: 0 <= j < |ps| && ps[j].parent == Some(me) && ps[j].state == ZOMBIE
  }

  predicate HasChild(ps: seq<Proc>, me: nat) {
    exists j :: 0 <= j < |ps| && ps[j].parent == Some(me)
  }

  /** The table exit leaves when it calls sched: the parent woken, the children with init, init
      woken if one of them is a zombie. */
  function ExitTable(ps: seq<Proc>, me: nat): (r: seq<Proc>)
    requires me < |ps|
    ensures |r| == |ps|
  {
    var woken := match ps[me].parent case Some(q) => WakeAll(ps, OfProc(q)) case None => ps;
    var given := GiveAway(woken, me);
    var all := if HasZombieChild(woken, me) then WakeAll(given, OfProc(INIT)) else given;
    all[me := all[me].(state := ZOMBIE, run := Out(Exited), on := None)]
  }

  // ---- Steps ------------------------------------------------------------------------

  predicate HoldsNone(s: State, i: nat) {
    forall l :: 0 <= l < |s.held| ==> s.held[l] != Some(i)
  }

  function SetProc(s: State, i: nat, p: Proc): State
    requires i < |s.procs|
  {
    s.(procs := s.procs[i := p])
  }

  function SetCpu(s: State, c: nat, x: Cpu): State
    requires c < |s.cpus|
  {
    s.(cpus := s.cpus[c := x])
  }

  /** swtch from process `i` to the scheduler of CPU `c`, ptable.lock held. */
  function ToScheduler(s: State, c: nat, i: nat): State
    requires c < |s.cpus|
  {
    SetCpu(s, c, Cpu(Some(i), Returned(i))).(lock := Some(c))
  }

  datatype Action =
    | SchedAcquire | SchedSkip | SchedDispatch | SchedResume | SchedRelease
    | Return                           // release ptable.lock after being switched to
    | Yield
    | Wakeup(chan: Chan)
    | Spurious(j: nat)                 // kill wakes a sleeper
    | ForkAlloc(j: nat) | ForkFail | ForkLink | ForkPublish
    | Exit
    | WaitReap(j: nat) | WaitGiveUp | WaitSleep
    | LockTake(l: nat) | LockChange(l: nat, v: Data, wake: set<nat>) | LockDrop(l: nat) | LockQuit(l: nat) | Silent(l: nat, v: Data)
    | SleepBegin(ch: nat) | SleepDrop | SleepSwitch | SleepRegain

  /** The process may enter the body of wait's loop: it has yet to acquire the lock, or it was woken
      in wait and holds it. */
  predicate InWait(s: State, p: Proc) {
    p.task == NoTask && ((s.lock == None && p.run == Run.Free) || p.run == Back(Waited))
  }

  ghost predicate NoneOwed(k: Clients, s: State, l: nat) {
    forall ch :: ch in s.owed ==> k.lockOf(ch) != l
  }

  /** What CPU `c`'s scheduler may do. */
  ghost predicate SchedEnabled(s: State, c: nat, a: Action)
    requires c < |s.cpus|
  {
    var m := s.cpus[c].mode;
    match a
    case SchedAcquire => m == Idle && s.lock == None
    case SchedSkip => m.Scan? && m.i < |s.procs| && s.procs[m.i].state != RUNNABLE
    case SchedDispatch => m.Scan? && m.i < |s.procs| && s.procs[m.i].state == RUNNABLE && s.procs[m.i].run.Out?
    case SchedResume => m.Returned?
    case SchedRelease => m.Scan? && m.i >= |s.procs|
    case _ => false
  }

  /** Updates of a lock and of what it protects, by process `i`. */
  ghost predicate LockEnabled(k: Clients, s: State, i: nat, a: Action)
    requires |s.data| == |s.held|
  {
    match a
    case LockTake(l) => l < |s.held| && s.held[l] == None
    case LockChange(l, v, wake) =>
      && l < |s.held| && s.held[l] == Some(i) && k.change(l, s.data[l], v)
      && (forall ch: nat :: ch in wake <==> k.lockOf(ch) == l && k.wakes(ch, s.data[l], v))
    case LockDrop(l) => l < |s.held| && s.held[l] == Some(i) && NoneOwed(k, s, l)
    case LockQuit(l) =>
      && l < |s.held| && s.held[l] == Some(i)
      && forall ch :: ch in s.owed && k.lockOf(ch) == l ==> k.skips(ch, s.data[l])
    case Silent(l, v) => l < |s.held| && k.silent(l, s.data[l], v)
    case _ => false
  }

  /** Steps that only move process `i`'s own thread. */
  ghost predicate SelfEnabled(k: Clients, s: State, i: nat, a: Action)
    requires i < |s.procs| && |s.data| == |s.held|
  {
    var p := s.procs[i];
    match a
    case Return => p.run.Back? && p.run.why != Waited
    case WaitGiveUp => InWait(s, p) && !HasZombieChild(s.procs, i)
    case SleepBegin(ch) =>
      && s.lock == None && p.run == Run.Free && k.lockOf(ch) < |s.held| && s.held[k.lockOf(ch)] == Some(i)
      && !k.cond(ch, s.data[k.lockOf(ch)]) && NoneOwed(k, s, k.lockOf(ch))
    case SleepDrop => p.run.SleepHold? && k.lockOf(p.run.ch) < |s.held|
    case SleepRegain => p.run.Regain? && k.lockOf(p.run.ch) < |s.held| && s.held[k.lockOf(p.run.ch)] == None
    case _ => false
  }

  /** Steps that end in swtch, exit apart. */
  predicate LeaveEnabled(s: State, i: nat, a: Action)
    requires i < |s.procs|
  {
    var p := s.procs[i];
    match a
    case Yield => s.lock == None && p.run == Run.Free && HoldsNone(s, i)
    case WaitSleep => InWait(s, p) && !HasZombieChild(s.procs, i) && HasChild(s.procs, i) && HoldsNone(s, i)
    case SleepSwitch => p.run.SleepGap?
    case _ => false
  }

  /** The four steps of fork. */
  predicate ForkEnabled(s: State, i: nat, a: Action)
    requires i < |s.procs|
  {
    var p := s.procs[i];
    p.run == Run.Free &&
    match a
    case ForkAlloc(j) => s.lock == None && p.task == NoTask && j < |s.procs| && s.procs[j].state == UNUSED
    case ForkFail => p.task.Forking? && p.task.child < |s.procs|
    case ForkLink => p.task.Forking? && p.task.child < |s.procs|
    case ForkPublish => s.lock == None && p.task.Adopting? && p.task.child < |s.procs|
    case _ => false
  }

  predicate ExitEnabled(s: State, i: nat)
    requires i < |s.procs|
  {
    s.lock == None && s.procs[i].run == Run.Free && s.procs[i].task == NoTask && i != INIT && HoldsNone(s, i)
  }

  predicate ReapEnabled(s: State, i: nat, j: nat)
    requires i < |s.procs|
  {
    InWait(s, s.procs[i]) && j < |s.procs| && s.procs[j].parent == Some(i) && s.procs[j].state == ZOMBIE
  }

  datatype Kind = OfSched | OfWakeup | OfLock | OfSelf | OfLeave | OfFork | OfExit | OfReap

  function KindOf(a: Action): Kind {
    match a
    case SchedAcquire | SchedSkip | SchedDispatch | SchedResume | SchedRelease => OfSched
    case Wakeup(_) | Spurious(_) => OfWakeup
    case LockTake(_) | LockChange(_, _, _) | LockDrop(_) | LockQuit(_) | Silent(_, _) => OfLock
    case Return | WaitGiveUp | SleepBegin(_) | SleepDrop | SleepRegain => OfSelf
    case Yield | WaitSleep | SleepSwitch => OfLeave
    case ForkAlloc(_) | ForkFail | ForkLink | ForkPublish => OfFork
    case Exit => OfExit
    case WaitReap(_) => OfReap
  }

  predicate WakeupEnabled(s: State, c: nat, a: Action)
    requires c < |s.cpus|
  {
    match a
    case Wakeup(_) => s.lock == None && !s.cpus[c].mode.Scan? && !s.cpus[c].mode.Returned?
    case Spurious(j) => s.lock == None && j < |s.procs| && s.procs[j].state == SLEEPING
    case _ => false
  }

  /** What process `i`, running on some CPU, may do. */
  ghost predicate ProcEnabled(k: Clients, s: State, i: nat, a: Action)
    requires i < |s.procs| && |s.data| == |s.held|
  {
    match KindOf(a)
    case OfLock => s.procs[i].run == Run.Free && LockEnabled(k, s, i, a)
    case OfSelf => SelfEnabled(k, s, i, a)
    case OfLeave => LeaveEnabled(s, i, a)
    case OfFork => ForkEnabled(s, i, a)
    case OfExit => ExitEnabled(s, i)
    case OfReap => a.WaitReap? && ReapEnabled(s, i, a.j)
    case _ => false
  }

  ghost predicate Enabled(k: Clients, s: State, c: nat, a: Action) {
    && c < |s.cpus| && |s.data| == |s.held|
    && match KindOf(a)
       case OfSched => SchedEnabled(s, c, a)
       case OfWakeup => WakeupEnabled(s, c, a)
       case _ => s.cpus[c].mode.InProc? && s.cpus[c].mode.i < |s.procs| && ProcEnabled(k, s, s.cpus[c].mode.i, a)
  }

  ghost function SchedStep(s: State, c: nat, a: Action): State
    requires c < |s.cpus| && SchedEnabled(s, c, a)
  {
    var m := s.cpus[c].mode;
    match a
    case SchedAcquire => SetCpu(s, c, Cpu(None, Scan(0))).(lock := Some(c))
    case SchedSkip => SetCpu(s, c, Cpu(None, Scan(m.i + 1)))
    case SchedDispatch =>
      var p := s.procs[m.i];
      SetCpu(SetProc(s, m.i, p.(state := RUNNING, run := Back(p.run.why), on := Some(c))), c, Cpu(Some(m.i), InProc(m.i)))
    case SchedResume => SetCpu(s, c, Cpu(None, Scan(m.i + 1)))
    case SchedRelease => SetCpu(s, c, Cpu(None, Idle)).(lock := None)
  }

  /** Leave the CPU: process `i` becomes `p`, the lock stays with CPU `c`. */
  function Leave(s: State, c: nat, i: nat, p: Proc): State
    requires i < |s.procs| && c < |s.cpus|
  {
    ToScheduler(SetProc(s, i, p), c, i)
  }

  function WakeupStep(s: State, c: nat, a: Action): State
    requires c < |s.cpus| && WakeupEnabled(s, c, a)
  {
    match a
    case Wakeup(chan) =>
      var woken := if chan.Addr? then {chan.ch} else {};
      s.(procs := WakeAll(s.procs, chan), owed := s.owed - woken, lost := s.lost - woken)
    case Spurious(j) => SetProc(s, j, s.procs[j].(state := RUNNABLE))
  }

  ghost function LockStep(k: Clients, s: State, i: nat, a: Action): State
    requires |s.data| == |s.held| && LockEnabled(k, s, i, a)
  {
    match a
    case LockTake(l) => s.(held := s.held[l := Some(i)])
    case LockChange(l, v, wake) => s.(data := s.data[l := v], owed := s.owed + wake)
    case LockDrop(l) => s.(held := s.held[l := None])
    case LockQuit(l) =>
      var left := set ch | ch in s.owed && k.lockOf(ch) == l;
      s.(held := s.held[l := None], owed := s.owed - left, lost := s.lost + left)
    case Silent(l, v) => s.(data := s.data[l := v])
  }

  /** wait returns: ptable.lock released, and the channel cleared if it slept. */
  function WaitDone(p: Proc): Proc {
    p.(run := Run.Free, chan := if p.run == Back(Waited) then NoChan else p.chan)
  }

  ghost function SelfStep(k: Clients, s: State, c: nat, i: nat, a: Action): State
    requires i < |s.procs| && |s.data| == |s.held| && SelfEnabled(k, s, i, a)
  {
    var p := s.procs[i];
    match a
    case Return =>
      SetProc(s, i, if p.run.why.Slept? then p.(run := Regain(p.run.why.ch), chan := NoChan) else p.(run := Run.Free)).(lock := None)
    case WaitGiveUp => SetProc(s, i, WaitDone(p)).(lock := None)
    case SleepBegin(ch) => SetProc(s, i, p.(run := SleepHold(ch))).(lock := Some(c))
    case SleepDrop =>
      SetProc(s, i, p.(run := SleepGap(p.run.ch))).(held := s.held[k.lockOf(p.run.ch) := None])
    case SleepRegain =>
      SetProc(s, i, p.(run := Run.Free)).(held := s.held[k.lockOf(p.run.ch) := Some(i)])
  }

  function LeaveStep(s: State, c: nat, i: nat, a: Action): State
    requires i < |s.procs| && c < |s.cpus| && LeaveEnabled(s, i, a)
  {
    var p := s.procs[i];
    match a
    case Yield => Leave(s, c, i, p.(state := RUNNABLE, run := Out(Yielded), on := None))
    case WaitSleep => Leave(s, c, i, p.(state := SLEEPING, chan := OfProc(i), run := Out(Waited), on := None))
    case SleepSwitch => Leave(s, c, i, p.(state := SLEEPING, chan := Addr(p.run.ch), run := Out(Slept(p.run.ch)), on := None))
  }

  function ForkStep(s: State, i: nat, a: Action): State
    requires i < |s.procs| && ForkEnabled(s, i, a)
  {
    var p := s.procs[i];
    var j := if a.ForkAlloc? then a.j else p.task.child;
    var q := s.procs[j];
    match a
    case ForkAlloc(_) =>
      SetProc(SetProc(s, j, q.(state := EMBRYO, pid := s.nextpid, maker := Some(i))), i, p.(task := Forking(j))).(nextpid := s.nextpid + 1)
    case ForkFail => SetProc(SetProc(s, j, q.(state := UNUSED, maker := None)), i, p.(task := NoTask))
    case ForkLink => SetProc(SetProc(s, j, q.(parent := Some(i))), i, p.(task := Adopting(j)))
    case ForkPublish => SetProc(SetProc(s, j, q.(state := RUNNABLE, run := Out(Started), maker := None)), i, p.(task := NoTask))
  }

  function ExitStep(s: State, c: nat, i: nat): State
    requires i < |s.procs| && c < |s.cpus|
  {
    ToScheduler(s.(procs := ExitTable(s.procs, i), exited := s.exited[s.procs[i].pid := i]), c, i)
  }

  function ReapStep(s: State, i: nat, j: nat): State
    requires i < |s.procs| && j < |s.procs|
  {
    var z := s.procs[j];
    SetProc(SetProc(s, j, z.(state := UNUSED, pid := 0, parent := None, run := Nowhere)), i, WaitDone(s.procs[i]))
    .(lock := None, reaped := s.reaped + multiset{z.pid})
  }

  ghost function ProcStep(k: Clients, s: State, c: nat, i: nat, a: Action): State
    requires i < |s.procs| && c < |s.cpus| && |s.data| == |s.held|
    requires ProcEnabled(k, s, i, a)
  {
    match KindOf(a)
    case OfLock => LockStep(k, s, i, a)
    case OfSelf => SelfStep(k, s, c, i, a)
    case OfLeave => LeaveStep(s, c, i, a)
    case OfFork => ForkStep(s, i, a)
    case OfExit => ExitStep(s, c, i)
    case OfReap => ReapStep(s, i, a.j)
  }

  ghost function Step(k: Clients, s: State, c: nat, a: Action): State
    requires Enabled(k, s, c, a)
  {
    match KindOf(a)
    case OfSched => SchedStep(s, c, a)
    case OfWakeup => WakeupStep(s, c, a)
    case _ => ProcStep(k, s, c, s.cpus[c].mode.i, a)
  }

  /** The state after CPU `c` takes the step, if it can. */
  ghost function Next(k: Clients, s: State, c: nat, a: Action): Option<State> {
    if Enabled(k, s, c, a) then Some(Step(k, s, c, a)) else None
  }

  /** After userinit: process 0 runnable, every CPU about to enter its scheduler, every lock free. */
  ghost predicate Init(s: State) {
    && |s.procs| > 0 && |s.data| == |s.held|
    && s.procs[INIT] == Proc(RUNNABLE, 1, None, NoChan, Out(Started), NoTask, None, None)
    && (forall i :: 0 < i < |s.procs| ==> s.procs[i] == FREE_SLOT)
    && (forall c :: 0 <= c < |s.cpus| ==> s.cpus[c] == Cpu(None, Idle))
    && (forall l :: 0 <= l < |s.held| ==> s.held[l] == None)
    && s.lock == None && s.nextpid == 2 && s.owed == {} && s.lost == {} && s.exited == map[] && s.reaped == multiset{}
  }

  datatype History = Begin(s: State) | More(before: History, c: nat, a: Action)

  /** The state a run ends in, if all its steps were possible. */
  ghost predicate IsRun(k: Clients, r: History, s: State) {
    match r
    case Begin(s0) => s == s0 && Init(s0)
    case More(before, c, a) => exists t :: IsRun(k, before, t) && Next(k, t, c, a) == Some(s)
  }

  ghost predicate Reachable(k: Clients, s: State) {
    exists r :: IsRun(k, r, s)
  }
}
