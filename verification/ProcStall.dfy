/** A run in which pipewrite's return without a wakeup leaves a reader asleep over a full pipe: a
    reader sleeps, a writer fills the pipe, finds it full and gives up. One CPU and two processes
    are enough. */
module ProcStall {
  import opened Options
  import opened ProcTable
  import opened ProcTheorems
  import Pipe

  lemma Reach(k: Clients, s: State, c: nat, a: Action, t: State)
    requires Reachable(k, s) && Next(k, s, c, a) == Some(t)
    ensures Reachable(k, t)
  {
    var r :| IsRun(k, r, s);
    assert IsRun(k, More(r, c, a), t);
  }

  /** The one CPU is in its scheduler. */
  lemma ReachSched(k: Clients, s: State, a: Action)
    requires Reachable(k, s) && |s.cpus| == 1 && |s.data| == |s.held| && KindOf(a) == OfSched && SchedEnabled(s, 0, a)
    ensures Reachable(k, SchedStep(s, 0, a))
  {
    Reach(k, s, 0, a, SchedStep(s, 0, a));
  }

  /** It runs process `i`. */
  predicate Runs(s: State, i: nat) {
    s.cpus == [Cpu(Some(i), InProc(i))] && i < |s.procs| && |s.data| == |s.held|
  }

  lemma ReachSelf(k: Clients, s: State, i: nat, a: Action)
    requires Reachable(k, s) && Runs(s, i) && KindOf(a) == OfSelf && SelfEnabled(k, s, i, a)
    ensures Reachable(k, SelfStep(k, s, 0, i, a))
  {
    Reach(k, s, 0, a, SelfStep(k, s, 0, i, a));
  }

  lemma ReachLock(k: Clients, s: State, i: nat, a: Action)
    requires Reachable(k, s) && Runs(s, i) && KindOf(a) == OfLock && s.procs[i].run == Run.Free && LockEnabled(k, s, i, a)
    ensures Reachable(k, LockStep(k, s, i, a))
  {
    Reach(k, s, 0, a, LockStep(k, s, i, a));
  }

  lemma ReachLeave(k: Clients, s: State, i: nat, a: Action)
    requires Reachable(k, s) && Runs(s, i) && KindOf(a) == OfLeave && LeaveEnabled(s, i, a)
    ensures Reachable(k, LeaveStep(s, 0, i, a))
  {
    Reach(k, s, 0, a, LeaveStep(s, 0, i, a));
  }

  lemma ReachFork(k: Clients, s: State, i: nat, a: Action)
    requires Reachable(k, s) && Runs(s, i) && KindOf(a) == OfFork && ForkEnabled(s, i, a)
    ensures Reachable(k, ForkStep(s, i, a))
  {
    Reach(k, s, 0, a, ForkStep(s, i, a));
  }

  const READER: nat := 0
  const WRITER: nat := 1

  /** The pipe after `n` bytes, none read. */
  function Bytes(n: nat): Data {
    PipeData(0, n, true, true)
  }

  function Booted(): State {
    State([Proc(RUNNABLE, 1, None, NoChan, Out(Started), NoTask, None, None), FREE_SLOT], [Cpu(None, Idle)], None, 2,
          [None], [Bytes(0)], {}, {}, map[], multiset{})
  }

  function Running(pid: int, parent: Option<nat>): Proc {
    Proc(RUNNING, pid, parent, NoChan, Run.Free, NoTask, Some(0), None)
  }

  function Ready(pid: int, parent: Option<nat>): Proc {
    Proc(RUNNABLE, pid, parent, NoChan, Out(Started), NoTask, None, None)
  }

  /** Process 0 runs, and has forked process 1. */
  function Forked(): State {
    Booted().(procs := [Running(1, None), Ready(2, Some(0))], cpus := [Cpu(Some(0), InProc(0))], nextpid := 3)
  }

  function Sleeper(): Proc {
    Proc(SLEEPING, 1, None, Addr(0), Out(Slept(0)), NoTask, None, None)
  }

  /** Process 0 sleeps in piperead; process 1 holds the pipe's lock and has written `n` bytes. */
  function Writing(n: nat): State {
    Forked().(procs := [Sleeper(), Running(2, Some(0))], cpus := [Cpu(Some(1), InProc(1))],
              held := [Some(WRITER)], data := [Bytes(n)], owed := if n == 0 then {} else {0})
  }

  // ---- The moments before the first byte is written -----------------------------------------

  function Scanning(): State {
    Booted().(cpus := [Cpu(None, Scan(0))], lock := Some(0))
  }

  function Chosen(): State {
    Booted().(procs := [Running(1, None).(run := Back(Started)), FREE_SLOT], cpus := [Cpu(Some(0), InProc(0))], lock := Some(0))
  }

  function Alone(): State {
    Booted().(procs := [Running(1, None), FREE_SLOT], cpus := [Cpu(Some(0), InProc(0))])
  }

  function Allocated(): State {
    Forked().(procs := [Running(1, None).(task := Forking(1)), Proc(EMBRYO, 2, None, NoChan, Nowhere, NoTask, None, Some(0))])
  }

  function Linked(): State {
    Forked().(procs := [Running(1, None).(task := Adopting(1)), Proc(EMBRYO, 2, Some(0), NoChan, Nowhere, NoTask, None, Some(0))])
  }

  function PipeLocked(): State { Forked().(held := [Some(READER)]) }

  function SleepStarted(): State {
    Forked().(procs := [Running(1, None).(run := SleepHold(0)), Ready(2, Some(0))], held := [Some(READER)], lock := Some(0))
  }

  function PipeDropped(): State {
    Forked().(procs := [Running(1, None).(run := SleepGap(0)), Ready(2, Some(0))], lock := Some(0))
  }

  function Asleep(): State {
    Forked().(procs := [Sleeper(), Ready(2, Some(0))], cpus := [Cpu(Some(0), Returned(0))], lock := Some(0))
  }

  function Resumed(): State {
    Forked().(procs := [Sleeper(), Ready(2, Some(0))], cpus := [Cpu(None, Scan(1))], lock := Some(0))
  }

  function WriterChosen(): State {
    Forked().(procs := [Sleeper(), Running(2, Some(0)).(run := Back(Started))], cpus := [Cpu(Some(1), InProc(1))], lock := Some(0))
  }

  function WriterRuns(): State {
    Forked().(procs := [Sleeper(), Running(2, Some(0))], cpus := [Cpu(Some(1), InProc(1))])
  }

  // The scheduler dispatches process 0, which forks process 1.

  lemma Schedules()
    ensures SchedEnabled(Booted(), 0, SchedAcquire) && SchedStep(Booted(), 0, SchedAcquire) == Scanning()
    ensures SchedEnabled(Scanning(), 0, SchedDispatch) && SchedStep(Scanning(), 0, SchedDispatch) == Chosen()
  {
  }

  lemma Forks()
    ensures ForkEnabled(Alone(), READER, ForkAlloc(1)) && ForkStep(Alone(), READER, ForkAlloc(1)) == Allocated()
    ensures ForkEnabled(Allocated(), READER, ForkLink) && ForkStep(Allocated(), READER, ForkLink) == Linked()
    ensures ForkEnabled(Linked(), READER, ForkPublish) && ForkStep(Linked(), READER, ForkPublish) == Forked()
  {
    assert ForkStep(Alone(), READER, ForkAlloc(1)).procs == Allocated().procs;
    assert ForkStep(Allocated(), READER, ForkLink).procs == Linked().procs;
    assert ForkStep(Linked(), READER, ForkPublish).procs == Forked().procs;
  }

  // piperead on an empty pipe goes to sleep.

  lemma Returns()
    ensures SelfEnabled(XV6, Chosen(), READER, Return) && SelfStep(XV6, Chosen(), 0, READER, Return) == Alone()
    ensures SelfEnabled(XV6, WriterChosen(), WRITER, Return) && SelfStep(XV6, WriterChosen(), 0, WRITER, Return) == WriterRuns()
  {
    assert SelfStep(XV6, Chosen(), 0, READER, Return).procs == Alone().procs;
    assert SelfStep(XV6, WriterChosen(), 0, WRITER, Return).procs == WriterRuns().procs;
  }

  lemma Locks()
    ensures LockEnabled(XV6, Forked(), READER, LockTake(0)) && LockStep(XV6, Forked(), READER, LockTake(0)) == PipeLocked()
    ensures LockEnabled(XV6, WriterRuns(), WRITER, LockTake(0)) && LockStep(XV6, WriterRuns(), WRITER, LockTake(0)) == Writing(0)
  {
  }

  lemma Sleeps()
    ensures SelfEnabled(XV6, PipeLocked(), READER, SleepBegin(0)) && SelfStep(XV6, PipeLocked(), 0, READER, SleepBegin(0)) == SleepStarted()
    ensures SelfEnabled(XV6, SleepStarted(), READER, SleepDrop) && SelfStep(XV6, SleepStarted(), 0, READER, SleepDrop) == PipeDropped()
    ensures LeaveEnabled(PipeDropped(), READER, SleepSwitch) && LeaveStep(PipeDropped(), 0, READER, SleepSwitch) == Asleep()
  {
    assert SelfStep(XV6, PipeLocked(), 0, READER, SleepBegin(0)).procs == SleepStarted().procs;
    assert SelfStep(XV6, SleepStarted(), 0, READER, SleepDrop).procs == PipeDropped().procs;
    assert SelfStep(XV6, SleepStarted(), 0, READER, SleepDrop).held == [None];
    assert LeaveStep(PipeDropped(), 0, READER, SleepSwitch).procs == Asleep().procs;
  }

  // The writer is dispatched.

  lemma Switches()
    ensures SchedEnabled(Asleep(), 0, SchedResume) && SchedStep(Asleep(), 0, SchedResume) == Resumed()
    ensures SchedEnabled(Resumed(), 0, SchedDispatch) && SchedStep(Resumed(), 0, SchedDispatch) == WriterChosen()
  {
    assert SchedStep(Resumed(), 0, SchedDispatch).procs == WriterChosen().procs;
  }

  lemma Start()
    ensures Reachable(XV6, Booted())
  {
    assert Init(Booted());
    assert IsRun(XV6, Begin(Booted()), Booted());
  }

  lemma ReachForked()
    ensures Reachable(XV6, Forked())
  {
    Start();
    Schedules();
    ReachSched(XV6, Booted(), SchedAcquire);
    ReachSched(XV6, Scanning(), SchedDispatch);
    Returns();
    ReachSelf(XV6, Chosen(), READER, Return);
    Forks();
    ReachFork(XV6, Alone(), READER, ForkAlloc(1));
    ReachFork(XV6, Allocated(), READER, ForkLink);
    ReachFork(XV6, Linked(), READER, ForkPublish);
  }

  lemma StartWriting()
    ensures Reachable(XV6, Writing(0))
  {
    ReachForked();
    Locks();
    ReachLock(XV6, Forked(), READER, LockTake(0));
    Sleeps();
    ReachSelf(XV6, PipeLocked(), READER, SleepBegin(0));
    ReachSelf(XV6, SleepStarted(), READER, SleepDrop);
    ReachLeave(XV6, PipeDropped(), READER, SleepSwitch);
    Switches();
    ReachSched(XV6, Asleep(), SchedResume);
    ReachSched(XV6, Resumed(), SchedDispatch);
    Returns();
    ReachSelf(XV6, WriterChosen(), WRITER, Return);
    ReachLock(XV6, WriterRuns(), WRITER, LockTake(0));
  }

  // It writes until the pipe is full.

  lemma ByteAnnounced(n: nat, ch: nat)
    requires 0 < n <= Pipe.PIPESIZE
    ensures ch in {0} <==> ch / 2 == 0 && Announces(ch, Bytes(n - 1), Bytes(n))
  {
    if ch / 2 == 0 {
      assert ch == 0 || ch == 1;
    }
  }

  lemma ByteWritten(n: nat)
    requires 0 < n <= Pipe.PIPESIZE
    ensures var s, a := Writing(n - 1), LockChange(0, Bytes(n), {0});
            LockEnabled(XV6, s, WRITER, a) && LockStep(XV6, s, WRITER, a) == Writing(n)
  {
    var s := Writing(n - 1);
    forall ch: nat ensures ch in {0} <==> XV6.lockOf(ch) == 0 && XV6.wakes(ch, s.data[0], Bytes(n)) {
      ByteAnnounced(n, ch);
    }
    assert Updates(0, Bytes(n - 1), Bytes(n));
  }

  lemma WriteByte(n: nat)
    requires 0 < n <= Pipe.PIPESIZE && Reachable(XV6, Writing(n - 1))
    ensures Reachable(XV6, Writing(n))
  {
    ByteWritten(n);
    ReachLock(XV6, Writing(n - 1), WRITER, LockChange(0, Bytes(n), {0}));
  }

  lemma {:induction false} WriteBytes(n: nat)
    requires n <= Pipe.PIPESIZE
    ensures Reachable(XV6, Writing(n))
  {
    if n == 0 {
      StartWriting();
    } else {
      WriteBytes(n - 1);
      WriteByte(n);
    }
  }

  /** A reachable state with the pipe's lock free in which a reader sleeps although the pipe is full:
      the writer has given up and woken nobody. */
  lemma GivenUpWriterStallsReader() returns (s: State)
    ensures Reachable(XV6, s) && |s.procs| > READER && |s.held| == |s.data| == 1
    ensures s.procs[READER].state == SLEEPING && s.procs[READER].chan == Addr(0)
    ensures s.held[0] == None && FullPipe(s.data[0]) && MayProceed(0, s.data[0]) && s.owed == {}
  {
    WriteBytes(Pipe.PIPESIZE);
    s := Writing(Pipe.PIPESIZE);
    ReachLock(XV6, s, WRITER, LockQuit(0));
    s := LockStep(XV6, s, WRITER, LockQuit(0));
  }
}
