/** What holds of the process table in every reachable state, for any number of processes, CPUs and
    locks. */
module ProcTheorems {
  import opened ProcTable
  import opened Options
  import opened ProcInvariants
  import opened ProcFamily
  import LogDisk
  import Pipe

  lemma Invariant(k: Clients, s: State)
    requires Disciplined(k) && Reachable(k, s)
    ensures Inv(k, s)
  {
    var r :| IsRun(k, r, s);
    RunKeeps(k, r, s);
  }

  predicate OnCpu(s: State, c: nat, i: nat) {
    c < |s.cpus| && s.cpus[c].proc == Some(i)
  }

  /** Whenever ptable.lock is free, RUNNING processes and CPUs with a process correspond one to one. */
  lemma OneToOne(k: Clients, s: State)
    requires Disciplined(k) && Reachable(k, s) && s.lock == None
    ensures forall i :: 0 <= i < |s.procs| ==> (s.procs[i].state == RUNNING <==> exists c: nat :: OnCpu(s, c, i))
    ensures forall c: nat, i: nat :: OnCpu(s, c, i) ==> i < |s.procs|
    ensures forall c: nat, d: nat, i: nat :: OnCpu(s, c, i) && OnCpu(s, d, i) ==> c == d
  {
    Invariant(k, s);
    forall c: nat, i: nat | OnCpu(s, c, i) ensures i < |s.procs| && s.procs[i].state == RUNNING && s.procs[i].on == Some(c) {
      assert CpuOk(s, c);
    }
    forall i | 0 <= i < |s.procs| && s.procs[i].state == RUNNING ensures exists c: nat :: OnCpu(s, c, i) {
      assert SlotOk(k, s, i);
      assert OnCpu(s, s.procs[i].on.value, i);
    }
  }

  /** No process asleep in wait has a zombie child; every process past fork other than init has a
      parent that is neither unused, embryonic nor a zombie. */
  lemma WaitersAreTold(k: Clients, s: State, i: nat)
    requires Disciplined(k) && Reachable(k, s) && i < |s.procs|
    ensures AsleepInWait(s.procs[i], i) ==> !HasZombieChild(s.procs, i)
    ensures i != INIT && PastFork(s.procs[i]) ==>
              s.procs[i].parent.Some? && s.procs[i].parent.value < |s.procs| && Alive(s.procs[s.procs[i].parent.value])
  {
    Invariant(k, s);
    assert SlotOk(k, s, i);
    if HasZombieChild(s.procs, i) {
      var j :| 0 <= j < |s.procs| && s.procs[j].parent == Some(i) && s.procs[j].state == ZOMBIE;
      assert SlotOk(k, s, j);
    }
  }

  /** wait never returns a pid twice, nor one that has not exited; an exited pid not yet returned is a
      zombie whose live parent is not asleep in wait. */
  lemma ReapedOnce(k: Clients, s: State, pid: int)
    requires Disciplined(k) && Reachable(k, s)
    ensures s.reaped[pid] <= 1
    ensures s.reaped[pid] == 1 ==> pid in s.exited
    ensures pid in s.exited && s.reaped[pid] == 0 ==>
              && s.exited[pid] < |s.procs|
              && var z := s.procs[s.exited[pid]];
                 && z.state == ZOMBIE && z.pid == pid && z.parent.Some? && z.parent.value < |s.procs|
                 && Alive(s.procs[z.parent.value]) && !AsleepInWait(s.procs[z.parent.value], z.parent.value)
  {
    Invariant(k, s);
    assert PidDone(s, pid);
    if pid in s.exited && s.reaped[pid] == 0 {
      assert SlotOk(k, s, s.exited[pid]);
    }
  }

  /** No two slots in use share a pid. */
  lemma PidsUnique(k: Clients, s: State, i: nat, j: nat)
    requires Disciplined(k) && Reachable(k, s) && i < |s.procs| && j < |s.procs| && i != j
    requires s.procs[i].state != UNUSED && s.procs[j].state != UNUSED
    ensures s.procs[i].pid != s.procs[j].pid
  {
    Invariant(k, s);
    assert PidsDiffer(s, i, j);
  }

  /** A process asleep on a channel whose lock is free waits for a condition that is false, unless a
      holder of the lock left out a wakeup of the channel and none has come since. */
  lemma NoLostWakeup(k: Clients, s: State, i: nat)
    requires Disciplined(k) && Reachable(k, s) && i < |s.procs|
    requires s.procs[i].state == SLEEPING && s.procs[i].chan.Addr?
    ensures var ch := s.procs[i].chan.ch;
            && k.lockOf(ch) < |s.held| && |s.data| == |s.held|
            && (s.held[k.lockOf(ch)] == None ==> !k.cond(ch, s.data[k.lockOf(ch)]) || ch in s.lost)
  {
    Invariant(k, s);
    assert SlotOk(k, s, i);
    if s.procs[i].chan.ch in s.owed {
      assert OwedOk(k, s, s.procs[i].chan.ch);
    }
  }

  // ---- The log, the sleep locks and the pipes as clients ------------------------------------

  /** Counters of a pipe are 32 bits wide. */
  function Wrap(x: nat): nat {
    x % Pipe.WRAP
  }

  predicate FullPipe(d: Data) {
    d.PipeData? && d.nwrite == Wrap(d.nread + Pipe.PIPESIZE)
  }

  /** What the sleepers on a channel wait for: begin_op, acquiresleep, piperead (on the even channel
      of the pipe's lock) and pipewrite (on the odd one). */
  predicate MayProceed(ch: nat, d: Data) {
    match d
    case LogData(committing, n, outstanding) =>
      ch % 2 == 0 && !committing && n + (outstanding + 1) * LogDisk.MAXOPBLOCKS <= LogDisk.LOGSIZE
    case SleepLockData(locked, _) => ch % 2 == 0 && !locked
    case PipeData(nread, nwrite, readopen, writeopen) =>
      if ch % 2 == 0 then nread != nwrite || !writeopen else !FullPipe(d) || !readopen
    case OtherData(_) => false
  }

  predicate LogUpdates(v: Data, w: Data) {
    && v.LogData? && w.LogData?
    && (|| w == v.(outstanding := v.outstanding + 1)                                          // begin_op
        || (w == v.(n := w.n) && v.n <= w.n <= v.n + 1)                                       // log_write
        || (w == v.(outstanding := v.outstanding - 1, committing := v.outstanding == 1) && !v.committing)  // end_op
        || (w == v.(committing := false) && v.committing))                                    // end_op, after the commit
  }

  predicate SleepLockUpdates(v: Data, w: Data) {
    v.SleepLockData? && w.SleepLockData? && ((!v.locked && w.locked) || w == SleepLockData(false, 0))
  }

  predicate PipeUpdates(v: Data, w: Data) {
    && v.PipeData? && w.PipeData?
    && (|| (w == v.(nwrite := Wrap(v.nwrite + 1)) && !FullPipe(v))
        || (w == v.(nread := Wrap(v.nread + 1)) && v.nread != v.nwrite)
        || w == v.(writeopen := false)
        || w == v.(readopen := false))
  }

  /** The updates made under lock `l`. */
  predicate Updates(l: nat, v: Data, w: Data) {
    LogUpdates(v, w) || SleepLockUpdates(v, w) || PipeUpdates(v, w)
  }

  /** The updates followed by wakeup of `ch`: end_op unless it starts a commit, and after a commit;
      releasesleep; a byte written or the write end closed, for the readers; a byte read or the read
      end closed, for the writers. */
  predicate Announces(ch: nat, v: Data, w: Data) {
    match (v, w)
    case (LogData(c, _, o), LogData(c', _, o')) => ch % 2 == 0 && ((o' == o - 1 && o' != 0) || (c && !c'))
    case (SleepLockData(_, _), SleepLockData(locked, _)) => ch % 2 == 0 && !locked
    case (PipeData(r, n, ro, wo), PipeData(r', n', ro', wo')) =>
      if ch % 2 == 0 then n' != n || wo != wo' else r' != r || ro != ro'
    case _ => false
  }

  /** The one return without the wakeup: pipewrite, finding the pipe full and the read end closed or
      its process killed, does not wake the readers for the bytes it has written. */
  predicate GivesUp(ch: nat, d: Data) {
    ch % 2 == 0 && FullPipe(d)
  }

  /** commit clears the list of blocks without log.lock. */
  predicate Clears(l: nat, v: Data, w: Data) {
    v.LogData? && v.committing && w == v.(n := 0)
  }

  const XV6: Clients := Clients((ch: nat) => ch / 2, MayProceed, Updates, Announces, GivesUp, Clears)

  lemma UpdatesAnnounced(ch: nat, v: Data, w: Data)
    requires Updates(ch / 2, v, w) && MayProceed(ch, w)
    ensures MayProceed(ch, v) || Announces(ch, v, w)
  {
  }

  lemma KernelIsDisciplined()
    ensures Disciplined(XV6)
  {
    forall ch: nat, v, w | XV6.change(XV6.lockOf(ch), v, w) && XV6.cond(ch, w) ensures XV6.cond(ch, v) || XV6.wakes(ch, v, w) {
      UpdatesAnnounced(ch, v, w);
    }
  }

  /** Only wakeups of a pipe's readers are ever left out. */
  ghost predicate LostOk(s: State, ch: nat) {
    ch % 2 == 0 && ch / 2 < |s.data| && s.data[ch / 2].PipeData?
  }

  ghost predicate LostAreReaders(s: State) {
    |s.data| == |s.held| && forall ch :: ch in s.lost ==> LostOk(s, ch)
  }

  lemma LostLock(s: State, i: nat, a: Action)
    requires LostAreReaders(s) && LockEnabled(XV6, s, i, a)
    ensures LostAreReaders(LockStep(XV6, s, i, a))
  {
    var t := LockStep(XV6, s, i, a);
    forall ch | ch in t.lost ensures LostOk(t, ch) {
      if ch in s.lost {
        assert LostOk(s, ch);
      }
    }
  }

  lemma LostStep(s: State, c: nat, a: Action, t: State)
    requires LostAreReaders(s) && Next(XV6, s, c, a) == Some(t)
    ensures LostAreReaders(t)
  {
    if KindOf(a) == OfLock {
      LostLock(s, s.cpus[c].mode.i, a);
    } else {
      assert t.lost <= s.lost && t.data == s.data && |t.held| == |s.held|;
      forall ch | ch in t.lost ensures LostOk(t, ch) {
        assert LostOk(s, ch);
      }
    }
  }

  lemma {:induction false} LostRun(r: History, s: State)
    requires IsRun(XV6, r, s)
    ensures LostAreReaders(s)
  {
    match r
    case Begin(_) =>
    case More(before, c, a) =>
      var t :| IsRun(XV6, before, t) && Next(XV6, t, c, a) == Some(s);
      LostRun(before, t);
      LostStep(t, c, a, s);
  }

  /** Whoever sleeps in begin_op, acquiresleep or pipewrite while the lock is free really has to wait;
      so does a sleeper in piperead, unless since the last wakeup a writer gave up on a full pipe. */
  lemma KernelNeverStalls(s: State, i: nat, ch: nat)
    requires Reachable(XV6, s) && i < |s.procs| && s.procs[i].state == SLEEPING && s.procs[i].chan == Addr(ch)
    requires ch / 2 < |s.held| && s.held[ch / 2] == None
    ensures |s.data| == |s.held|
    ensures s.data[ch / 2].LogData? && ch % 2 == 0 ==>
              var d := s.data[ch / 2];
              d.committing || d.n + (d.outstanding + 1) * LogDisk.MAXOPBLOCKS > LogDisk.LOGSIZE
    ensures s.data[ch / 2].SleepLockData? && ch % 2 == 0 ==> s.data[ch / 2].locked
    ensures s.data[ch / 2].PipeData? ==>
              var d := s.data[ch / 2];
              if ch % 2 == 0 then (d.nread == d.nwrite && d.writeopen) || ch in s.lost
              else FullPipe(d) && d.readopen
  {
    KernelIsDisciplined();
    NoLostWakeup(XV6, s, i);
    var r :| IsRun(XV6, r, s);
    LostRun(r, s);
    if ch in s.lost {
      assert LostOk(s, ch);
    }
  }
}
