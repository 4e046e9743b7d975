/** Every interleaving of file-system operations, group commits, crashes and recoveries over
    log.c, as a state machine whose disk steps are single block writes. log_write is two steps:
    its test of the list's length is made before it takes log.lock. */
module LogSystem {
  import opened Blocks
  import opened LogDisk
  import opened Log
  import opened Options

  /** A log_write that has passed its test and has yet to take the lock. */
  datatype Call = Call(b: nat, data: Block)

  /** An open operation: the distinct blocks it has logged, the commit it began under, and the
      log_write it is in. */
  datatype Op = Op(wrote: set<nat>, epoch: nat, call: Option<Call>)

  datatype Phase =
    | Running
    | Committing(txn: Txn, k: nat)        // `k` of the commit's writes are on disk
    | Recovering(rec: Recovery, k: nat)   // `k` of the recovery's writes are on disk

  datatype State = State(
    disk: Disk, pins: map<nat, Block>, lh: seq<nat>, outstanding: nat, committing: bool,
    ops: seq<Op>, phase: Phase, epoch: nat)

  datatype Action =
    | Begin
    | LogTest(i: nat, b: nat, data: Block)  // open operation `i` calls log_write and passes its tests
    | LogAppend(i: nat)                     // it takes the lock, lists and pins the block
    | End(i: nat)
    | CommitWrite
    | CommitDone
    | RecoverWrite
    | RecoverDone
    | Crash

  /** The log's place, the disk's size, and how many distinct blocks an operation may log. */
  datatype Config = Config(lay: Layout, nblocks: nat, limit: nat) {
    ghost predicate Good() { 0 < lay.size && lay.start + lay.size <= nblocks <= 0x1_0000_0000 && limit <= MAXOPBLOCKS }
    predicate Home(b: nat) { b < nblocks && !lay.InLog(b) }

    /** The log area holds the longest list that operations of this size can build. */
    predicate Roomy() { limit == 0 || lay.size == 1 || lay.size > MAXOPBLOCKS + 2 * limit }

    /** No commit ever writes outside the log area: every list fits it, or a list that does not pins
        every buffer, and commit panics before its first write. */
    predicate Contained() { Roomy() || lay.size >= NBUF }
  }

  // ---- Steps ------------------------------------------------------------------------

  /** Operation `i` is open, not inside log_write, and may log block `b` within its limit. */
  ghost predicate MayLog(c: Config, s: State, i: nat, b: nat) {
    && i < |s.ops| && s.ops[i].call.None? && c.Home(b)
    && (b in s.ops[i].wrote || |s.ops[i].wrote| < c.limit)
  }

  /** commit needs a buffer besides those pinned by the list; without one it panics in bget, and only
      a crash can follow. Its next write is any of its writes when the list fits the log area,
      otherwise those of write_log up to the first that falls outside; what follows that one is not
      modelled. */
  ghost predicate CanWrite(t: Txn, k: nat) {
    if t.Good() then k < t.Steps else t.Overruns() && k < t.lay.size
  }

  ghost function CommitOp(t: Txn, k: nat): Write
    requires CanWrite(t, k)
  {
    if t.Good() then t.Op(k) else t.SpillOp(k)
  }

  ghost predicate Enabled(c: Config, s: State, a: Action) {
    match a
    case Begin => !s.phase.Recovering? && !MustWait(s.lh, s.outstanding, s.committing)
    case LogTest(i, b, _) => MayLog(c, s, i, b) && !LogWritePanics(c.lay, s.lh, s.outstanding)
    case LogAppend(i) => i < |s.ops| && s.ops[i].call.Some?
    case End(i) => i < |s.ops| && s.ops[i].call.None? && s.outstanding > 0 && !s.committing
    case CommitWrite => s.phase.Committing? && s.lh != [] && |s.lh| < NBUF && CanWrite(s.phase.txn, s.phase.k)
    case CommitDone => s.phase.Committing? && (s.lh == [] || (s.phase.txn.Good() && s.phase.k == s.phase.txn.Steps))
    case RecoverWrite => s.phase.Recovering? && s.phase.rec.Good() && s.phase.k < s.phase.rec.Steps
    case RecoverDone => s.phase.Recovering? && s.phase.k == s.phase.rec.Steps
    case Crash => GoodDisk(c.lay, s.disk)
  }

  /** Power comes back: memory is lost, recovery is about to start. */
  ghost function Restart(c: Config, disk: Disk, epoch: nat): State
    requires GoodDisk(c.lay, disk)
  {
    State(disk, map[], [], 0, false, [], Recovering(RecoveryOf(c.lay, disk), 0), epoch)
  }

  ghost function Step(c: Config, s: State, a: Action): State
    requires Enabled(c, s, a)
  {
    match a
    case Begin => s.(outstanding := s.outstanding + 1, ops := s.ops + [Op({}, s.epoch, None)])
    case LogTest(i, b, data) => s.(ops := s.ops[i := s.ops[i].(call := Some(Call(b, data)))])
    case LogAppend(i) =>
      var Call(b, data) := s.ops[i].call.value;
      s.(lh := Absorb(s.lh, b), pins := s.pins[b := data],
         ops := s.ops[i := Op(s.ops[i].wrote + {b}, s.ops[i].epoch, None)])
    case End(i) =>
      var left := s.(outstanding := s.outstanding - 1, ops := s.ops[..i] + s.ops[i + 1..]);
      if left.outstanding == 0
      then left.(committing := true, phase := Committing(Txn(c.lay, s.disk, View(s.disk, s.pins), s.lh), 0))
      else left
    case CommitWrite =>
      s.(disk := Put(s.disk, CommitOp(s.phase.txn, s.phase.k)), phase := Committing(s.phase.txn, s.phase.k + 1))
    case CommitDone =>
      s.(lh := [], pins := map[], committing := false, phase := Running, epoch := s.epoch + 1)
    case RecoverWrite =>
      s.(disk := Put(s.disk, s.phase.rec.Op(s.phase.k)), phase := Recovering(s.phase.rec, s.phase.k + 1))
    case RecoverDone => s.(phase := Running)
    case Crash => Restart(c, s.disk, s.epoch)
  }

  ghost predicate Init(c: Config, s: State) {
    |s.disk| == c.nblocks && GoodDisk(c.lay, s.disk) && s == Restart(c, s.disk, 0)
  }

  ghost predicate Next(c: Config, s: State, t: State) {
    exists a :: Enabled(c, s, a) && t == Step(c, s, a)
  }

  ghost predicate IsRun(c: Config, run: seq<State>) {
    && |run| > 0 && Init(c, run[0])
    && forall i :: 0 <= i < |run| - 1 ==> Next(c, run[i], run[i + 1])
  }

  ghost predicate Reachable(c: Config, s: State) {
    exists run :: IsRun(c, run) && run[|run| - 1] == s
  }

  // ---- The invariant ----------------------------------------------------------------

  /** Budget of `m` blocks each, minus what the open operations have logged. */
  ghost function Unused(ops: seq<Op>, m: nat): int {
    if ops == [] then 0 else Unused(ops[..|ops| - 1], m) + m - |ops[|ops| - 1].wrote|
  }

  /** An open operation has logged blocks of the current group only, within its limit, and the
      block it is about to log is within it too. */
  ghost predicate OpOk(c: Config, s: State, i: nat)
    requires i < |s.ops|
  {
    var op := s.ops[i];
    && op.wrote <= Listed(s.lh) && |op.wrote| <= c.limit && op.epoch == s.epoch
    && (op.call.Some? ==>
          c.lay.size > 1 && c.Home(op.call.value.b) && (op.call.value.b in op.wrote || |op.wrote| < c.limit))
  }

  /** What every state keeps whatever the phase, and whatever the size of the log area. */
  ghost predicate MemoryInv(c: Config, s: State) {
    && |s.disk| == c.nblocks
    && Listable(c.lay, c.nblocks, s.lh) && s.pins.Keys == Listed(s.lh)
    && s.outstanding == |s.ops|
    && (forall i :: 0 <= i < |s.ops| ==> OpOk(c, s, i))
    && |s.lh| + Unused(s.ops, c.limit) <= MAXOPBLOCKS + 2 * c.limit
    && |s.lh| + Unused(s.ops, MAXOPBLOCKS) <= LOGSIZE
    && (s.lh != [] ==> s.ops != [] || s.committing)
    && (s.lh != [] ==> c.limit > 0 && c.lay.size > 1)
    && (s.committing <==> s.phase.Committing?)
    && (s.phase.Committing? ==> s.ops == [])
    && (s.phase.Recovering? ==> s.ops == [] && s.lh == [])
  }

  /** What the phases say about the disk. */
  ghost predicate PhaseInv(c: Config, s: State)
    requires c.lay.Fits(s.disk)
  {
    match s.phase
    case Running => HeadCount(s.disk[c.lay.start]) == 0
    case Committing(t, k) =>
      && t.lay == c.lay && t.lh == s.lh && c.lay.Fits(t.disk) && |t.disk| == |s.disk|
      && t.view == View(t.disk, s.pins) && HeadCount(t.disk[c.lay.start]) == 0
      && (if |s.lh| < NBUF then t.Good() && k <= t.Steps && s.disk == t.Stage(k) && (s.lh == [] ==> k == 0)
          else k == 0 && s.disk == t.disk)
    case Recovering(r, k) =>
      && GoodDisk(c.lay, r.disk) && r == RecoveryOf(c.lay, r.disk) && k <= r.Steps
      && s.disk == r.Stage(k)
  }

  ghost predicate Inv(c: Config, s: State) {
    c.Good() && MemoryInv(c, s) && c.lay.Fits(s.disk) && (c.Contained() ==> PhaseInv(c, s))
  }

  // ---- Reservation arithmetic -------------------------------------------------------

  lemma {:induction false} UnusedAt(ops: seq<Op>, m: nat, i: nat, op: Op)
    requires i < |ops|
    ensures Unused(ops[i := op], m) == Unused(ops, m) + |ops[i].wrote| - |op.wrote|
  {
    var n := |ops| - 1;
    if i == n {
      assert ops[i := op][..n] == ops[..n];
    } else {
      assert ops[i := op][..n] == ops[..n][i := op];
      UnusedAt(ops[..n], m, i, op);
    }
  }

  lemma {:induction false} UnusedWithout(ops: seq<Op>, m: nat, i: nat)
    requires i < |ops|
    ensures Unused(ops[..i] + ops[i + 1..], m) == Unused(ops, m) - m + |ops[i].wrote|
  {
    var n := |ops| - 1;
    if i == n {
      assert ops[..i] + ops[i + 1..] == ops[..n];
    } else {
      var rest := ops[..i] + ops[i + 1..];
      assert rest[..|rest| - 1] == ops[..n][..i] + ops[..n][i + 1..];
      UnusedWithout(ops[..n], m, i);
    }
  }

  lemma UnusedSnoc(ops: seq<Op>, m: nat, op: Op)
    ensures Unused(ops + [op], m) == Unused(ops, m) + m - |op.wrote|
  {
    assert (ops + [op])[..|ops|] == ops;
  }

  lemma {:induction false} UnusedBounds(ops: seq<Op>, m: nat)
    requires forall i :: 0 <= i < |ops| ==> |ops[i].wrote| <= m
    ensures 0 <= Unused(ops, m) <= m * |ops|
  {
    if ops != [] { UnusedBounds(ops[..|ops| - 1], m); }
  }

  // ---- Preservation -----------------------------------------------------------------

  lemma OpsBounded(c: Config, s: State, m: nat)
    requires MemoryInv(c, s) && c.limit <= m
    ensures 0 <= Unused(s.ops, m) <= m * |s.ops|
  {
    forall i | 0 <= i < |s.ops| ensures |s.ops[i].wrote| <= m {
      assert OpOk(c, s, i);
    }
    UnusedBounds(s.ops, m);
  }

  /** In a log area with room, the list never overruns it. */
  lemma StaysInside(c: Config, s: State)
    requires c.Good() && c.Roomy() && MemoryInv(c, s)
    ensures GoodList(c.lay, c.nblocks, s.lh)
  {
    OpsBounded(c, s, c.limit);
  }

  /** A list that leaves commit a buffer fits the log area. */
  lemma CommitsInside(c: Config, s: State)
    requires c.Good() && c.Contained() && MemoryInv(c, s) && |s.lh| < NBUF
    ensures GoodList(c.lay, c.nblocks, s.lh)
  {
    if c.Roomy() {
      StaysInside(c, s);
    }
  }

  lemma BeginKeeps(c: Config, s: State)
    requires Inv(c, s) && Enabled(c, s, Begin)
    ensures Inv(c, Step(c, s, Begin))
  {
    UnusedSnoc(s.ops, c.limit, Op({}, s.epoch, None));
    UnusedSnoc(s.ops, MAXOPBLOCKS, Op({}, s.epoch, None));
    OpsBounded(c, s, c.limit);
    OpsBounded(c, s, MAXOPBLOCKS);
    var t := Step(c, s, Begin);
    forall i | 0 <= i < |t.ops| ensures OpOk(c, t, i) {
      assert i < |s.ops| ==> OpOk(c, s, i);
    }
  }

  lemma LogTestKeeps(c: Config, s: State, i: nat, b: nat, data: Block)
    requires Inv(c, s) && Enabled(c, s, LogTest(i, b, data))
    ensures Inv(c, Step(c, s, LogTest(i, b, data)))
  {
    var t := Step(c, s, LogTest(i, b, data));
    UnusedAt(s.ops, c.limit, i, t.ops[i]);
    UnusedAt(s.ops, MAXOPBLOCKS, i, t.ops[i]);
    forall j | 0 <= j < |t.ops| ensures OpOk(c, t, j) {
      assert OpOk(c, s, j);
    }
    assert s.phase.Running?;
  }

  lemma AbsorbListable(lay: Layout, n: nat, lh: seq<nat>, b: nat)
    requires Listable(lay, n, lh) && b < n && !lay.InLog(b) && (b in lh || |lh| < LOGSIZE)
    ensures Listable(lay, n, Absorb(lh, b))
    ensures Listed(Absorb(lh, b)) == Listed(lh) + {b}
  {
    if b !in lh { AppendUnlisted(lay, n, lh, b); }
  }

  lemma OpGrows(wrote: set<nat>, lh: seq<nat>, b: nat)
    requires wrote <= Listed(lh)
    ensures wrote <= Listed(Absorb(lh, b)) && wrote + {b} <= Listed(Absorb(lh, b))
    ensures |wrote + {b}| == |wrote| + if b in wrote then 0 else 1
  {
    if b in wrote { assert wrote + {b} == wrote; }
  }

  lemma OpsGrow(c: Config, s: State, i: nat, j: nat)
    requires MemoryInv(c, s) && Enabled(c, s, LogAppend(i)) && j < |s.ops|
    ensures OpOk(c, Step(c, s, LogAppend(i)), j)
  {
    assert OpOk(c, s, j);
    OpGrows(s.ops[j].wrote, s.lh, s.ops[i].call.value.b);
  }

  lemma BudgetShrinks(c: Config, s: State, i: nat, m: nat)
    requires MemoryInv(c, s) && Enabled(c, s, LogAppend(i))
    ensures var t := Step(c, s, LogAppend(i));
            |t.lh| + Unused(t.ops, m) <= |s.lh| + Unused(s.ops, m)
  {
    assert OpOk(c, s, i);
    var b := s.ops[i].call.value.b;
    OpGrows(s.ops[i].wrote, s.lh, b);
    UnusedAt(s.ops, m, i, Op(s.ops[i].wrote + {b}, s.ops[i].epoch, None));
  }

  /** Whatever was appended since the test, the reservation leaves room in the header. */
  lemma RoomInHeader(c: Config, s: State, i: nat)
    requires c.Good() && MemoryInv(c, s) && Enabled(c, s, LogAppend(i))
    ensures s.ops[i].call.value.b in s.lh || |s.lh| < LOGSIZE
  {
    assert OpOk(c, s, i);
    var b := s.ops[i].call.value.b;
    if b !in s.lh {
      UnusedWithout(s.ops, MAXOPBLOCKS, i);
      var rest := s.ops[..i] + s.ops[i + 1..];
      forall j | 0 <= j < |rest| ensures |rest[j].wrote| <= MAXOPBLOCKS {
        assert OpOk(c, s, if j < i then j else j + 1);
      }
      UnusedBounds(rest, MAXOPBLOCKS);
    }
  }

  lemma LogAppendMemory(c: Config, s: State, i: nat)
    requires c.Good() && MemoryInv(c, s) && Enabled(c, s, LogAppend(i))
    ensures MemoryInv(c, Step(c, s, LogAppend(i)))
  {
    assert OpOk(c, s, i);
    RoomInHeader(c, s, i);
    AbsorbListable(c.lay, c.nblocks, s.lh, s.ops[i].call.value.b);
    BudgetShrinks(c, s, i, c.limit);
    BudgetShrinks(c, s, i, MAXOPBLOCKS);
    var t := Step(c, s, LogAppend(i));
    forall j | 0 <= j < |t.ops| ensures OpOk(c, t, j) {
      OpsGrow(c, s, i, j);
    }
  }

  lemma LogAppendKeeps(c: Config, s: State, i: nat)
    requires Inv(c, s) && Enabled(c, s, LogAppend(i))
    ensures Inv(c, Step(c, s, LogAppend(i)))
  {
    LogAppendMemory(c, s, i);
    assert s.phase.Running?;
  }

  lemma EndMemory(c: Config, s: State, i: nat)
    requires c.Good() && MemoryInv(c, s) && Enabled(c, s, End(i))
    ensures MemoryInv(c, Step(c, s, End(i)))
  {
    assert OpOk(c, s, i);
    UnusedWithout(s.ops, c.limit, i);
    UnusedWithout(s.ops, MAXOPBLOCKS, i);
    EndOps(c, s, i);
  }

  lemma WithoutAt(ops: seq<Op>, i: nat, j: nat)
    requires i < |ops| && j < |ops| - 1
    ensures (ops[..i] + ops[i + 1..])[j] == ops[if j < i then j else j + 1]
  {
  }

  lemma EndOps(c: Config, s: State, i: nat)
    requires MemoryInv(c, s) && Enabled(c, s, End(i))
    ensures var t := Step(c, s, End(i)); forall j :: 0 <= j < |t.ops| ==> OpOk(c, t, j)
  {
    var t := Step(c, s, End(i));
    forall j | 0 <= j < |t.ops| ensures OpOk(c, t, j) {
      WithoutAt(s.ops, i, j);
      assert OpOk(c, s, if j < i then j else j + 1);
    }
  }

  lemma EndKeeps(c: Config, s: State, i: nat)
    requires Inv(c, s) && Enabled(c, s, End(i))
    ensures Inv(c, Step(c, s, End(i)))
  {
    EndMemory(c, s, i);
    if c.Contained() && |s.lh| < NBUF {
      CommitsInside(c, s);
    }
  }

  lemma CommitWriteKeeps(c: Config, s: State)
    requires Inv(c, s) && Enabled(c, s, CommitWrite)
    ensures Inv(c, Step(c, s, CommitWrite))
  {
    if c.Contained() {
      CommitStage(s.phase.txn, s.phase.k);
    }
  }

  lemma CommitStage(t: Txn, k: nat)
    requires t.Good() && CanWrite(t, k)
    ensures t.Stage(k + 1) == Put(t.Stage(k), CommitOp(t, k))
  {
  }

  lemma CommitDoneKeeps(c: Config, s: State)
    requires Inv(c, s) && Enabled(c, s, CommitDone)
    ensures Inv(c, Step(c, s, CommitDone))
  {
    if c.Contained() {
      CommitPrefix(s.phase.txn, s.phase.k);
    }
  }

  lemma RecoverWriteKeeps(c: Config, s: State)
    requires Inv(c, s) && Enabled(c, s, RecoverWrite)
    ensures Inv(c, Step(c, s, RecoverWrite))
  {
    var Recovering(r, k) := s.phase;
    if c.Contained() {
      assert r.Stage(k + 1) == Put(r.Stage(k), r.Op(k));
    }
  }

  lemma RecoverDoneKeeps(c: Config, s: State)
    requires Inv(c, s) && Enabled(c, s, RecoverDone)
    ensures Inv(c, Step(c, s, RecoverDone))
  {
    if c.Contained() {
      RecoverPrefix(c.lay, s.phase.rec.disk, s.phase.k);
    }
  }

  lemma CrashKeeps(c: Config, s: State)
    requires Inv(c, s) && Enabled(c, s, Crash)
    ensures Inv(c, Step(c, s, Crash))
  {
  }

  /** Where commits stay inside the log area, the machine may crash in any state. */
  lemma CrashSafe(c: Config, s: State)
    requires Inv(c, s) && c.Contained()
    ensures GoodDisk(c.lay, s.disk)
    ensures Enabled(c, s, Crash) && Inv(c, Step(c, s, Crash))
  {
    match s.phase
    case Committing(t, k) =>
      if |s.lh| < NBUF {
        CommitPrefix(t, k);
      }
    case Recovering(r, k) => RecoverPrefix(c.lay, r.disk, k);
    case Running =>
  }

  lemma StepKeeps(c: Config, s: State, a: Action)
    requires Inv(c, s) && Enabled(c, s, a)
    ensures Inv(c, Step(c, s, a))
  {
    match a
    case Begin => BeginKeeps(c, s);
    case LogTest(i, b, data) => LogTestKeeps(c, s, i, b, data);
    case LogAppend(i) => LogAppendKeeps(c, s, i);
    case End(i) => EndKeeps(c, s, i);
    case Crash => CrashKeeps(c, s);
    case CommitWrite => CommitWriteKeeps(c, s);
    case CommitDone => CommitDoneKeeps(c, s);
    case RecoverWrite => RecoverWriteKeeps(c, s);
    case RecoverDone => RecoverDoneKeeps(c, s);
  }

  lemma {:induction false} RunKeeps(c: Config, run: seq<State>, n: nat)
    requires c.Good() && IsRun(c, run) && n < |run|
    ensures Inv(c, run[n])
  {
    if n > 0 {
      RunKeeps(c, run, n - 1);
      assert Next(c, run[n - 1], run[n - 1 + 1]);
      var a :| Enabled(c, run[n - 1], a) && run[n] == Step(c, run[n - 1], a);
      StepKeeps(c, run[n - 1], a);
    }
  }
}
