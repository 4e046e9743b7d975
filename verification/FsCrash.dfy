/** The file system over the log: if the log_write calls of every group are those of whole calls, one
    after the other, then after a crash at any moment, and however often recovery is interrupted,
    the disk holds the file system that some of those calls, each of them whole, have led to. */
module FsCrash {
  import opened Blocks
  import opened FsModel
  import opened FsLayout
  import opened FsAlloc
  import opened FsCalls
  import opened LogDisk
  import opened LogSystem
  import opened LogRefinement
  import opened LogGroups
  import Mkfs

  /** The log of the file system described by `sb`, under operations of at most `limit` blocks. */
  function ConfigOf(sb: Super, limit: nat): Config {
    Config(Layout(sb.logstart, sb.nlog), sb.size, limit)
  }

  ghost predicate FsRun(sb: Super, c: Config, run: seq<State>) {
    sb.Good() && c == ConfigOf(sb, c.limit) && Stack(c, run)
  }

  ghost function Good(sb: Super): iset<Disk> {
    iset d: Disk | Consistent(sb, d)
  }

  // ---- Any operations that keep the file system consistent -----------------------------------

  /** In every run of the log under operations that keep the file system consistent, what a crash
      would keep is a consistent file system at every moment, and so is what processes see whenever
      no operation is open. */
  lemma CrashConsistent(sb: Super, c: Config, run: seq<State>, n: nat)
    requires FsRun(sb, c, run) && GroupsKeep(Good(sb), c, run) && n < |run|
    requires Ok(c, run[0]) && Consistent(sb, Abs(c, run[0]).durable)
    ensures Ok(c, run[n]) && Consistent(sb, Abs(c, run[n]).durable)
    ensures run[n].ops == [] ==> Consistent(sb, Abs(c, run[n]).visible)
  {
    RunSafe(Good(sb), c, run, n);
  }

  /** A recovery that is allowed to finish leaves on disk what the crash kept. */
  lemma RecoveredIs(sb: Super, c: Config, s: State)
    requires sb.Good() && c == ConfigOf(sb, c.limit) && Ok(c, s)
    ensures var r := RecoveryOf(c.lay, s.disk); r.Good() && SameHome(sb, Abs(c, s).durable, r.Stage(r.Steps))
  {
    RecoverPrefix(c.lay, s.disk, RecoveryOf(c.lay, s.disk).Steps);
  }

  lemma RecoveredConsistent(sb: Super, c: Config, run: seq<State>, n: nat)
    requires FsRun(sb, c, run) && GroupsKeep(Good(sb), c, run) && n < |run|
    requires Ok(c, run[0]) && Consistent(sb, Abs(c, run[0]).durable)
    ensures GoodDisk(c.lay, run[n].disk)
    ensures var r := RecoveryOf(c.lay, run[n].disk); r.Good() && Consistent(sb, r.Stage(r.Steps))
  {
    CrashConsistent(sb, c, run, n);
    RecoveredIs(sb, c, run[n]);
    var r := RecoveryOf(c.lay, run[n].disk);
    SameConsistent(sb, Abs(c, run[n]).durable, r.Stage(r.Steps));
  }

  // ---- Whole calls, one after the other --------------------------------------------------------

  /** The log_write calls of the group are those of calls made one after the other. */
  ghost predicate SerialGroup(sb: Super, c: Config, run: seq<State>, m: nat, n: nat) {
    Group(run, m, n) && Ok(c, run[m]) && Consistent(sb, Abs(c, run[m]).visible) ==>
      exists h :: Serial(sb, Abs(c, run[m]).visible, h) && TraceOf(h) == GroupTrace(c, run, m, n)
  }

  ghost predicate SerialRun(sb: Super, c: Config, run: seq<State>) {
    FsRun(sb, c, run) && forall m: nat, n: nat :: SerialGroup(sb, c, run, m, n)
  }

  ghost predicate LeadsTo(sb: Super, d0: Disk, d: Disk, h: History) {
    Serial(sb, d0, h) && d == Replay(d0, TraceOf(h))
  }

  ghost predicate WholeCalls(sb: Super, d0: Disk, d: Disk) {
    exists h :: LeadsTo(sb, d0, d, h)
  }

  /** The disks whole calls lead to from `d0`. */
  ghost function Reached(sb: Super, d0: Disk): iset<Disk> {
    iset d: Disk | WholeCalls(sb, d0, d)
  }

  lemma SerialGroupKeeps(sb: Super, c: Config, run: seq<State>, d0: Disk, m: nat, n: nat)
    requires SerialRun(sb, c, run) && Consistent(sb, d0)
    ensures GroupKeeps(Reached(sb, d0), c, run, m, n) && GroupKeeps(Good(sb), c, run, m, n)
  {
    if Group(run, m, n) {
      GroupEffect(c, run, m, n);
      var d := Abs(c, run[m]).visible;
      if d in Good(sb) {
        assert SerialGroup(sb, c, run, m, n);
        var h :| Serial(sb, d, h) && TraceOf(h) == GroupTrace(c, run, m, n);
        SerialConsistent(sb, d, h);
      }
      if d in Reached(sb, d0) {
        ReachMore(sb, c, run, d0, m, n);
      }
    }
  }

  lemma ReachMore(sb: Super, c: Config, run: seq<State>, d0: Disk, m: nat, n: nat)
    requires SerialRun(sb, c, run) && Consistent(sb, d0) && Group(run, m, n) && Ok(c, run[m]) && Ok(c, run[n])
    requires Abs(c, run[m]).visible in Reached(sb, d0)
    requires Abs(c, run[n]).visible == Replay(Abs(c, run[m]).visible, GroupTrace(c, run, m, n))
    ensures Abs(c, run[n]).visible in Reached(sb, d0)
  {
    var d := Abs(c, run[m]).visible;
    var g :| LeadsTo(sb, d0, d, g);
    SerialConsistent(sb, d0, g);
    assert SerialGroup(sb, c, run, m, n);
    var h :| Serial(sb, d, h) && TraceOf(h) == GroupTrace(c, run, m, n);
    JoinSerial(sb, d0, g, h);
    assert LeadsTo(sb, d0, Abs(c, run[n]).visible, Join(g, h));
  }

  /** A run of whole calls keeps the file system consistent, group by group. */
  lemma SerialRunKeeps(sb: Super, c: Config, run: seq<State>, d0: Disk)
    requires SerialRun(sb, c, run) && Consistent(sb, d0)
    ensures GroupsKeep(Reached(sb, d0), c, run) && GroupsKeep(Good(sb), c, run)
  {
    forall m: nat, n: nat ensures GroupKeeps(Reached(sb, d0), c, run, m, n) && GroupKeeps(Good(sb), c, run, m, n) {
      SerialGroupKeeps(sb, c, run, d0, m, n);
    }
  }

  /** In every run of whole calls, crashes included, what a crash would keep at any moment is the
      disk at boot after some sequence of calls, each of them whole, one after the other. */
  lemma CrashKeepsWholeCalls(sb: Super, c: Config, run: seq<State>, n: nat)
    requires SerialRun(sb, c, run) && n < |run| && Ok(c, run[0]) && Consistent(sb, Abs(c, run[0]).durable)
    ensures Ok(c, run[n]) && WholeCalls(sb, Abs(c, run[0]).durable, Abs(c, run[n]).durable)
  {
    var d0 := Abs(c, run[0]).durable;
    SerialRunKeeps(sb, c, run, d0);
    assert LeadsTo(sb, d0, d0, Nothing);
    RunSafe(Reached(sb, d0), c, run, n);
    assert Abs(c, run[n]).durable in Reached(sb, d0);
  }

  /** The machine booted on an image mkfs made: whatever calls are made and whenever it crashes, a
      finished recovery leaves a consistent file system on the disk. */
  lemma FromMkfs(sb: Super, c: Config, run: seq<State>, n: nat, own: FsModel.Owner)
    requires SerialRun(sb, c, run) && n < |run|
    requires Mkfs.EmptyLog(sb, run[0].disk) && FsModel.Sound(sb.Geo(), Decode(sb, run[0].disk), own) && NoHoles(Decode(sb, run[0].disk))
    ensures GoodDisk(c.lay, run[n].disk)
    ensures var r := RecoveryOf(c.lay, run[n].disk); r.Good() && Consistent(sb, r.Stage(r.Steps))
  {
    RunOk(c, run, 0);
    ZeroWord(0);
    assert Consistent(sb, run[0].disk);
    SameConsistent(sb, run[0].disk, Abs(c, run[0]).durable);
    SerialRunKeeps(sb, c, run, Abs(c, run[0]).durable);
    RecoveredConsistent(sb, c, run, n);
  }

  // ---- The calls of fs.c are operations of the log ----------------------------------------------

  lemma {:induction false} HomeBlocks(sb: Super, t: Trace, b: nat)
    requires OnHome(sb, t) && b in Touches(t)
    ensures sb.inodestart <= b < sb.size
  {
    match t
    case Boot =>
    case Then(before, w) =>
      if b in Touches(before) {
        HomeBlocks(sb, before, b);
      }
  }

  /** A call that logs no more blocks than an operation may, made when no operation is open, is an
      operation of the log, after which processes see what the call did. */
  lemma CallIsOperation(sb: Super, c: Config, s: State, d: Disk, call: FsCalls.Call, t: Trace) returns (u: State)
    requires sb.Good() && c == ConfigOf(sb, c.limit) && Reachable(c, s) && Ok(c, s) && s.phase.Running? && s.ops == []
    requires c.limit < c.lay.size - 1 && c.limit < LOGSIZE && |Touches(t)| <= c.limit
    requires IsCall(sb, d, call, t) && SameHome(sb, d, Abs(c, s).visible)
    ensures Reachable(c, u) && Ok(c, u) && u.ops == []
    ensures IsCall(sb, Abs(c, s).visible, call, t) && Abs(c, u).visible == Replay(Abs(c, s).visible, t)
    ensures Does(Decode(sb, Abs(c, s).visible), call, Decode(sb, Abs(c, u).visible))
  {
    CallElsewhere(sb, d, Abs(c, s).visible, call, t);
    forall b | b in Touches(t) ensures c.Home(b) {
      HomeBlocks(sb, t, b);
    }
    u := OperationRuns(c, s, t);
  }
}
