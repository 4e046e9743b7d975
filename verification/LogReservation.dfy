/** begin_op's space reservation, measured exactly: when can log_write panic with
    "too big a transaction" although every operation stays within its block limit? */
module LogReservation {
  import opened Blocks
  import opened LogDisk
  import opened Log
  import opened LogSystem
  import opened LogRuns

  /** What holds in every state of every interleaving: no operation is open during a commit, the
      log list plus the unused budget of all open operations fits the log, and every open
      operation logs into the commit it began under. */
  lemma ReservationHolds(c: Config, s: State)
    requires c.Good() && Reachable(c, s)
    ensures s.committing ==> s.outstanding == 0 && s.ops == []
    ensures |s.lh| + Unused(s.ops, MAXOPBLOCKS) <= LOGSIZE
    ensures forall i :: 0 <= i < |s.ops| ==> s.ops[i].epoch == s.epoch && s.ops[i].wrote <= Listed(s.lh)
  {
    var run :| IsRun(c, run) && run[|run| - 1] == s;
    RunKeeps(c, run, |run| - 1);
    forall i | 0 <= i < |s.ops| ensures s.ops[i].epoch == s.epoch && s.ops[i].wrote <= Listed(s.lh) {
      assert OpOk(c, s, i);
    }
  }

  /** Some reachable state has an open operation whose permitted log_write panics. */
  ghost predicate CanPanic(c: Config) {
    exists s, i, b :: Reachable(c, s) && MayLog(c, s, i, b) && LogWritePanics(c.lay, s.lh, s.outstanding)
  }

  /** The log list can grow to MAXOPBLOCKS + 2 * limit blocks and no further, so operations that
      log at most `limit` distinct blocks are safe exactly when that many blocks leave room for
      one more: log_write refuses even a block it would absorb once the log is full. */
  lemma PanicFreeExactly(c: Config)
    requires Wide(c) && c.limit > 0
    ensures !CanPanic(c) <==>
            MAXOPBLOCKS + 2 * c.limit < LOGSIZE && MAXOPBLOCKS + 2 * c.limit < c.lay.size - 1
  {
    if MAXOPBLOCKS + 2 * c.limit < LOGSIZE && MAXOPBLOCKS + 2 * c.limit < c.lay.size - 1 {
      forall s, i, b | Reachable(c, s) && MayLog(c, s, i, b)
        ensures !LogWritePanics(c.lay, s.lh, s.outstanding)
      {
        NoPanic(c, s, i, b);
      }
    } else {
      FillLog(c);
    }
  }

  lemma NoPanic(c: Config, s: State, i: nat, b: nat)
    requires c.Good() && Reachable(c, s) && MayLog(c, s, i, b)
    requires MAXOPBLOCKS + 2 * c.limit < LOGSIZE && MAXOPBLOCKS + 2 * c.limit < c.lay.size - 1
    ensures !LogWritePanics(c.lay, s.lh, s.outstanding)
  {
    var run :| IsRun(c, run) && run[|run| - 1] == s;
    RunKeeps(c, run, |run| - 1);
    OpsBounded(c, s, c.limit);
  }

  /** A full log panics: an open operation may log a further block, or one it has logged already. */
  lemma FillLog(c: Config)
    requires Wide(c) && c.limit > 0
    requires !(MAXOPBLOCKS + 2 * c.limit < LOGSIZE && MAXOPBLOCKS + 2 * c.limit < c.lay.size - 1)
    ensures CanPanic(c)
  {
    var n := if LOGSIZE < c.lay.size - 1 then LOGSIZE else c.lay.size - 1;
    var s := ReachLength(c, n);
    var used := [Share(n, 0), Share(n, 1)];
    assert OpUsed(s, used, 0);
    if Share(n, 0) == 0 {
      assert MayLog(c, s, 0, First(c));
    } else {
      var b :| b in s.ops[0].wrote;
      assert b in s.lh;
      var j :| 0 <= j < |s.lh| && s.lh[j] == b;
      assert ListedAt(c, s, j);
      assert MayLog(c, s, 0, b);
    }
  }
}
