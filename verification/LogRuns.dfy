/** Runs of the logging system that build a list of any reachable length. */
module LogRuns {
  import opened Blocks
  import opened LogDisk
  import opened Log
  import opened LogSystem
  import opened Options

  lemma ReachStep(c: Config, s: State, a: Action)
    requires Reachable(c, s) && Enabled(c, s, a)
    ensures Reachable(c, Step(c, s, a))
  {
    var run :| IsRun(c, run) && run[|run| - 1] == s;
    var longer := run + [Step(c, s, a)];
    forall i | 0 <= i < |longer| - 1 ensures Next(c, longer[i], longer[i + 1]) {
      if i == |run| - 1 { assert longer[i] == s; } else { assert Next(c, run[i], run[i + 1]); }
    }
    assert IsRun(c, longer);
  }

  /** The first block past the log. */
  function First(c: Config): nat { c.lay.start + c.lay.size }

  /** Enough home blocks behind the log for a full list. */
  ghost predicate Wide(c: Config) {
    c.Good() && First(c) + LOGSIZE <= c.nblocks
  }

  ghost predicate ListedAt(c: Config, s: State, i: nat)
    requires i < |s.lh|
  {
    s.lh[i] == First(c) + i
  }

  ghost predicate OpUsed(s: State, used: seq<nat>, i: nat)
    requires i < |s.ops| && i < |used|
  {
    |s.ops[i].wrote| == used[i] && s.ops[i].wrote <= Listed(s.lh) && s.ops[i].call.None?
  }

  /** Home block `x` is zero, on disk and for readers. */
  ghost predicate ZeroAt(c: Config, s: State, x: nat) {
    c.Home(x) && x < |s.disk| ==> s.disk[x] == Zeros() && (x in s.pins ==> s.pins[x] == Zeros())
  }

  /** A reachable, running state whose log lists the `n` blocks after the log area, whose open
      operations have logged `used[0]`, `used[1]`, ... blocks, and in which every home block is zero. */
  ghost predicate Shape(c: Config, s: State, n: nat, used: seq<nat>) {
    && Reachable(c, s) && s.phase.Running? && !s.committing
    && |s.disk| == c.nblocks && c.lay.Fits(s.disk) && HeadCount(s.disk[c.lay.start]) == 0
    && |s.lh| == n && (forall i :: 0 <= i < n ==> ListedAt(c, s, i))
    && |s.ops| == |used| == s.outstanding
    && (forall i :: 0 <= i < |used| ==> OpUsed(s, used, i))
    && (forall x: nat :: ZeroAt(c, s, x))
  }

  lemma Booted(c: Config) returns (s: State)
    requires c.Good()
    ensures Shape(c, s, 0, [])
  {
    var d: Disk := seq(c.nblocks, _ => Zeros());
    ZeroWord(0);
    assert Head(d[c.lay.start]) == [];
    s := Restart(c, d, 0);
    assert IsRun(c, [s]);
    assert Reachable(c, s) by { assert [s][|[s]| - 1] == s; }
    ReachStep(c, s, RecoverWrite);
    s := Step(c, s, RecoverWrite);
    HeadRoundTrip(d[c.lay.start], []);
    ReachStep(c, s, RecoverDone);
    s := Step(c, s, RecoverDone);
    forall x: nat ensures ZeroAt(c, s, x) {
      assert c.lay.InLog(c.lay.start);
    }
  }

  lemma BeginShape(c: Config, s: State, n: nat, used: seq<nat>) returns (t: State)
    requires Shape(c, s, n, used) && n + (|used| + 1) * MAXOPBLOCKS <= LOGSIZE
    ensures Shape(c, t, n, used + [0])
  {
    ReachStep(c, s, Begin);
    t := Step(c, s, Begin);
    var used' := used + [0];
    forall i | 0 <= i < n ensures ListedAt(c, t, i) {
      assert ListedAt(c, s, i);
    }
    forall i | 0 <= i < |used'| ensures OpUsed(t, used', i) {
      assert i < |used| ==> OpUsed(s, used, i);
    }
    forall x: nat ensures ZeroAt(c, t, x) {
      assert ZeroAt(c, s, x);
    }
  }

  lemma EndShape(c: Config, s: State, n: nat, used: seq<nat>) returns (t: State)
    requires Shape(c, s, n, used) && |used| > 1
    ensures Shape(c, t, n, used[..|used| - 1])
  {
    var a := End(|used| - 1);
    assert OpUsed(s, used, |used| - 1);
    ReachStep(c, s, a);
    t := Step(c, s, a);
    var used' := used[..|used| - 1];
    forall i | 0 <= i < n ensures ListedAt(c, t, i) {
      assert ListedAt(c, s, i);
    }
    forall i | 0 <= i < |used'| ensures OpUsed(t, used', i) {
      assert OpUsed(s, used, i);
    }
    forall x: nat ensures ZeroAt(c, t, x) {
      assert ZeroAt(c, s, x);
    }
  }

  /** The next block behind the log is not listed yet. */
  lemma NextIsNew(c: Config, s: State, n: nat, used: seq<nat>)
    requires Shape(c, s, n, used)
    ensures First(c) + n !in s.lh
  {
    forall j | 0 <= j < n ensures s.lh[j] != First(c) + n {
      assert ListedAt(c, s, j);
    }
  }

  /** A whole log_write by one operation, with nobody in between. */
  lemma LogWriteStep(c: Config, s: State, i: nat, b: nat, data: Block) returns (t: State)
    requires Reachable(c, s) && MayLog(c, s, i, b) && !LogWritePanics(c.lay, s.lh, s.outstanding)
    ensures Reachable(c, t)
    ensures t == s.(lh := Absorb(s.lh, b), pins := s.pins[b := data],
                    ops := s.ops[i := Op(s.ops[i].wrote + {b}, s.ops[i].epoch, None)])
  {
    var a := LogTest(i, b, data);
    ReachStep(c, s, a);
    var m := Step(c, s, a);
    ReachStep(c, m, LogAppend(i));
    t := Step(c, m, LogAppend(i));
    assert t.ops == s.ops[i := Op(s.ops[i].wrote + {b}, s.ops[i].epoch, None)];
  }

  lemma LogShape(c: Config, s: State, n: nat, used: seq<nat>, i: nat) returns (t: State)
    requires Wide(c) && Shape(c, s, n, used) && n < LOGSIZE && n < c.lay.size - 1 && i < |used| && used[i] < c.limit
    ensures Shape(c, t, n + 1, used[i := used[i] + 1])
  {
    var b := First(c) + n;
    assert OpUsed(s, used, i);
    NextIsNew(c, s, n, used);
    t := LogWriteStep(c, s, i, b, Zeros());
    LogShapeOps(s, used, i, b, t);
    forall j | 0 <= j < n + 1 ensures ListedAt(c, t, j) {
      assert j < n ==> ListedAt(c, s, j);
    }
    forall x: nat ensures ZeroAt(c, t, x) {
      assert ZeroAt(c, s, x);
    }
  }

  lemma LogShapeOps(s: State, used: seq<nat>, i: nat, b: nat, t: State)
    requires |s.ops| == |used| && i < |used| && b !in s.lh && forall j :: 0 <= j < |used| ==> OpUsed(s, used, j)
    requires t.lh == Absorb(s.lh, b) && t.ops == s.ops[i := Op(s.ops[i].wrote + {b}, s.ops[i].epoch, None)]
    ensures var used' := used[i := used[i] + 1];
            |t.ops| == |used'| && forall j :: 0 <= j < |used'| ==> OpUsed(t, used', j)
  {
    var used' := used[i := used[i] + 1];
    assert OpUsed(s, used, i);
    forall j | 0 <= j < |used'| ensures OpUsed(t, used', j) {
      assert OpUsed(s, used, j);
      OpGrows(s.ops[j].wrote, s.lh, b);
    }
  }

  lemma {:induction false} LogManyShape(c: Config, s: State, n: nat, used: seq<nat>, i: nat, m: nat) returns (t: State)
    requires Wide(c) && Shape(c, s, n, used) && n + m <= LOGSIZE && (m > 0 ==> n + m <= c.lay.size - 1)
    requires i < |used| && used[i] + m <= c.limit
    ensures Shape(c, t, n + m, used[i := used[i] + m])
    decreases m
  {
    if m == 0 {
      t := s;
      assert used[i := used[i] + m] == used;
    } else {
      t := LogShape(c, s, n, used, i);
      var used' := used[i := used[i] + 1];
      t := LogManyShape(c, t, n + 1, used', i, m - 1);
      assert used'[i := used'[i] + (m - 1)] == used[i := used[i] + m];
    }
  }

  /** While one operation stays open, others begin, log one block each and end, until the log
      lists `m` blocks. */
  lemma {:induction false} TrickleShape(c: Config, s: State, n: nat, m: nat) returns (t: State)
    requires Wide(c) && c.limit > 0 && Shape(c, s, n, [0]) && n <= m <= MAXOPBLOCKS && m <= c.lay.size - 1
    ensures Shape(c, t, m, [0])
    decreases m - n
  {
    t := s;
    if n < m {
      t := BeginShape(c, s, n, [0]);
      assert [0] + [0] == [0, 0];
      t := LogShape(c, t, n, [0, 0], 1);
      assert [0, 0][1 := 0 + 1] == [0, 1];
      t := EndShape(c, t, n + 1, [0, 1]);
      assert [0, 1][..1] == [0];
      t := TrickleShape(c, t, n + 1, m);
    }
  }

  /** What the two last operations have logged when the list is `n` long. */
  function Share(n: nat, i: nat): nat {
    if n <= MAXOPBLOCKS then 0 else (n - MAXOPBLOCKS + 1 - i % 2) / 2
  }

  lemma Shares(n: nat, limit: nat)
    requires n <= MAXOPBLOCKS + 2 * limit
    ensures (if n <= MAXOPBLOCKS then n else MAXOPBLOCKS) + Share(n, 0) + Share(n, 1) == n
    ensures Share(n, 0) <= limit && Share(n, 1) <= limit
    ensures n + 2 <= MAXOPBLOCKS + 2 * limit && limit > 0 ==> Share(n, 0) < limit && Share(n, 1) < limit
  {
  }

  /** Two operations open that have logged nothing, and a list of `m` blocks. */
  lemma ReachTwo(c: Config, m: nat) returns (s: State)
    requires Wide(c) && c.limit > 0 && m <= MAXOPBLOCKS && m <= c.lay.size - 1
    ensures Shape(c, s, m, [0, 0])
  {
    var none: seq<nat> := [];
    s := Booted(c);
    s := BeginShape(c, s, 0, none);
    assert none + [0] == [0];
    s := TrickleShape(c, s, 0, m);
    s := BeginShape(c, s, m, [0]);
    assert [0] + [0] == [0, 0];
  }

  lemma FillTwo(c: Config, s0: State, m: nat, u: nat, v: nat) returns (s: State)
    requires Wide(c) && Shape(c, s0, m, [0, 0]) && m + u + v <= LOGSIZE && m + u + v <= c.lay.size - 1 && u <= c.limit && v <= c.limit
    ensures Shape(c, s, m + u + v, [u, v])
  {
    s := LogManyShape(c, s0, m, [0, 0], 0, u);
    assert [0, 0][0 := 0 + u] == [u, 0];
    s := LogManyShape(c, s, m + u, [u, 0], 1, v);
    assert [u, 0][1 := 0 + v] == [u, v];
  }

  /** Any length the reservation and the tests allow is reached, with two operations open. */
  lemma ReachLength(c: Config, n: nat) returns (s: State)
    requires Wide(c) && c.limit > 0 && n <= MAXOPBLOCKS + 2 * c.limit && n <= LOGSIZE && n <= c.lay.size - 1
    ensures Shape(c, s, n, [Share(n, 0), Share(n, 1)])
  {
    var m := if n <= MAXOPBLOCKS then n else MAXOPBLOCKS;
    Shares(n, c.limit);
    s := ReachTwo(c, m);
    s := FillTwo(c, s, m, Share(n, 0), Share(n, 1));
  }
}
