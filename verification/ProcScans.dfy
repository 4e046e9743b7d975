/** The scanning loops of proc.c over the process table, proved to have the effect the machine's
    steps give them. */
module ProcScans {
  import opened ProcTable
  import opened Options

  class PTable {
    var proc: array<Proc>
    var nextpid: int

    constructor (n: nat)
      ensures fresh(proc) && proc.Length == n && forall i :: 0 <= i < n ==> proc[i] == FREE_SLOT
      ensures nextpid == 1
    {
      proc := new Proc[n](_ => FREE_SLOT);
      nextpid := 1;
    }

    /** wakeup1: the processes asleep on `chan` become runnable; nothing else of them changes, and nothing
        of any other process. */
    method Wakeup1(chan: Chan)
      modifies proc
      ensures proc[..] == WakeAll(old(proc[..]), chan)
      ensures forall i :: 0 <= i < proc.Length ==>
                proc[i] == if old(proc[i].state) == SLEEPING && old(proc[i].chan) == chan then old(proc[i]).(state := RUNNABLE) else old(proc[i])
    {
      var p := 0;
      while p < proc.Length
        invariant 0 <= p <= proc.Length
        invariant forall i :: 0 <= i < proc.Length ==> proc[i] == if i < p then Woken(old(proc[i]), chan) else old(proc[i])
      {
        if proc[p].state == SLEEPING && proc[p].chan == chan {
          proc[p] := proc[p].(state := RUNNABLE);
        }
        p := p + 1;
      }
      assert forall i :: 0 <= i < proc.Length ==> proc[..][i] == WakeAll(old(proc[..]), chan)[i];
    }

    /** The part of allocproc under the lock: take the first unused slot, with the next pid. */
    method AllocProc() returns (r: Option<nat>)
      modifies this`nextpid, proc
      ensures r == None ==> proc[..] == old(proc[..]) && nextpid == old(nextpid) && forall i :: 0 <= i < proc.Length ==> proc[i].state != UNUSED
      ensures r.Some? ==>
                && r.value < proc.Length && old(proc[r.value].state) == UNUSED
                && (forall i :: 0 <= i < r.value ==> proc[i].state != UNUSED)
                && proc[..] == old(proc[..])[r.value := old(proc[r.value]).(state := EMBRYO, pid := old(nextpid))]
                && nextpid == old(nextpid) + 1
    {
      var p := 0;
      while p < proc.Length
        invariant 0 <= p <= proc.Length && forall i :: 0 <= i < p ==> proc[i].state != UNUSED
      {
        if proc[p].state == UNUSED {
          proc[p] := proc[p].(state := EMBRYO, pid := nextpid);
          nextpid := nextpid + 1;
          return Some(p);
        }
        p := p + 1;
      }
      return None;
    }

    /** exit, from the wakeup of its parent to its call of sched. Its children go to init; its parent, and
        init if it inherits a zombie, leave wait's sleep; it becomes a zombie. */
    method ExitScan(me: nat)
      requires me < proc.Length
      modifies proc
      ensures proc[..] == ExitTable(old(proc[..]), me)
      ensures forall i :: 0 <= i < proc.Length ==>
                proc[i].parent == if old(proc[i].parent) == Some(me) then Some(INIT) else old(proc[i].parent)
      ensures forall i :: 0 <= i < proc.Length && i != me ==>
                proc[i].state == if old(proc[i].state) == SLEEPING && LeavesWait(old(proc[..]), me, old(proc[i].chan)) then RUNNABLE else old(proc[i].state)
      ensures forall i :: 0 <= i < proc.Length && i != me ==> proc[i] == old(proc[i]).(state := proc[i].state, parent := proc[i].parent)
      ensures proc[me] == old(proc[me]).(state := ZOMBIE, run := Out(Exited), on := None, parent := proc[me].parent)
    {
      ghost var before := proc[..];
      if proc[me].parent.Some? {
        Wakeup1(OfProc(proc[me].parent.value));
      }
      GiveChildren(me);
      proc[me] := proc[me].(state := ZOMBIE, run := Out(Exited), on := None);
      forall i | 0 <= i < proc.Length ensures AfterExit(before, me, i, proc[i]) {
        ExitTableIs(before, me, i);
      }
    }

    /** exit's loop: pass abandoned children to init, and wake it if one is a zombie. */
    method GiveChildren(me: nat)
      modifies proc
      ensures var given := GiveAway(old(proc[..]), me);
              proc[..] == if HasZombieChild(old(proc[..]), me) then WakeAll(given, OfProc(INIT)) else given
    {
      ghost var before := proc[..];
      var p := 0;
      while p < proc.Length
        invariant 0 <= p <= proc.Length
        invariant proc[..] == Handed(before, me, p)
      {
        if proc[p].parent == Some(me) {
          proc[p] := proc[p].(parent := Some(INIT));
          if proc[p].state == ZOMBIE {
            Wakeup1(OfProc(INIT));
          }
        }
        HandedNext(before, me, p);
        p := p + 1;
      }
      HandedAll(before, me);
    }

    /** One scan of wait: a zombie child if there is one, and whether there is any child. */
    method WaitScan(me: nat) returns (found: Option<nat>, havekids: bool)
      ensures found.Some? <==> HasZombieChild(proc[..], me)
      ensures found.Some? ==> found.value < proc.Length && proc[found.value].parent == Some(me) && proc[found.value].state == ZOMBIE
      ensures found == None ==> (havekids <==> HasChild(proc[..], me))
    {
      havekids := false;
      ghost var kid := 0;
      var p := 0;
      while p < proc.Length
        invariant 0 <= p <= proc.Length
        invariant forall i :: 0 <= i < p ==> !(proc[i].parent == Some(me) && proc[i].state == ZOMBIE)
        invariant havekids ==> 0 <= kid < p && proc[..][kid].parent == Some(me)
        invariant !havekids ==> forall i :: 0 <= i < p ==> proc[i].parent != Some(me)
      {
        if proc[p].parent == Some(me) {
          havekids, kid := true, p;
          if proc[p].state == ZOMBIE {
            assert proc[..][p].parent == Some(me);
            return Some(p), true;
          }
        }
        p := p + 1;
      }
      found := None;
    }
  }

  /** Sleepers on `chan` are woken when `me` exits: its parent in wait, or init, if it inherits a zombie. */
  predicate LeavesWait(ps: seq<Proc>, me: nat, chan: Chan)
    requires me < |ps|
  {
    || (ps[me].parent.Some? && chan == OfProc(ps[me].parent.value))
    || (chan == OfProc(INIT) && exists j :: 0 <= j < |ps| && ps[j].parent == Some(me) && ps[j].state == ZOMBIE)
  }

  /** What slot `i` becomes when `me` exits. */
  predicate AfterExit(ps: seq<Proc>, me: nat, i: nat, q: Proc)
    requires me < |ps| && i < |ps|
  {
    var p := ps[i];
    && q.parent == (if p.parent == Some(me) then Some(INIT) else p.parent)
    && if i == me then q == p.(state := ZOMBIE, run := Out(Exited), on := None, parent := q.parent)
       else q == p.(state := if p.state == SLEEPING && LeavesWait(ps, me, p.chan) then RUNNABLE else p.state, parent := q.parent)
  }

  lemma ExitTableIs(ps: seq<Proc>, me: nat, i: nat)
    requires me < |ps| && i < |ps|
    ensures AfterExit(ps, me, i, ExitTable(ps, me)[i])
  {
    var woken := match ps[me].parent case Some(q) => WakeAll(ps, OfProc(q)) case None => ps;
    assert forall j :: 0 <= j < |ps| ==> woken[j].parent == ps[j].parent && (woken[j].state == ZOMBIE <==> ps[j].state == ZOMBIE);
    assert HasZombieChild(woken, me) <==> HasZombieChild(ps, me);
  }

  // ---- The reparenting loop, one slot at a time ----------------------------------------

  /** A zombie child of `me` lies below `p`. */
  predicate ZombieBelow(ps: seq<Proc>, me: nat, p: nat)
    requires p <= |ps|
  {
    exists j :: 0 <= j < p && ps[j].parent == Some(me) && ps[j].state == ZOMBIE
  }

  function HandedAt(ps: seq<Proc>, me: nat, p: nat, i: nat): Proc
    requires p <= |ps| && i < |ps|
  {
    var q := if i < p then Adopted(ps[i], me) else ps[i];
    if ZombieBelow(ps, me, p) then Woken(q, OfProc(INIT)) else q
  }

  /** The table after the loop has passed the first `p` slots. */
  function Handed(ps: seq<Proc>, me: nat, p: nat): (r: seq<Proc>)
    requires p <= |ps|
    ensures |r| == |ps| && forall i :: 0 <= i < |ps| ==> r[i] == HandedAt(ps, me, p, i)
  {
    seq(|ps|, i requires 0 <= i < |ps| => HandedAt(ps, me, p, i))
  }

  lemma HandedNext(ps: seq<Proc>, me: nat, p: nat)
    requires p < |ps|
    ensures var x := Handed(ps, me, p);
            var y := if x[p].parent == Some(me) then x[p := x[p].(parent := Some(INIT))] else x;
            var z := if x[p].parent == Some(me) && x[p].state == ZOMBIE then WakeAll(y, OfProc(INIT)) else y;
            Handed(ps, me, p + 1) == z
  {
    assert ZombieBelow(ps, me, p + 1) <==> ZombieBelow(ps, me, p) || (ps[p].parent == Some(me) && ps[p].state == ZOMBIE);
  }

  lemma HandedAll(ps: seq<Proc>, me: nat)
    ensures Handed(ps, me, |ps|) == if HasZombieChild(ps, me) then WakeAll(GiveAway(ps, me), OfProc(INIT)) else GiveAway(ps, me)
  {
    assert ZombieBelow(ps, me, |ps|) == HasZombieChild(ps, me);
  }
}
