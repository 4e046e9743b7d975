/** bio.c's doubly linked ring of buffers: slots `0 .. head` hold the links, the last being the list
    head, and `order` lists the buffers from the most to the least recently used. */
module BufferRing {
  /** The `k`-th slot on the way round, starting and ending at the head. */
  function At(order: seq<nat>, head: nat, k: nat): nat
    requires k <= |order| + 1
  {
    if 0 < k <= |order| then order[k - 1] else head
  }

  predicate LinkOk(nx: seq<nat>, pv: seq<nat>, order: seq<nat>, head: nat, k: nat)
    requires k <= |order| && |nx| == |pv| == head + 1
  {
    && At(order, head, k) <= head && At(order, head, k + 1) <= head
    && nx[At(order, head, k)] == At(order, head, k + 1) && pv[At(order, head, k + 1)] == At(order, head, k)
  }

  predicate Apart(order: seq<nat>, i: nat, j: nat)
    requires i < |order| && j < |order|
  {
    i != j ==> order[i] != order[j]
  }

  predicate Below(order: seq<nat>, head: nat, i: nat)
    requires i < |order|
  {
    order[i] < head
  }

  /** Following `nx` from the head visits `order` and returns; `pv` goes the other way. */
  predicate Linked(nx: seq<nat>, pv: seq<nat>, order: seq<nat>, head: nat) {
    && |nx| == |pv| == head + 1
    && (forall i :: 0 <= i < |order| ==> Below(order, head, i))
    && (forall i, j :: 0 <= i < |order| && 0 <= j < |order| ==> Apart(order, i, j))
    && (forall k :: 0 <= k <= |order| ==> LinkOk(nx, pv, order, head, k))
  }

  /** The head stands only at the two ends. */
  lemma EndOfList(order: seq<nat>, head: nat, nx: seq<nat>, pv: seq<nat>, p: nat)
    requires Linked(nx, pv, order, head) && p <= |order| + 1 && At(order, head, p) == head
    ensures p == 0 || p == |order| + 1
  {
    assert 0 < p <= |order| ==> Below(order, head, p - 1);
  }

  // ---- Inserting at the front -----------------------------------------------------------------

  function FrontNext(nx: seq<nat>, head: nat, b: nat): seq<nat>
    requires |nx| == head + 1 && b < head
  {
    nx[b := nx[head]][head := b]
  }

  function FrontPrev(nx: seq<nat>, pv: seq<nat>, head: nat, b: nat): seq<nat>
    requires |nx| == |pv| == head + 1 && b < head && nx[head] <= head
  {
    pv[b := head][nx[head] := b]
  }

  lemma FrontLinked(nx: seq<nat>, pv: seq<nat>, order: seq<nat>, head: nat, b: nat)
    requires Linked(nx, pv, order, head) && b < head && b !in order
    ensures nx[head] <= head
    ensures Linked(FrontNext(nx, head, b), FrontPrev(nx, pv, head, b), [b] + order, head)
  {
    assert LinkOk(nx, pv, order, head, 0);
    var nx', pv', order' := FrontNext(nx, head, b), FrontPrev(nx, pv, head, b), [b] + order;
    forall i | 0 <= i < |order'| ensures Below(order', head, i) {
      assert i > 0 ==> Below(order, head, i - 1);
    }
    forall i, j | 0 <= i < |order'| && 0 <= j < |order'| ensures Apart(order', i, j) {
      assert i > 0 && j > 0 ==> Apart(order, i - 1, j - 1);
    }
    forall k | 0 <= k <= |order'| ensures LinkOk(nx', pv', order', head, k) {
      FrontLink(nx, pv, order, head, b, k);
    }
  }

  lemma FrontLink(nx: seq<nat>, pv: seq<nat>, order: seq<nat>, head: nat, b: nat, k: nat)
    requires Linked(nx, pv, order, head) && b < head && b !in order && k <= |order| + 1 && LinkOk(nx, pv, order, head, 0)
    ensures LinkOk(FrontNext(nx, head, b), FrontPrev(nx, pv, head, b), [b] + order, head, k)
  {
    var order' := [b] + order;
    assert forall i :: 0 < i <= |order| + 1 ==> At(order', head, i + 1) == At(order, head, i);
    if k >= 2 {
      assert LinkOk(nx, pv, order, head, k - 1);
      var x, y := At(order, head, k - 1), At(order, head, k);
      assert At(order', head, k) == x && At(order', head, k + 1) == y;
      assert Below(order, head, k - 2);
      if k <= |order| {
        assert Below(order, head, k - 1) && Apart(order, 0, k - 1);
      }
    }
  }

  // ---- Taking a buffer out --------------------------------------------------------------------

  function Without(order: seq<nat>, p: nat): (r: seq<nat>)
    requires p < |order|
    ensures |r| == |order| - 1 && forall i :: 0 <= i < |r| ==> r[i] == order[if i < p then i else i + 1]
  {
    order[..p] + order[p + 1..]
  }

  lemma OutLinked(nx: seq<nat>, pv: seq<nat>, order: seq<nat>, head: nat, p: nat)
    requires Linked(nx, pv, order, head) && p < |order|
    ensures var b := order[p];
            && b < head && nx[b] <= head && pv[b] <= head
            && Linked(nx[pv[b] := nx[b]], pv[nx[b] := pv[b]], Without(order, p), head) && b !in Without(order, p)
  {
    var b, r := order[p], Without(order, p);
    assert Below(order, head, p) && LinkOk(nx, pv, order, head, p) && LinkOk(nx, pv, order, head, p + 1);
    var nx', pv' := nx[pv[b] := nx[b]], pv[nx[b] := pv[b]];
    forall i | 0 <= i < |r| ensures Below(r, head, i) && r[i] != b {
      assert Below(order, head, if i < p then i else i + 1) && Apart(order, p, if i < p then i else i + 1);
    }
    forall i, j | 0 <= i < |r| && 0 <= j < |r| ensures Apart(r, i, j) {
      assert Apart(order, if i < p then i else i + 1, if j < p then j else j + 1);
    }
    forall k | 0 <= k <= |r| ensures LinkOk(nx', pv', r, head, k) {
      OutLink(nx, pv, order, head, p, k);
    }
  }

  lemma OutLink(nx: seq<nat>, pv: seq<nat>, order: seq<nat>, head: nat, p: nat, k: nat)
    requires Linked(nx, pv, order, head) && p < |order| && k < |order|
    requires LinkOk(nx, pv, order, head, p) && LinkOk(nx, pv, order, head, p + 1)
    ensures var b := order[p];
            LinkOk(nx[pv[b] := nx[b]], pv[nx[b] := pv[b]], Without(order, p), head, k)
  {
    var b, r := order[p], Without(order, p);
    var from := if k <= p then k else k + 1;
    var to := if k < p then k + 1 else k + 2;
    assert At(r, head, k) == At(order, head, from) && At(r, head, k + 1) == At(order, head, to);
    if k != p {
      assert LinkOk(nx, pv, order, head, from);
      SlotsDiffer(order, head, nx, pv, from, p);
      SlotsDiffer(order, head, nx, pv, to, p + 2);
    }
  }

  /** Different places on the way round are different slots, the two ends apart. */
  lemma SlotsDiffer(order: seq<nat>, head: nat, nx: seq<nat>, pv: seq<nat>, i: nat, j: nat)
    requires Linked(nx, pv, order, head) && i <= |order| + 1 && j <= |order| + 1 && i != j
    requires !(i == 0 && j == |order| + 1) && !(j == 0 && i == |order| + 1)
    ensures At(order, head, i) != At(order, head, j)
  {
    if 0 < i <= |order| && 0 < j <= |order| {
      assert Apart(order, i - 1, j - 1);
    } else if 0 < i <= |order| {
      assert Below(order, head, i - 1);
    } else if 0 < j <= |order| {
      assert Below(order, head, j - 1);
    }
  }

  // ---- The list holds every buffer ---------------------------------------------------------------

  function Upto(n: nat): (r: set<nat>)
    ensures forall x: nat :: x in r <==> x < n
    ensures |r| == n
  {
    if n == 0 then {} else Upto(n - 1) + {n - 1}
  }

  function Members(order: seq<nat>, k: nat): (r: set<nat>)
    requires k <= |order|
    ensures forall x :: x in r <==> exists i :: 0 <= i < k && order[i] == x
  {
    if k == 0 then {} else Members(order, k - 1) + {order[k - 1]}
  }

  lemma {:induction false} MembersCount(order: seq<nat>, k: nat)
    requires k <= |order| && forall i, j :: 0 <= i < |order| && 0 <= j < |order| ==> Apart(order, i, j)
    ensures |Members(order, k)| == k
  {
    if k > 0 {
      MembersCount(order, k - 1);
      forall i | 0 <= i < k - 1 ensures order[i] != order[k - 1] {
        assert Apart(order, i, k - 1);
      }
    }
  }

  lemma {:induction false} SubsetOfSize(a: set<nat>, b: set<nat>)
    requires a <= b && |a| == |b|
    ensures a == b
    decreases |a|
  {
    if a != {} {
      var x :| x in a;
      SubsetOfSize(a - {x}, b - {x});
      assert a == a - {x} + {x} && b == b - {x} + {x};
    } else {
      assert |b| == 0;
    }
  }

  /** Where buffer `b` stands in a list of all `head` buffers. */
  lemma Place(order: seq<nat>, head: nat, nx: seq<nat>, pv: seq<nat>, b: nat) returns (k: nat)
    requires Linked(nx, pv, order, head) && |order| == head && b < head
    ensures k < |order| && order[k] == b
  {
    MembersCount(order, head);
    forall x | x in Members(order, head) ensures x in Upto(head) {
      var i :| 0 <= i < head && order[i] == x;
      assert Below(order, head, i);
    }
    SubsetOfSize(Members(order, head), Upto(head));
    assert b in Members(order, head);
    k :| 0 <= k < head && order[k] == b;
  }
}
