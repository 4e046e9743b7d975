/** umalloc.c: the Kernighan-Ritchie free list. Addresses count header-sized units. The free
    blocks form a ring through `ptr`, in ascending address order from the static header `base`;
    free and live blocks together tile the memory obtained from sbrk. */
module Umalloc {
  // ---- The ring ---------------------------------------------------------------------

  function Next(ring: seq<nat>, i: nat): nat
    requires i < |ring|
  {
    if i + 1 < |ring| then ring[i + 1] else ring[0]
  }

  /** The `i`-th header of the ring: it points to the next one, and its block ends before the next
      one begins, with at least one unit between them. */
  predicate Node(ptr: map<nat, nat>, size: map<nat, nat>, ring: seq<nat>, i: nat)
    requires i < |ring|
  {
    && ring[i] in ptr && ring[i] in size && ptr[ring[i]] == Next(ring, i)
    && (size[ring[i]] == 0 <==> i == 0)
    && (i + 1 < |ring| ==> ring[i] + size[ring[i]] < ring[i + 1])
  }

  ghost predicate IsRing(ptr: map<nat, nat>, size: map<nat, nat>, ring: seq<nat>) {
    ring != [] && 0 < ring[0] && forall i: nat :: i < |ring| ==> Node(ptr, size, ring, i)
  }

  lemma {:induction false} Ascending(ptr: map<nat, nat>, size: map<nat, nat>, ring: seq<nat>, i: nat, j: nat)
    requires IsRing(ptr, size, ring) && i < j < |ring|
    ensures ring[i] in size && ring[i] + size[ring[i]] < ring[j]
  {
    assert Node(ptr, size, ring, i);
    if i + 1 < j {
      Ascending(ptr, size, ring, i, j - 1);
      assert Node(ptr, size, ring, j - 1);
    }
  }

  /** Where `b` belongs: after the last header below it. */
  ghost predicate Belongs(ring: seq<nat>, b: nat, t: nat) {
    t < |ring| && ring[t] < b && (t + 1 < |ring| ==> b < ring[t + 1])
  }

  lemma {:induction false} FindPlace(ptr: map<nat, nat>, size: map<nat, nat>, ring: seq<nat>, b: nat, n: nat) returns (t: nat)
    requires IsRing(ptr, size, ring) && ring[0] < b && b !in ring && 0 < n <= |ring|
    requires n == |ring| || b < ring[n]
    ensures Belongs(ring, b, t)
    decreases n
  {
    t := n - 1;
    if b < ring[n - 1] {
      t := FindPlace(ptr, size, ring, b, n - 1);
    }
  }

  // ---- Tiling -----------------------------------------------------------------------

  predicate Apart(blk: map<nat, nat>, g: nat, h: nat) {
    g in blk && h in blk && g < h ==> g + blk[g] <= h
  }

  predicate Within(core: set<nat>, blk: map<nat, nat>, h: nat, u: nat) {
    h in blk && h <= u < h + blk[h] ==> u in core
  }

  predicate CoveredBy(blk: map<nat, nat>, u: nat, h: nat) {
    h in blk && h <= u < h + blk[h]
  }

  ghost predicate Covered(blk: map<nat, nat>, u: nat) {
    exists h: nat :: CoveredBy(blk, u, h)
  }

  /** The blocks, given by header and length, tile exactly the units of `core`: they lie inside it,
      do not overlap and leave nothing uncovered. */
  ghost predicate Tiles(core: set<nat>, blk: map<nat, nat>) {
    && (forall h: nat, u: nat :: Within(core, blk, h, u))
    && (forall g: nat, h: nat :: Apart(blk, g, h))
    && (forall u: nat :: u in core ==> Covered(blk, u))
  }

  /** Merging a block with the one that starts where it ends keeps the tiling. */
  lemma MergeTiles(core: set<nat>, blk: map<nat, nat>, a: nat, b: nat)
    requires Tiles(core, blk) && a in blk && b in blk && a + blk[a] == b && a != b
    ensures Tiles(core, (blk - {b})[a := blk[a] + blk[b]])
  {
    var m := (blk - {b})[a := blk[a] + blk[b]];
    forall h: nat, u: nat ensures Within(core, m, h, u) {
      assert Within(core, blk, h, u) && Within(core, blk, b, u);
    }
    forall g: nat, h: nat ensures Apart(m, g, h) {
      assert Apart(blk, g, h) && Apart(blk, b, h) && Apart(blk, g, a) && Apart(blk, a, h);
    }
    forall u: nat | u in core ensures Covered(m, u) {
      var h: nat :| CoveredBy(blk, u, h);
      assert CoveredBy(m, u, if h == b then a else h);
    }
  }

  /** Cutting a block in two keeps the tiling. */
  lemma SplitTiles(core: set<nat>, blk: map<nat, nat>, a: nat, n: nat)
    requires Tiles(core, blk) && a in blk && 0 < n < blk[a]
    ensures Tiles(core, blk[a := blk[a] - n][a + blk[a] - n := n])
    ensures a + blk[a] - n !in blk
  {
    var b := a + blk[a] - n;
    assert Apart(blk, a, b);
    var m := blk[a := blk[a] - n][b := n];
    forall h: nat, u: nat ensures Within(core, m, h, u) {
      assert Within(core, blk, h, u) && Within(core, blk, a, u);
    }
    forall g: nat, h: nat ensures Apart(m, g, h) {
      assert Apart(blk, g, h) && Apart(blk, a, h) && Apart(blk, g, a) && Apart(blk, a, g);
    }
    forall u: nat | u in core ensures Covered(m, u) {
      var h: nat :| CoveredBy(blk, u, h);
      assert CoveredBy(m, u, if h == a && b <= u then b else h);
    }
  }

  /** The `n` units from `p` on. */
  function Units(p: nat, n: nat): (s: set<nat>)
    ensures forall u :: u in s <==> p <= u < p + n
  {
    if n == 0 then {} else Units(p, n - 1) + {p + n - 1}
  }

  /** A block of fresh units above all others extends the tiling. */
  lemma GrowTiles(core: set<nat>, blk: map<nat, nat>, brk: nat, p: nat, n: nat)
    requires Tiles(core, blk) && 0 < n && brk <= p
    requires forall u :: u in core ==> u < brk
    requires forall h :: h in blk ==> 0 < blk[h]
    ensures p !in blk
    ensures Tiles(core + Units(p, n), blk[p := n])
  {
    var c, m := core + Units(p, n), blk[p := n];
    forall h | h in blk ensures h + blk[h] <= brk {
      assert Within(core, blk, h, h + blk[h] - 1);
    }
    forall h: nat, u: nat ensures Within(c, m, h, u) { assert Within(core, blk, h, u); }
    forall g: nat, h: nat ensures Apart(m, g, h) { assert Apart(blk, g, h); }
    forall u: nat | u in c ensures Covered(m, u) {
      if p <= u {
        assert CoveredBy(m, u, p);
      } else {
        var h: nat :| CoveredBy(blk, u, h);
        assert CoveredBy(m, u, h);
      }
    }
  }

  // ---- Relinking --------------------------------------------------------------------

  function RemoveAt(ring: seq<nat>, k: nat): seq<nat>
    requires k < |ring|
  {
    ring[..k] + ring[k + 1..]
  }

  function InsertAt(ring: seq<nat>, k: nat, b: nat): seq<nat>
    requires k <= |ring|
  {
    ring[..k] + [b] + ring[k..]
  }

  lemma RemoveIndex(ring: seq<nat>, k: nat, i: nat)
    requires k < |ring| && i < |ring| - 1
    ensures |RemoveAt(ring, k)| == |ring| - 1
    ensures RemoveAt(ring, k)[i] == if i < k then ring[i] else ring[i + 1]
  {
  }

  lemma InsertIndex(ring: seq<nat>, k: nat, b: nat, i: nat)
    requires k <= |ring| && i <= |ring|
    ensures |InsertAt(ring, k, b)| == |ring| + 1
    ensures InsertAt(ring, k, b)[i] == if i < k then ring[i] else if i == k then b else ring[i - 1]
  {
  }

  lemma RingMembersDiffer(ptr: map<nat, nat>, size: map<nat, nat>, ring: seq<nat>, i: nat, j: nat)
    requires IsRing(ptr, size, ring) && i < |ring| && j < |ring| && i != j
    ensures ring[i] != ring[j]
  {
    if i < j { Ascending(ptr, size, ring, i, j); } else { Ascending(ptr, size, ring, j, i); }
  }

  /** Taking a block out of the ring: its predecessor points past it. */
  lemma Unlink(ptr: map<nat, nat>, size: map<nat, nat>, ring: seq<nat>, k: nat)
    requires IsRing(ptr, size, ring) && 0 < k < |ring|
    ensures ring[k] in ptr
    ensures IsRing(ptr[ring[k - 1] := ptr[ring[k]]], size, RemoveAt(ring, k))
  {
    assert Node(ptr, size, ring, k) && Node(ptr, size, ring, k - 1);
    var ptr', ring' := ptr[ring[k - 1] := ptr[ring[k]]], RemoveAt(ring, k);
    RemoveIndex(ring, k, 0);
    forall i: nat | i < |ring'| ensures Node(ptr', size, ring', i) {
      var j := if i < k then i else i + 1;
      RemoveIndex(ring, k, i);
      if i + 1 < |ring'| { RemoveIndex(ring, k, i + 1); }
      assert Node(ptr, size, ring, j);
      if j != k - 1 { RingMembersDiffer(ptr, size, ring, j, k - 1); }
    }
  }

  /** Putting a block of `n` units into the ring where it belongs, touching no neighbour. */
  lemma Link(ptr: map<nat, nat>, size: map<nat, nat>, ring: seq<nat>, t: nat, b: nat, n: nat)
    requires IsRing(ptr, size, ring) && Belongs(ring, b, t) && 0 < n
    requires ring[t] in size && ring[t] + size[ring[t]] < b && (t + 1 < |ring| ==> b + n < ring[t + 1])
    ensures IsRing(ptr[ring[t] := b][b := Next(ring, t)], size[b := n], InsertAt(ring, t + 1, b))
  {
    var ptr', size', ring' := ptr[ring[t] := b][b := Next(ring, t)], size[b := n], InsertAt(ring, t + 1, b);
    InsertIndex(ring, t + 1, b, 0);
    forall i: nat | i < |ring'| ensures Node(ptr', size', ring', i) {
      InsertIndex(ring, t + 1, b, i);
      if i + 1 < |ring'| { InsertIndex(ring, t + 1, b, i + 1); }
      var j := if i <= t then i else i - 1;
      assert Node(ptr, size, ring, j) && Node(ptr, size, ring, t);
      if j != t { RingMembersDiffer(ptr, size, ring, j, t); }
      if j < t { Ascending(ptr, size, ring, j, t); }
      if t + 1 < j { Ascending(ptr, size, ring, t + 1, j); }
    }
  }

  /** Growing or shrinking a block in place, as long as it still ends before the next one. */
  lemma Resize(ptr: map<nat, nat>, size: map<nat, nat>, ring: seq<nat>, t: nat, n: nat)
    requires IsRing(ptr, size, ring) && 0 < t < |ring| && 0 < n
    requires t + 1 < |ring| ==> ring[t] + n < ring[t + 1]
    ensures IsRing(ptr, size[ring[t] := n], ring)
  {
    var size' := size[ring[t] := n];
    forall i: nat | i < |ring| ensures Node(ptr, size', ring, i) {
      assert Node(ptr, size, ring, i);
      if i != t { RingMembersDiffer(ptr, size, ring, i, t); }
    }
  }

  predicate Agree(m: map<nat, nat>, m': map<nat, nat>, x: nat) {
    x in m ==> x in m' && m'[x] == m[x]
  }

  /** Words outside the ring do not matter to it. */
  lemma Irrelevant(ptr: map<nat, nat>, size: map<nat, nat>, ring: seq<nat>, ptr': map<nat, nat>, size': map<nat, nat>)
    requires IsRing(ptr, size, ring)
    requires forall i :: 0 <= i < |ring| ==> Agree(ptr, ptr', ring[i]) && Agree(size, size', ring[i])
    ensures IsRing(ptr', size', ring)
  {
    forall i: nat | i < |ring| ensures Node(ptr', size', ring, i) {
      assert Node(ptr, size, ring, i) && Agree(ptr, ptr', ring[i]);
    }
  }

  // ---- free -------------------------------------------------------------------------

  /** Memory as free and malloc see it: link and size words, and what they mean. */
  datatype Mem = Mem(ptr: map<nat, nat>, size: map<nat, nat>, ring: seq<nat>, blk: map<nat, nat>, live: set<nat>, core: set<nat>) {
    predicate Sized(h: nat) {
      h in blk ==> h in size && size[h] == blk[h] && 0 < blk[h]
    }

    predicate Placed(h: nat) {
      h in ring <==> (ring != [] && h == ring[0]) || (h in blk && h !in live)
    }

    /** The ring holds the base header and exactly the blocks that are not live; free and live
        blocks tile the memory obtained so far. */
    ghost predicate Good() {
      && IsRing(ptr, size, ring) && Tiles(core, blk)
      && live <= blk.Keys
      && (forall h: nat :: h in blk ==> ring[0] < h)
      && (forall h: nat :: Sized(h))
      && (forall h: nat :: Placed(h))
    }
  }

  predicate SameBlock(m: Mem, r: Mem, h: nat) {
    h in m.blk && h in r.blk && r.blk[h] == m.blk[h]
  }

  /** Every block live in `r` was a block of `m`, with the same units. */
  ghost predicate KeptLive(m: Mem, r: Mem) {
    forall h: nat :: h in r.live ==> SameBlock(m, r, h)
  }

  /** Every block live in `m` is a block of `r`, with the same units. */
  ghost predicate SameLive(m: Mem, r: Mem) {
    forall h: nat :: h in m.live ==> SameBlock(m, r, h)
  }

  /** The words free writes once it has found the ring header `p` below `bp`. */
  function FreeWords(ptr: map<nat, nat>, size: map<nat, nat>, p: nat, bp: nat): (w: (map<nat, nat>, map<nat, nat>))
    requires p in ptr && bp in size && ptr[p] in ptr && ptr[p] in size && p in size && p != bp
  {
    var q := ptr[p];
    var hi := bp + size[bp] == q;
    var size1 := if hi then size[bp := size[bp] + size[q]] else size;
    var ptr1 := ptr[bp := if hi then ptr[q] else q];
    if p + size1[p] == bp
    then (ptr1[p := ptr1[bp]], size1[p := size1[p] + size1[bp]])
    else (ptr1[p := bp], size1)
  }

  /** A live block that may be freed, and the place in the ring below it. */
  ghost predicate Freeing(m: Mem, t: nat, bp: nat) {
    m.Good() && bp in m.live && Belongs(m.ring, bp, t)
  }

  /** Neighbouring blocks never overlap the block to be freed. */
  lemma Neighbours(m: Mem, t: nat, bp: nat)
    requires Freeing(m, t, bp)
    ensures m.ring[t] in m.ptr && m.ring[t] in m.size && bp in m.blk && bp in m.size && m.size[bp] == m.blk[bp] && 0 < m.blk[bp]
    ensures m.ring[t] + m.size[m.ring[t]] <= bp
    ensures m.ptr[m.ring[t]] == Next(m.ring, t)
    ensures t > 0 ==> m.ring[t] in m.blk && m.ring[t] !in m.live
    ensures t + 1 < |m.ring| ==> bp + m.blk[bp] <= m.ring[t + 1] && m.ring[t + 1] in m.blk && m.ring[t + 1] !in m.live && m.ring[t + 1] in m.ptr
  {
    assert Node(m.ptr, m.size, m.ring, t) && m.Sized(bp);
    if t > 0 {
      RingMembersDiffer(m.ptr, m.size, m.ring, 0, t);
      assert m.Placed(m.ring[t]) && m.Sized(m.ring[t]) && Apart(m.blk, m.ring[t], bp);
    }
    if t + 1 < |m.ring| {
      RingMembersDiffer(m.ptr, m.size, m.ring, 0, t + 1);
      assert m.Placed(m.ring[t + 1]) && Apart(m.blk, bp, m.ring[t + 1]) && Node(m.ptr, m.size, m.ring, t + 1);
    }
  }

  function TakeNext(m: Mem, t: nat, bp: nat): Mem
    requires t + 1 < |m.ring| && m.ring[t + 1] in m.ptr && bp in m.blk && m.ring[t + 1] in m.blk
  {
    var q := m.ring[t + 1];
    var n := m.blk[bp] + m.blk[q];
    Mem(m.ptr[m.ring[t] := m.ptr[q]], m.size[bp := n], RemoveAt(m.ring, t + 1), (m.blk - {q})[bp := n], m.live, m.core)
  }

  lemma RemoveMember(ptr: map<nat, nat>, size: map<nat, nat>, ring: seq<nat>, k: nat, h: nat)
    requires IsRing(ptr, size, ring) && k < |ring|
    ensures h in RemoveAt(ring, k) <==> h in ring && h != ring[k]
  {
    if h in RemoveAt(ring, k) {
      var i: nat :| i < |RemoveAt(ring, k)| && RemoveAt(ring, k)[i] == h;
      RemoveIndex(ring, k, i);
      RingMembersDiffer(ptr, size, ring, if i < k then i else i + 1, k);
    }
    if h in ring && h != ring[k] {
      var j: nat :| j < |ring| && ring[j] == h;
      var i := if j < k then j else j - 1;
      RemoveIndex(ring, k, i);
      assert RemoveAt(ring, k)[i] == h;
    }
  }

  /** The freed block swallows the free block it touches above. */
  lemma TakeNextGood(m: Mem, t: nat, bp: nat)
    requires Freeing(m, t, bp) && t + 1 < |m.ring| && bp in m.blk && bp + m.blk[bp] == m.ring[t + 1]
    requires m.ring[t + 1] in m.ptr && m.ring[t + 1] in m.blk
    ensures Freeing(TakeNext(m, t, bp), t, bp)
    ensures var a := TakeNext(m, t, bp); t + 1 < |a.ring| ==> bp + a.blk[bp] < a.ring[t + 1]
  {
    var q, a := m.ring[t + 1], TakeNext(m, t, bp);
    Neighbours(m, t, bp);
    Unlink(m.ptr, m.size, m.ring, t + 1);
    assert bp !in m.ring by { assert m.Placed(bp); }
    forall i | 0 <= i < |a.ring| ensures Agree(m.size, a.size, a.ring[i]) {
      RemoveMember(m.ptr, m.size, m.ring, t + 1, a.ring[i]);
    }
    Irrelevant(a.ptr, m.size, a.ring, a.ptr, a.size);
    MergeTiles(m.core, m.blk, bp, q);
    RemoveIndex(m.ring, t + 1, 0);
    RemoveIndex(m.ring, t + 1, t);
    assert Node(m.ptr, m.size, m.ring, t + 1) && m.Sized(q);
    if t + 1 < |a.ring| { RemoveIndex(m.ring, t + 1, t + 1); }
    forall h: nat ensures a.Sized(h) && a.Placed(h) {
      assert m.Sized(h) && m.Placed(h);
      RemoveMember(m.ptr, m.size, m.ring, t + 1, h);
    }
  }

  /** The freed block joins the ring, inside the block below it if the two touch. */
  function Release(m: Mem, t: nat, bp: nat): Mem
    requires t < |m.ring| && m.ring[t] in m.size && bp in m.blk
  {
    var p := m.ring[t];
    if p + m.size[p] == bp then
      var n := m.size[p] + m.blk[bp];
      m.(size := m.size[p := n], blk := (m.blk - {bp})[p := n], live := m.live - {bp})
    else
      m.(ptr := m.ptr[p := bp][bp := Next(m.ring, t)], ring := InsertAt(m.ring, t + 1, bp), live := m.live - {bp})
  }

  lemma InsertMember(ring: seq<nat>, k: nat, b: nat, h: nat)
    requires k <= |ring|
    ensures h in InsertAt(ring, k, b) <==> h == b || h in ring
  {
    assert ring[..k] + ring[k..] == ring;
  }

  lemma ReleaseGood(m: Mem, t: nat, bp: nat)
    requires Freeing(m, t, bp) && bp in m.blk && (t + 1 < |m.ring| ==> bp + m.blk[bp] < m.ring[t + 1])
    requires m.ring[t] in m.size
    ensures Release(m, t, bp).Good() && m.ring[t] in Release(m, t, bp).ring
  {
    var p, r := m.ring[t], Release(m, t, bp);
    Neighbours(m, t, bp);
    if p + m.size[p] == bp {
      assert t > 0 by { assert Node(m.ptr, m.size, m.ring, t); }
      assert m.Sized(p);
      Resize(m.ptr, m.size, m.ring, t, m.size[p] + m.blk[bp]);
      MergeTiles(m.core, m.blk, p, bp);
      forall h: nat ensures r.Sized(h) && r.Placed(h) {
        assert m.Sized(h) && m.Placed(h) && m.Placed(p);
      }
    } else {
      Link(m.ptr, m.size, m.ring, t, bp, m.blk[bp]);
      assert m.size[bp := m.blk[bp]] == m.size;
      InsertIndex(m.ring, t + 1, bp, 0);
      InsertMember(m.ring, t + 1, bp, p);
      forall h: nat ensures r.Sized(h) && r.Placed(h) {
        assert m.Sized(h) && m.Placed(h) && m.Placed(bp);
        InsertMember(m.ring, t + 1, bp, h);
      }
    }
  }

  /** The memory once the block above, if free and adjacent, has been swallowed. */
  ghost function Widened(m: Mem, t: nat, bp: nat): Mem
    requires Freeing(m, t, bp)
  {
    Neighbours(m, t, bp);
    if t + 1 < |m.ring| && bp + m.blk[bp] == m.ring[t + 1] then TakeNext(m, t, bp) else m
  }

  lemma WidenedGood(m: Mem, t: nat, bp: nat)
    requires Freeing(m, t, bp)
    ensures Freeing(Widened(m, t, bp), t, bp) && Widened(m, t, bp).ring[t] == m.ring[t]
    ensures var a := Widened(m, t, bp); bp in a.blk && a.ring[t] in a.size && (t + 1 < |a.ring| ==> bp + a.blk[bp] < a.ring[t + 1])
  {
    Neighbours(m, t, bp);
    if t + 1 < |m.ring| && bp + m.blk[bp] == m.ring[t + 1] {
      TakeNextGood(m, t, bp);
      RemoveIndex(m.ring, t + 1, t);
    }
    Neighbours(Widened(m, t, bp), t, bp);
  }

  /** free may read the words it reads. */
  lemma FreeReads(m: Mem, t: nat, bp: nat)
    requires Freeing(m, t, bp)
    ensures var p := m.ring[t]; p in m.ptr && p in m.size && bp in m.size && p != bp && m.ptr[p] in m.ptr && m.ptr[p] in m.size
  {
    Neighbours(m, t, bp);
    assert Node(m.ptr, m.size, m.ring, 0);
    if t + 1 < |m.ring| { assert Node(m.ptr, m.size, m.ring, t + 1); }
  }

  /** The words free writes, against the two stages: they differ at most in the dead link of a
      block that was merged away. */
  lemma FreeWordsMatch(m: Mem, t: nat, bp: nat, b: Mem)
    requires Freeing(m, t, bp) && Freeing(Widened(m, t, bp), t, bp)
    requires Widened(m, t, bp).ring[t] == m.ring[t] && bp in Widened(m, t, bp).blk && m.ring[t] in Widened(m, t, bp).size
    requires b == Release(Widened(m, t, bp), t, bp)
    ensures var p := m.ring[t];
            && p in m.ptr && p in m.size && bp in m.size && p != bp && m.ptr[p] in m.ptr && m.ptr[p] in m.size
            && FreeWords(m.ptr, m.size, p, bp).1 == b.size
            && (forall x :: x != bp || x in b.ring ==> Agree(b.ptr, FreeWords(m.ptr, m.size, p, bp).0, x))
  {
    var a, p := Widened(m, t, bp), m.ring[t];
    FreeReads(m, t, bp);
    Neighbours(m, t, bp);
    if t + 1 < |m.ring| { assert Node(m.ptr, m.size, m.ring, t + 1) && m.Sized(m.ring[t + 1]); }
    Neighbours(a, t, bp);
    if p + a.size[p] == bp { assert a.Placed(bp); }
  }

  lemma FreeKeeps(m: Mem, t: nat, bp: nat, b: Mem)
    requires Freeing(m, t, bp) && Freeing(Widened(m, t, bp), t, bp)
    requires Widened(m, t, bp).ring[t] == m.ring[t] && bp in Widened(m, t, bp).blk && m.ring[t] in Widened(m, t, bp).size
    requires b == Release(Widened(m, t, bp), t, bp)
    ensures b.ring != [] && b.ring[0] == m.ring[0] && b.live == m.live - {bp} && b.core == m.core
    ensures KeptLive(m, b)
    ensures BigEnough(b, m.blk[bp])
  {
    var a, p := Widened(m, t, bp), m.ring[t];
    Neighbours(m, t, bp);
    Neighbours(a, t, bp);
    if a != m { RemoveIndex(m.ring, t + 1, 0); }
    if p + a.size[p] == bp {
      assert CanServe(b, p, m.blk[bp]);
    } else {
      InsertIndex(a.ring, t + 1, bp, 0);
      InsertMember(a.ring, t + 1, bp, bp);
      assert CanServe(b, bp, m.blk[bp]);
    }
  }

  /** The words free writes describe the ring with `bp` in it, merged with every free block it
      touched; live blocks keep their place and size, and the memory stays tiled. */
  lemma FreeGood(m: Mem, t: nat, bp: nat) returns (r: Mem)
    requires Freeing(m, t, bp)
    ensures var p := m.ring[t]; p in m.ptr && p in m.size && bp in m.size && p != bp && m.ptr[p] in m.ptr && m.ptr[p] in m.size
    ensures r.Good() && (r.ptr, r.size) == FreeWords(m.ptr, m.size, m.ring[t], bp)
    ensures r.ring[0] == m.ring[0] && m.ring[t] in r.ring && r.live == m.live - {bp} && r.core == m.core
    ensures KeptLive(m, r)
    ensures bp in m.blk && BigEnough(r, m.blk[bp])
  {
    Neighbours(m, t, bp);
    WidenedGood(m, t, bp);
    ReleaseGood(Widened(m, t, bp), t, bp);
    var b := Release(Widened(m, t, bp), t, bp);
    FreeWordsMatch(m, t, bp, b);
    FreeKeeps(m, t, bp, b);
    r := Reworded(b, FreeWords(m.ptr, m.size, m.ring[t], bp).0);
    var h: nat :| CanServe(b, h, m.blk[bp]);
    assert CanServe(r, h, m.blk[bp]);
  }

  lemma Reworded(b: Mem, ptr: map<nat, nat>) returns (r: Mem)
    requires b.Good() && forall i :: 0 <= i < |b.ring| ==> Agree(b.ptr, ptr, b.ring[i])
    ensures r == b.(ptr := ptr) && r.Good()
  {
    r := b.(ptr := ptr);
    Irrelevant(b.ptr, b.size, b.ring, ptr, b.size);
    forall h: nat ensures r.Sized(h) && r.Placed(h) { assert b.Sized(h) && b.Placed(h); }
  }

  predicate CanServe(m: Mem, h: nat, n: nat) {
    h in m.ring && h in m.size && n <= m.size[h]
  }

  /** Some block in the ring has at least `n` units. */
  ghost predicate BigEnough(m: Mem, n: nat) {
    exists h: nat :: CanServe(m, h, n)
  }

  // ---- The search of free -----------------------------------------------------------

  /** free's test for having found the header below `bp`. */
  predicate Found(bp: nat, p: nat, q: nat) {
    (bp > p && bp < q) || (p >= q && (bp > p || bp < q))
  }

  /** The test succeeds at the header below `bp` and nowhere else on the ring. */
  lemma FoundExactly(m: Mem, k: nat, t: nat, bp: nat)
    requires Freeing(m, t, bp) && k < |m.ring|
    ensures Found(bp, m.ring[k], Next(m.ring, k)) <==> k == t
  {
    var r := m.ring;
    assert m.ring[0] < bp;
    if k < t { Ascending(m.ptr, m.size, r, k, t); if k + 1 < t { Ascending(m.ptr, m.size, r, k + 1, t); } }
    if t < k { if t + 1 < k { Ascending(m.ptr, m.size, r, t + 1, k); } }
    if 0 < k { Ascending(m.ptr, m.size, r, 0, k); }
    assert Node(m.ptr, m.size, r, k);
  }

  /** Steps from position `k` to position `t` along a ring of `n`. */
  function Distance(k: nat, t: nat, n: nat): int {
    if k <= t then t - k else t + n - k
  }

  datatype Grant = NoMemory | At(p: nat)   // what sbrk answers

  /** The units morecore adds when it is asked for `nu`. */
  function Added(grant: Grant, nu: nat): set<nat> {
    if grant.NoMemory? then {} else Units(grant.p, if nu < 4096 then 4096 else nu)
  }

  // ---- The allocator ----------------------------------------------------------------

  class Allocator {
    const base: nat
    var ptr: map<nat, nat>
    var size: map<nat, nat>
    var freep: nat        // 0 until the first malloc
    ghost var m: Mem
    ghost var brk: nat    // all memory obtained so far lies below

    ghost predicate Valid()
      reads this
    {
      && 0 < base < brk && m.ptr == ptr && m.size == size
      && (forall u: nat :: u in m.core ==> u < brk)
      && (if freep == 0 then m.ring == [] && m.live == {} && m.blk == map[] && m.core == {}
          else m.Good() && m.ring[0] == base && freep in m.ring)
    }

    constructor (base: nat, brk: nat)
      requires 0 < base < brk
      ensures Valid() && this.base == base && freep == 0 && m.live == {} && m.core == {}
    {
      this.base, this.brk, freep := base, brk, 0;
      ptr, size := map[], map[];
      m := Mem(map[], map[], [], map[], {}, {});
    }

    /** free's search: it ends, at the ring header below the block. */
    method FindBelow(bp: nat, ghost t: nat) returns (p: nat)
      requires Valid() && freep != 0 && Freeing(m, t, bp)
      ensures p == m.ring[t]
    {
      p := freep;
      ghost var k: nat :| k < |m.ring| && m.ring[k] == p;
      assert Node(m.ptr, m.size, m.ring, k);
      FoundExactly(m, k, t, bp);
      while !(bp > p && bp < ptr[p])
        invariant k < |m.ring| && p == m.ring[k] && p in ptr && ptr[p] == Next(m.ring, k)
        invariant Found(bp, p, ptr[p]) <==> k == t
        decreases Distance(k, t, |m.ring|)
      {
        if p >= ptr[p] && (bp > p || bp < ptr[p]) {
          break;
        }
        p := ptr[p];
        k := if k + 1 < |m.ring| then k + 1 else 0;
        assert Node(m.ptr, m.size, m.ring, k);
        FoundExactly(m, k, t, bp);
      }
    }

    /** free of a live block: it joins the free memory, merged with every free block it touches. */
    method Free(ap: nat)
      requires Valid() && freep != 0 && 0 < ap && ap - 1 in m.live
      modifies this`ptr, this`size, this`freep, this`m
      ensures Valid() && freep != 0 && m.live == old(m.live) - {ap - 1} && m.core == old(m.core)
      ensures KeptLive(old(m), m)
      ensures ap - 1 in old(m.blk) && BigEnough(m, old(m.blk)[ap - 1])
      ensures exists t: nat :: Belongs(old(m.ring), ap - 1, t) && freep == old(m.ring)[t]
    {
      var bp := ap - 1;
      assert m.Placed(bp);
      ghost var t := FindPlace(m.ptr, m.size, m.ring, bp, |m.ring|);
      var p := FindBelow(bp, t);
      assert 0 < p by { if t > 0 { Ascending(m.ptr, m.size, m.ring, 0, t); } }
      ghost var r := FreeGood(m, t, bp);
      var q := ptr[p];
      if bp + size[bp] == q {
        size := size[bp := size[bp] + size[q]];
        ptr := ptr[bp := ptr[q]];
      } else {
        ptr := ptr[bp := q];
      }
      if p + size[p] == bp {
        size := size[p := size[p] + size[bp]];
        ptr := ptr[p := ptr[bp]];
      } else {
        ptr := ptr[p := bp];
      }
      freep := p;
      m := r;
    }

    /** morecore: at least 4096 units from sbrk, handed to free. Null if sbrk refuses. */
    method Morecore(nu: nat, grant: Grant) returns (p: nat)
      requires Valid() && freep != 0 && 0 < nu
      requires grant.At? ==> brk <= grant.p
      modifies this`ptr, this`size, this`freep, this`m, this`brk
      ensures Valid() && freep != 0 && m.live == old(m.live)
      ensures grant.NoMemory? ==> p == 0 && ptr == old(ptr) && size == old(size) && freep == old(freep) && m == old(m)
      ensures grant.At? ==> p == freep && BigEnough(m, nu)
      ensures m.core == old(m.core) + Added(grant, nu)
      ensures KeptLive(old(m), m)
    {
      var n := if nu < 4096 then 4096 else nu;
      if grant.NoMemory? {
        return 0;
      }
      var hp := grant.p;
      ghost var g := m.(size := m.size[hp := n], blk := m.blk[hp := n], live := m.live + {hp}, core := m.core + Units(hp, n));
      GrantGood(m, brk, hp, n);
      size := size[hp := n];
      m := g;
      brk := hp + n;
      Free(hp + 1);
      MoreServes(m, nu, n);
      return freep;
    }

    /** The block found is taken whole, or its tail is cut off. */
    method Carve(prevp: nat, p: nat, nunits: nat, ghost k: nat) returns (h: nat)
      requires Valid() && freep != 0 && 0 < nunits && 0 < k < |m.ring| && m.ring[k] == p && m.ring[k - 1] == prevp
      requires p in size && nunits <= size[p]
      modifies this`ptr, this`size, this`freep, this`m
      ensures Valid() && freep != 0 && h !in old(m.live) && m.live == old(m.live) + {h} && m.core == old(m.core)
      ensures h in m.blk && m.blk[h] == nunits
      ensures SameLive(old(m), m)
      ensures freep == prevp && h == p + old(size)[p] - nunits
    {
      RingMember(m, k);
      h := p;
      assert 0 < prevp by { if k - 1 > 0 { Ascending(m.ptr, m.size, m.ring, 0, k - 1); } }
      if size[p] == nunits {
        TakeWholeGood(m, k);
        m := TakeWhole(m, k);
        ptr := ptr[prevp := ptr[p]];
      } else {
        TakeTailGood(m, k, nunits);
        m := TakeTail(m, k, nunits);
        size := size[p := size[p] - nunits];
        h := h + size[p];
        size := size[h := nunits];
      }
      freep := prevp;
    }

    /** malloc's start: `freep`, after making the ring of the base header on the first call. */
    method StartAt() returns (prevp: nat)
      requires Valid()
      modifies this`ptr, this`size, this`freep, this`m
      ensures Valid() && freep != 0 && prevp == freep
      ensures m.live == old(m.live) && m.core == old(m.core) && m.blk == old(m.blk)
      ensures old(freep) != 0 ==> freep == old(freep) && m == old(m)
      ensures forall n: nat :: 0 < n ==> (BigEnough(m, n) <==> BigEnough(old(m), n))
    {
      prevp := freep;
      if prevp == 0 {
        prevp := base;
        freep := base;
        ptr := ptr[base := base];
        size := size[base := 0];
        m := Mem(ptr, size, [base], map[], {}, {});
        FirstRing(m, base);
      }
    }

    /** malloc's call to morecore; the search restarts at the new `freep`. */
    method Refill(nunits: nat, grant: Grant) returns (p: nat, ghost f: nat)
      requires Valid() && freep != 0 && 0 < nunits && !BigEnough(m, nunits)
      requires grant.At? ==> brk <= grant.p
      modifies this`ptr, this`size, this`freep, this`m, this`brk
      ensures Valid() && freep != 0 && m.live == old(m.live) && SameLive(old(m), m)
      ensures p == 0 ==> grant.NoMemory? && m == old(m)
      ensures p != 0 ==> grant.At? && BigEnough(m, nunits) && m.core == old(m.core) + Added(grant, nunits)
      ensures p != 0 ==> f < |m.ring| && m.ring[f] == freep == p && Scanned(m, f, Follow(f, |m.ring|), nunits)
    {
      f := 0;
      forall h: nat | h in m.live ensures SameBlock(m, m, h) {}
      p := Morecore(nunits, grant);
      if p != 0 {
        f :| f < |m.ring| && m.ring[f] == freep;
        forall i: nat ensures SmallAt(m, f, Follow(f, |m.ring|), nunits, i) {}
      }
    }

    /** malloc's search: `p` is at place `k` of the ring with `prevp` before it, `freep` at place `f`,
        and the blocks passed since `freep` are too small. `grown` says whether morecore was called. */
    ghost predicate Searching(m0: Mem, grant: Grant, nunits: nat, prevp: nat, p: nat, f: nat, k: nat, grown: bool)
      reads this
    {
      && Valid() && freep != 0 && m.live == m0.live && SameLive(m0, m)
      && f < |m.ring| && m.ring[f] == freep && k < |m.ring| && m.ring[k] == p && m.ring[Before(k, |m.ring|)] == prevp
      && Scanned(m, f, k, nunits)
      && (grown ==> BigEnough(m, nunits) && !BigEnough(m0, nunits) && grant.At? && m.core == m0.core + Added(grant, nunits))
      && (!grown ==> m.core == m0.core && (BigEnough(m, nunits) <==> BigEnough(m0, nunits)) && (grant.At? ==> brk <= grant.p))
    }

    /** Blocks still to be met before the search is back at `freep`. */
    ghost function Ahead(f: nat, k: nat): int
      requires f < |m.ring| && k < |m.ring|
      reads this
    {
      |m.ring| - Distance(Follow(f, |m.ring|), k, |m.ring|)
    }

    /** A step of the search past block `p`, which is too small. */
    method Pass(nunits: nat, grant: Grant, prevp: nat, p: nat, ghost m0: Mem, ghost f: nat, ghost k: nat, ghost grown: bool)
        returns (fail: bool, prevp': nat, p': nat, ghost f': nat, ghost k': nat, ghost grown': bool)
      requires Searching(m0, grant, nunits, prevp, p, f, k, grown) && p in size && size[p] < nunits
      modifies this
      ensures fail ==> Valid() && freep != 0 && grant.NoMemory? && m.live == m0.live && m.core == m0.core && SameLive(m0, m)
      ensures fail ==> !BigEnough(m, nunits) && !BigEnough(m0, nunits)
      ensures !fail ==> Searching(m0, grant, nunits, prevp', p', f', k', grown')
      ensures !fail && !grown' ==> m == old(m) && freep == old(freep)
      ensures !fail ==> (grown' && !grown) || (grown' == grown && Ahead(f', k') < old(Ahead(f, k)))
    {
      fail, prevp', f', k', grown' := false, p, f, k, grown;
      if p == freep {
        NothingServes(m, f, k, nunits);
        prevp', f' := Refill(nunits, grant);
        if prevp' == 0 {
          p' := 0;
          return true, 0, 0, f', k', grown';
        }
        grown', k' := true, f';
      } else {
        ScannedMore(m, f, k, nunits);
      }
      RingMember(m, k');
      p' := ptr[prevp'];
      k' := Follow(k', |m.ring|);
    }

    /** malloc. It returns null exactly if no free block was large enough and sbrk refused; otherwise
        the result is a block of exactly the units asked for, apart from every live block. The
        live blocks are untouched, and memory is obtained, once, exactly if none was large enough. */
    method Malloc(nbytes: nat, grant: Grant) returns (ap: nat)
      requires Valid() && nbytes <= MAXREQUEST
      requires grant.At? ==> brk <= grant.p
      modifies this
      ensures Valid() && freep != 0
      ensures ap == 0 <==> grant.NoMemory? && !BigEnough(old(m), UnitsFor(nbytes))
      ensures ap == 0 ==> m.live == old(m.live) && !BigEnough(m, UnitsFor(nbytes))
      ensures ap != 0 ==> ap - 1 !in old(m.live) && m.live == old(m.live) + {ap - 1}
      ensures ap != 0 ==> ap - 1 in m.blk && m.blk[ap - 1] == UnitsFor(nbytes)
      ensures ap != 0 ==> nbytes <= (m.blk[ap - 1] - 1) * UNIT < nbytes + UNIT
      ensures SameLive(old(m), m)
      ensures m.core == old(m.core) + if BigEnough(old(m), UnitsFor(nbytes)) then {} else Added(grant, UnitsFor(nbytes))
      ensures old(freep) != 0 && BigEnough(old(m), UnitsFor(nbytes)) ==> FirstFit(old(m), old(freep), UnitsFor(nbytes), ap - 1, freep)
    {
      var nunits := UnitsFor(nbytes);
      UnitsEnough(nbytes);
      var prevp := StartAt();
      ap := Search(nunits, grant, prevp);
    }

    /** malloc's loop. */
    method Search(nunits: nat, grant: Grant, start: nat) returns (ap: nat)
      requires Valid() && freep != 0 && start == freep && 0 < nunits && (grant.At? ==> brk <= grant.p)
      modifies this
      ensures Valid() && freep != 0
      ensures ap == 0 <==> grant.NoMemory? && !BigEnough(old(m), nunits)
      ensures ap == 0 ==> m.live == old(m.live) && !BigEnough(m, nunits)
      ensures ap != 0 ==> ap - 1 !in old(m.live) && m.live == old(m.live) + {ap - 1}
      ensures ap != 0 ==> ap - 1 in m.blk && m.blk[ap - 1] == nunits
      ensures SameLive(old(m), m)
      ensures m.core == old(m.core) + if BigEnough(old(m), nunits) then {} else Added(grant, nunits)
      ensures BigEnough(old(m), nunits) ==> FirstFit(old(m), old(freep), nunits, ap - 1, freep)
    {
      var prevp := start;
      ghost var grown := false;
      ghost var f: nat :| f < |m.ring| && m.ring[f] == freep;   // position of freep
      ghost var k: nat := Follow(f, |m.ring|);                  // position of p
      RingMember(m, f);
      forall h: nat | h in m.live ensures SameBlock(m, m, h) {}
      forall i: nat ensures SmallAt(m, f, k, nunits, i) {}
      var p := ptr[prevp];
      while true
        invariant Searching(old(m), grant, nunits, prevp, p, f, k, grown)
        invariant !grown ==> m == old(m) && freep == old(freep)
        decreases if grown then 0 else 1, Ahead(f, k)
      {
        RingMember(m, k);
        if size[p] >= nunits {
          ap := TakeAt(nunits, grant, prevp, p, old(m), old(freep), f, k, grown);
          return;
        }
        var fail;
        fail, prevp, p, f, k, grown := Pass(nunits, grant, prevp, p, old(m), f, k, grown);
        if fail {
          return 0;
        }
      }
    }

    /** The search has found a block: it, or its tail, is the result. */
    method TakeAt(nunits: nat, grant: Grant, prevp: nat, p: nat, ghost m0: Mem, ghost fp0: nat, ghost f: nat, ghost k: nat, ghost grown: bool)
        returns (ap: nat)
      requires 0 < nunits && Searching(m0, grant, nunits, prevp, p, f, k, grown) && p in size && size[p] >= nunits
      requires !grown ==> m == m0 && freep == fp0
      modifies this`ptr, this`size, this`freep, this`m
      ensures Valid() && freep != 0 && ap != 0 && m.live == m0.live + {ap - 1} && ap - 1 !in m0.live
      ensures ap - 1 in m.blk && m.blk[ap - 1] == nunits && SameLive(m0, m)
      ensures m.core == m0.core + if BigEnough(m0, nunits) then {} else Added(grant, nunits)
      ensures grant.NoMemory? ==> BigEnough(m0, nunits)
      ensures BigEnough(m0, nunits) ==> FirstFit(m0, fp0, nunits, ap - 1, freep)
    {
      assert CanServe(m, p, nunits);
      RingMember(m, k);
      ghost var m1 := m;
      var h := Carve(prevp, p, nunits, k);
      SameLiveTrans(m0, m1, m);
      assert !grown ==> Served(m0, fp0, nunits, k, h, freep);
      return h + 1;
    }
  }

  /** malloc takes the first block from `fp` on that is large enough, in ring order: the `k`-th. It gives
      its last `n` units away, and leaves the start of the next search at the header before it. */
  ghost predicate Served(m: Mem, fp: nat, n: nat, k: nat, h: nat, fp': nat) {
    && 0 < k < |m.ring| && m.ring[k] in m.size && n <= m.size[m.ring[k]]
    && h == m.ring[k] + m.size[m.ring[k]] - n && fp' == m.ring[k - 1]
    && exists f: nat :: f < |m.ring| && m.ring[f] == fp && Scanned(m, f, k, n)
  }

  ghost predicate FirstFit(m: Mem, fp: nat, n: nat, h: nat, fp': nat) {
    exists k: nat :: Served(m, fp, n, k, h, fp')
  }

  lemma SameLiveTrans(a: Mem, b: Mem, c: Mem)
    requires SameLive(a, b) && SameLive(b, c) && a.live == b.live
    ensures SameLive(a, c)
  {
    forall h: nat | h in a.live ensures SameBlock(a, c, h) {
      assert SameBlock(a, b, h) && SameBlock(b, c, h);
    }
  }

  /** A block has room for the bytes asked for behind its header, and less than a unit to spare. */
  lemma UnitsEnough(nbytes: nat)
    requires nbytes <= MAXREQUEST
    ensures 0 < UnitsFor(nbytes) && nbytes <= (UnitsFor(nbytes) - 1) * UNIT < nbytes + UNIT
  {
  }

  /** The first malloc makes a ring of the base header alone. */
  lemma FirstRing(m: Mem, base: nat)
    requires 0 < base && m.ring == [base] && base in m.ptr && m.ptr[base] == base && base in m.size && m.size[base] == 0
    requires m.blk == map[] && m.live == {} && m.core == {}
    ensures m.Good()
  {
  }

  lemma RingMember(m: Mem, k: nat)
    requires m.Good() && k < |m.ring|
    ensures m.ring[k] in m.ptr && m.ring[k] in m.size && (m.size[m.ring[k]] > 0 ==> k > 0)
    ensures Follow(k, |m.ring|) < |m.ring| && m.ptr[m.ring[k]] == m.ring[Follow(k, |m.ring|)]
    ensures Before(Follow(k, |m.ring|), |m.ring|) == k
  {
    assert Node(m.ptr, m.size, m.ring, k);
  }

  function Follow(k: nat, n: nat): nat { if k + 1 < n then k + 1 else 0 }

  function Before(k: nat, n: nat): nat
    requires k < n
  {
    if k > 0 then k - 1 else n - 1
  }

  predicate SmallAt(m: Mem, f: nat, k: nat, n: nat, i: nat) {
    i < |m.ring| && Distance(Follow(f, |m.ring|), i, |m.ring|) < Distance(Follow(f, |m.ring|), k, |m.ring|) ==>
      m.ring[i] in m.size && m.size[m.ring[i]] < n
  }

  /** Every header from the one after position `f` up to, but not including, position `k` is too
      small. */
  ghost predicate Scanned(m: Mem, f: nat, k: nat, n: nat) {
    forall i: nat :: SmallAt(m, f, k, n, i)
  }

  lemma ScannedMore(m: Mem, f: nat, k: nat, n: nat)
    requires m.Good() && f < |m.ring| && k < |m.ring| && f != k && Scanned(m, f, k, n)
    requires m.ring[k] in m.size && m.size[m.ring[k]] < n
    ensures Scanned(m, f, Follow(k, |m.ring|), n)
    ensures Distance(Follow(f, |m.ring|), Follow(k, |m.ring|), |m.ring|) == Distance(Follow(f, |m.ring|), k, |m.ring|) + 1
  {
    forall i: nat ensures SmallAt(m, f, Follow(k, |m.ring|), n, i) { assert SmallAt(m, f, k, n, i); }
  }

  /** Back at `freep` after a full turn: no block is large enough. */
  lemma NothingServes(m: Mem, f: nat, k: nat, n: nat)
    requires m.Good() && f < |m.ring| && k < |m.ring| && m.ring[k] == m.ring[f] && Scanned(m, f, k, n)
    requires m.ring[k] in m.size && m.size[m.ring[k]] < n
    ensures !BigEnough(m, n)
  {
    if f != k { RingMembersDiffer(m.ptr, m.size, m.ring, f, k); }
    forall i: nat | i < |m.ring| ensures m.ring[i] in m.size && m.size[m.ring[i]] < n {
      assert SmallAt(m, f, k, n, i);
    }
  }

  // ---- Taking a block ---------------------------------------------------------------

  function TakeWhole(m: Mem, k: nat): Mem
    requires 0 < k < |m.ring| && m.ring[k] in m.ptr
  {
    m.(ptr := m.ptr[m.ring[k - 1] := m.ptr[m.ring[k]]], ring := RemoveAt(m.ring, k), live := m.live + {m.ring[k]})
  }

  lemma TakeWholeGood(m: Mem, k: nat)
    requires m.Good() && 0 < k < |m.ring| && m.ring[k] in m.ptr
    ensures TakeWhole(m, k).Good() && m.ring[k] in m.blk && m.ring[k] !in m.live && m.ring[k] in m.size && m.blk[m.ring[k]] == m.size[m.ring[k]]
    ensures TakeWhole(m, k).ring[0] == m.ring[0] && m.ring[k - 1] in TakeWhole(m, k).ring
  {
    var p, r := m.ring[k], TakeWhole(m, k);
    Unlink(m.ptr, m.size, m.ring, k);
    RingMembersDiffer(m.ptr, m.size, m.ring, 0, k);
    RingMembersDiffer(m.ptr, m.size, m.ring, k - 1, k);
    RemoveIndex(m.ring, k, 0);
    RemoveMember(m.ptr, m.size, m.ring, k, m.ring[k - 1]);
    assert m.Placed(p) && m.Sized(p);
    forall h: nat ensures r.Sized(h) && r.Placed(h) {
      assert m.Sized(h) && m.Placed(h);
      RemoveMember(m.ptr, m.size, m.ring, k, h);
    }
  }

  function TakeTail(m: Mem, k: nat, n: nat): Mem
    requires k < |m.ring| && m.ring[k] in m.size && n < m.size[m.ring[k]]
  {
    var p := m.ring[k];
    var h := p + m.size[p] - n;
    m.(size := m.size[p := m.size[p] - n][h := n], blk := m.blk[p := m.size[p] - n][h := n], live := m.live + {h})
  }

  lemma TakeTailGood(m: Mem, k: nat, n: nat)
    requires m.Good() && 0 < k < |m.ring| && m.ring[k] in m.size && 0 < n < m.size[m.ring[k]]
    ensures TakeTail(m, k, n).Good() && m.ring[k] + m.size[m.ring[k]] - n !in m.blk && m.ring[k] !in m.live
  {
    var p, r := m.ring[k], TakeTail(m, k, n);
    var h := p + m.size[p] - n;
    RingMembersDiffer(m.ptr, m.size, m.ring, 0, k);
    assert m.Placed(p) && m.Sized(p);
    SplitTiles(m.core, m.blk, p, n);
    assert h !in m.ring by { assert m.Placed(h); }
    assert Node(m.ptr, m.size, m.ring, k);
    Resize(m.ptr, m.size, m.ring, k, m.size[p] - n);
    Irrelevant(m.ptr, m.size[p := m.size[p] - n], m.ring, r.ptr, r.size);
    forall x: nat ensures r.Sized(x) && r.Placed(x) { assert m.Sized(x) && m.Placed(x); }
  }

  // ---- Sizes ------------------------------------------------------------------------

  const UNIT: nat := 8   // sizeof(Header)

  /** malloc's unit count, computed in 32 bits. */
  function UnitsFor(nbytes: nat): nat {
    (nbytes + UNIT - 1) % 0x1_0000_0000 / UNIT + 1
  }

  /** The argument sbrk receives from morecore: `nu * sizeof(Header)` as a signed 32-bit number. */
  function SbrkArgument(nu: nat): int {
    var x := nu * UNIT % 0x1_0000_0000;
    if x < 0x8000_0000 then x else x - 0x1_0000_0000
  }

  const MAXREQUEST: nat := 0x7FFF_FFF0

  /** The 32-bit arithmetic of malloc and morecore is right exactly for requests up to MAXREQUEST:
      beyond it either the block has fewer bytes than asked for or sbrk is not asked for them. */
  lemma RequestsExact(nbytes: nat)
    requires nbytes < 0x1_0000_0000
    ensures nbytes <= MAXREQUEST <==>
            (UnitsFor(nbytes) - 1) * UNIT >= nbytes && SbrkArgument(UnitsFor(nbytes)) == UnitsFor(nbytes) * UNIT
  {
  }

  lemma MoreServes(m: Mem, a: nat, b: nat)
    requires BigEnough(m, b) && a <= b
    ensures BigEnough(m, a)
  {
    var h: nat :| CanServe(m, h, b);
    assert CanServe(m, h, a);
  }

  /** Fresh memory, seen as a live block, keeps everything in order. */
  lemma GrantGood(m: Mem, brk: nat, p: nat, n: nat)
    requires m.Good() && 0 < n && m.ring[0] < brk <= p && forall u: nat :: u in m.core ==> u < brk
    ensures p !in m.blk
    ensures m.(size := m.size[p := n], blk := m.blk[p := n], live := m.live + {p}, core := m.core + Units(p, n)).Good()
  {
    var g := m.(size := m.size[p := n], blk := m.blk[p := n], live := m.live + {p}, core := m.core + Units(p, n));
    forall h | h in m.blk ensures 0 < m.blk[h] { assert m.Sized(h); }
    GrowTiles(m.core, m.blk, brk, p, n);
    assert p !in m.ring by { assert m.Placed(p); }
    Irrelevant(m.ptr, m.size, m.ring, g.ptr, g.size);
    forall h: nat ensures g.Sized(h) && g.Placed(h) { assert m.Sized(h) && m.Placed(h); }
  }
}
