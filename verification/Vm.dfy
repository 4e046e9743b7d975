/** kalloc.c and vm.c: the frame allocator and the operations on page tables. */
module Vm {
  import opened VmModel
  import opened Options

  const KERNBASE: nat := 0x8000_0000

  /** The kernel's address of frame `f`. */
  function P2V(f: nat): word
    requires f < 0x8_0000
  {
    KERNBASE + f * PGSIZE
  }

  function FrameAt(v: word): nat {
    if v < KERNBASE then 0 else (v - KERNBASE) / PGSIZE
  }

  /** The free list: `head` is the address of its first frame, word 0 of each frame the address of
      the next. */
  predicate IsList(mem: Mem, head: word, s: seq<nat>)
    decreases |s|
  {
    if s == [] then head == 0
    else s[0] < |mem| && s[0] < 0x8_0000 && head == P2V(s[0]) && s[0] !in s[1..] && IsList(mem, mem[s[0]][0], s[1..])
  }

  lemma {:induction false} ListKeeps(mem: Mem, f: nat, page: Page, head: word, s: seq<nat>)
    requires IsList(mem, head, s) && f < |mem| && f !in s
    ensures IsList(mem[f := page], head, s)
    decreases |s|
  {
    if s != [] {
      ListKeeps(mem, f, page, mem[s[0]][0], s[1..]);
    }
  }

  predicate ListedOk(own: seq<Owner>, free: seq<nat>, f: nat)
    requires f < |own|
  {
    own[f] == Free <==> f in free
  }

  // ---- What an operation on one address space may change ----------------------------------

  /** Physical memory and its ownership at one moment. */
  datatype Snap = Snap(mem: Mem, own: seq<Owner>)

  /** A frame in use, but not by directory `pd`. */
  predicate Foreign(o: Owner, f: nat, pd: nat) {
    match o
    case Free => false
    case Dir => f != pd
    case Table(q, _) => q != pd
    case User(q, _, _) => q != pd
    case Kernel => true
  }

  /** Foreign frames keep owner and contents; user pages that stay mapped keep their contents. */
  predicate FrameKept(s: Snap, t: Snap, pd: nat, f: nat)
    requires |s.mem| == |s.own| == |t.mem| == |t.own| && f < |s.mem|
  {
    && (Foreign(s.own[f], f, pd) ==> t.own[f] == s.own[f] && t.mem[f] == s.mem[f])
    && (s.own[f].User? && t.own[f] == s.own[f] ==> t.mem[f] == s.mem[f])
  }

  predicate Kept(s: Snap, t: Snap, pd: nat) {
    && |s.mem| == |s.own| == |t.mem| == |t.own|
    && forall f :: 0 <= f < |s.mem| ==> FrameKept(s, t, pd, f)
  }

  /** The entry for page number `p`. */
  function PteAt(mem: Mem, pd: nat, p: nat): word
    requires pd < |mem| && p < ENTRIES * ENTRIES
  {
    Pte(mem, pd, p / ENTRIES, p % ENTRIES)
  }

  /** Other address spaces are untouched. */
  lemma OtherSpaces(lo: nat, s: Snap, t: Snap, pd: nat, q: nat, p: nat)
    requires Sound(lo, s.mem, s.own) && Kept(s, t, pd) && q < |s.mem| && s.own[q] == Dir && q != pd && p < ENTRIES * ENTRIES
    ensures PteAt(t.mem, q, p) == PteAt(s.mem, q, p)
  {
    var i := p / ENTRIES;
    assert FrameKept(s, t, pd, q) && DirOk(s.mem, s.own, q, i);
    if Present(s.mem[q][i]) {
      assert FrameKept(s, t, pd, Frame(s.mem[q][i]));
    }
  }

  /** A free frame is still free, or has become a page table of `pd`. */
  predicate OnlyTable(s: Snap, t: Snap, pd: nat, f: nat)
    requires f < |s.own| && f < |t.own|
  {
    t.own[f] == s.own[f] || (s.own[f] == Free && t.own[f].Table? && t.own[f].pd == pd)
  }

  predicate OnlyTables(s: Snap, t: Snap, pd: nat) {
    |s.own| == |t.own| && forall f :: 0 <= f < |s.own| ==> OnlyTable(s, t, pd, f)
  }

  /** The permission bits of an entry once PTE_P is set. */
  function Perm(perm: nat): nat {
    if perm % 2 == 1 then perm else perm + 1
  }

  function PageOf(a: nat): nat {
    a / PGSIZE
  }

  function RoundUp(a: nat): nat {
    (a + PGSIZE - 1) / PGSIZE * PGSIZE
  }

  lemma PageAddress(p: nat)
    ensures PageOf(p * PGSIZE) == p && p * PGSIZE % PGSIZE == 0
  {
  }

  /** A page-aligned address below `a` lies on a page before RoundUp(a); PGSIZE further is the next page. */
  lemma Rounded(i: nat, a: nat)
    requires i % PGSIZE == 0
    ensures i < a <==> PageOf(i) < PageOf(RoundUp(a))
    ensures (i + PGSIZE) % PGSIZE == 0 && PageOf(i + PGSIZE) == PageOf(i) + 1
  {
  }

  /** Pages below KERNBASE. */
  const USER_PAGES: nat := USER_DIRS * ENTRIES

  const ALL_PAGES: nat := ENTRIES * ENTRIES

  function UserSlot(pd: nat, p: nat): Owner {
    User(pd, p / ENTRIES, p % ENTRIES)
  }

  /** Pages `first .. first + n` map consecutive frames from `pf`; other entries are as they were. */
  predicate PteMapped(s: Snap, t: Snap, pd: nat, first: nat, n: nat, pf: nat, perm: nat, p: nat)
    requires pd < |s.mem| && pd < |t.mem| && p < ALL_PAGES && pf + n <= 0x10_0000 && perm < PGSIZE
  {
    PteAt(t.mem, pd, p) == if first <= p < first + n then Entry(pf + (p - first), Perm(perm)) else PteAt(s.mem, pd, p)
  }

  /** A user mapping claims its frames, and leaves their contents. */
  predicate FrameMapped(s: Snap, t: Snap, pd: nat, first: nat, n: nat, pf: nat, g: nat)
    requires |s.mem| == |s.own| == |t.mem| == |t.own| && g < |s.mem|
  {
    if first < USER_PAGES && pf <= g < pf + n then t.own[g] == UserSlot(pd, first + (g - pf)) && t.mem[g] == s.mem[g]
    else FrameKept(s, t, pd, g) && OnlyTable(s, t, pd, g)
  }

  predicate Mapped(s: Snap, t: Snap, pd: nat, first: nat, n: nat, pf: nat, perm: nat) {
    && |s.mem| == |s.own| == |t.mem| == |t.own| && pd < |s.mem| && pf + n <= 0x10_0000 && perm < PGSIZE
    && (forall p :: 0 <= p < ALL_PAGES ==> PteMapped(s, t, pd, first, n, pf, perm, p))
    && (forall g :: 0 <= g < |s.mem| ==> FrameMapped(s, t, pd, first, n, pf, g))
  }

  lemma MappedNext(s: Snap, t: Snap, u: Snap, pd: nat, first: nat, n: nat, pf: nat, perm: nat)
    requires Mapped(s, t, pd, first, n, pf, perm) && Mapped(t, u, pd, first + n, 1, pf + n, perm)
    requires first < USER_PAGES ==> first + n < USER_PAGES
    requires first < USER_PAGES && pf + n < |s.own| ==> s.own[pf + n] == Owner.Kernel
    ensures Mapped(s, u, pd, first, n + 1, pf, perm)
  {
    var m := n + 1;
    forall p | 0 <= p < ALL_PAGES ensures PteMapped(s, u, pd, first, m, pf, perm, p) {
      assert PteMapped(s, t, pd, first, n, pf, perm, p) && PteMapped(t, u, pd, first + n, 1, pf + n, perm, p);
    }
    forall g | 0 <= g < |s.mem| ensures FrameMapped(s, u, pd, first, m, pf, g) {
      assert FrameMapped(s, t, pd, first, n, pf, g) && FrameMapped(t, u, pd, first + n, 1, pf + n, g);
    }
  }

  // ---- Freeing a range of user pages --------------------------------------------------------

  /** Present entries of pages `from .. to` become 0, all others stay. */
  predicate PteFreed(s: Snap, t: Snap, pd: nat, from: nat, to: nat, p: nat)
    requires pd < |s.mem| && pd < |t.mem| && p < ALL_PAGES
  {
    PteAt(t.mem, pd, p) == if from <= p < to && Present(PteAt(s.mem, pd, p)) then 0 else PteAt(s.mem, pd, p)
  }

  predicate InRange(o: Owner, pd: nat, from: nat, to: nat) {
    o.User? && o.pd == pd && from <= o.i * ENTRIES + o.j < to
  }

  /** The frames of pages `from .. to` become free, every other frame stays with its owner. */
  predicate FrameFreed(s: Snap, t: Snap, pd: nat, from: nat, to: nat, g: nat)
    requires |s.mem| == |s.own| == |t.mem| == |t.own| && g < |s.mem|
  {
    && t.own[g] == (if InRange(s.own[g], pd, from, to) then Free else s.own[g])
    && FrameKept(s, t, pd, g)
  }

  predicate Freed(s: Snap, t: Snap, pd: nat, from: nat, to: nat) {
    && |s.mem| == |s.own| == |t.mem| == |t.own| && pd < |s.mem|
    && (forall p :: 0 <= p < ALL_PAGES ==> PteFreed(s, t, pd, from, to, p))
    && (forall g :: 0 <= g < |s.mem| ==> FrameFreed(s, t, pd, from, to, g))
    && t.mem[pd] == s.mem[pd]
  }

  lemma FreedNext(s: Snap, t: Snap, u: Snap, pd: nat, from: nat, mid: nat, to: nat)
    requires Freed(s, t, pd, from, mid) && Freed(t, u, pd, mid, to) && from <= mid <= to
    ensures Freed(s, u, pd, from, to)
  {
    forall p | 0 <= p < ALL_PAGES ensures PteFreed(s, u, pd, from, to, p) {
      assert PteFreed(s, t, pd, from, mid, p) && PteFreed(t, u, pd, mid, to, p);
    }
    forall g | 0 <= g < |s.mem| ensures FrameFreed(s, u, pd, from, to, g) {
      assert FrameFreed(s, t, pd, from, mid, g) && FrameFreed(t, u, pd, mid, to, g);
    }
  }

  /** The page a user frame is mapped at. */
  lemma OwnedPage(lo: nat, s: Snap, pd: nat, g: nat)
    requires Sound(lo, s.mem, s.own) && g < |s.mem| && pd < |s.mem|
    ensures s.own[g].User? && s.own[g].pd == pd ==>
              s.own[g].i * ENTRIES + s.own[g].j < USER_PAGES && Present(PteAt(s.mem, pd, s.own[g].i * ENTRIES + s.own[g].j))
  {
    assert FrameOk(lo, s.mem, s.own, g);
  }

  /** Pages without a page table, and pages not present, have nothing to free. */
  lemma FreedNothing(lo: nat, s: Snap, pd: nat, from: nat, to: nat)
    requires Sound(lo, s.mem, s.own) && pd < |s.mem| && to <= USER_PAGES
    requires forall p :: from <= p < to ==> !Present(PteAt(s.mem, pd, p))
    ensures Freed(s, s, pd, from, to)
  {
    forall g | 0 <= g < |s.mem| ensures FrameFreed(s, s, pd, from, to, g) {
      assert FrameOk(lo, s.mem, s.own, g);
      OwnedPage(lo, s, pd, g);
    }
    forall p | 0 <= p < ALL_PAGES ensures PteFreed(s, s, pd, from, to, p) {
    }
  }

  /** The first page of the next page table, or `to` if that comes first. */
  function NextTable(p: nat, to: nat): nat {
    var next := (p / ENTRIES + 1) * ENTRIES;
    if next < to then next else to
  }

  /** The address of that page. */
  lemma NextTableAddress(a: nat)
    requires a % PGSIZE == 0
    ensures var b := (PageOf(a) / ENTRIES + 1) * (ENTRIES * PGSIZE);
            a < b && b >= PGSIZE && b % PGSIZE == 0 && PageOf(b) == (PageOf(a) / ENTRIES + 1) * ENTRIES
  {
  }

  lemma NoTable(lo: nat, s: Snap, pd: nat, p: nat, next: nat)
    requires Sound(lo, s.mem, s.own) && pd < |s.mem| && p < next <= (p / ENTRIES + 1) * ENTRIES && next <= USER_PAGES
    requires !Present(s.mem[pd][p / ENTRIES])
    ensures Freed(s, s, pd, p, next)
  {
    forall q | p <= q < next ensures !Present(PteAt(s.mem, pd, q)) {
      assert q / ENTRIES == p / ENTRIES;
    }
    FreedNothing(lo, s, pd, p, next);
  }

  /** Freeing a frame and then clearing its entry, in that order. */
  function AfterFree(s: Snap, pd: nat, i: nat, j: nat, junk: Page): Snap
    requires |s.mem| == |s.own| && pd < |s.mem| && i < ENTRIES && j < ENTRIES && Present(s.mem[pd][i]) && Frame(s.mem[pd][i]) < |s.mem|
    requires Frame(Pte(s.mem, pd, i, j)) < |s.mem|
  {
    var f, t := Frame(Pte(s.mem, pd, i, j)), Frame(s.mem[pd][i]);
    Snap(s.mem[f := junk][t := s.mem[f := junk][t][j := 0]], s.own[f := Free])
  }

  lemma FreeOne(lo: nat, s: Snap, pd: nat, p: nat, junk: Page)
    requires p < USER_PAGES && HasTable(lo, s.mem, s.own, pd, p / ENTRIES) && Present(PteAt(s.mem, pd, p))
    ensures lo <= Frame(PteAt(s.mem, pd, p)) < |s.mem| && s.own[Frame(PteAt(s.mem, pd, p))] == UserSlot(pd, p)
    ensures var t := AfterFree(s, pd, p / ENTRIES, p % ENTRIES, junk);
            Sound(lo, t.mem, t.own) && Freed(s, t, pd, p, p + 1)
  {
    var i, j := p / ENTRIES, p % ENTRIES;
    UnmapKeeps(lo, s.mem, s.own, pd, i, j);
    var f, tab := Frame(Pte(s.mem, pd, i, j)), Frame(s.mem[pd][i]);
    assert FrameOk(lo, s.mem, s.own, f);
    var m, o := WithPte(s.mem, pd, i, j, 0), s.own[f := Owner.Kernel];
    PlainKeeps(lo, m, o, f, junk);
    LooseKeeps(lo, m[f := junk], o, f, Free);
    var t := AfterFree(s, pd, i, j, junk);
    assert m[f := junk] == t.mem && o[f := Free] == t.own;
    var q := p + 1;
    forall x | 0 <= x < ALL_PAGES ensures PteFreed(s, t, pd, p, q, x) {
      WithPteIs(lo, s.mem, s.own, pd, i, j, 0, pd, x / ENTRIES, x % ENTRIES);
      assert Pte(t.mem, pd, x / ENTRIES, x % ENTRIES) == Pte(m, pd, x / ENTRIES, x % ENTRIES);
    }
    forall g | 0 <= g < |s.mem| ensures FrameFreed(s, t, pd, p, q, g) {
      OneFrame(lo, s, pd, p, g);
    }
  }

  /** Only the frame of page `p` belongs to page `p`. */
  lemma OneFrame(lo: nat, s: Snap, pd: nat, p: nat, g: nat)
    requires Sound(lo, s.mem, s.own) && pd < |s.mem| && p < USER_PAGES && g < |s.mem|
    ensures InRange(s.own[g], pd, p, p + 1) ==> s.own[g] == UserSlot(pd, p) && Frame(PteAt(s.mem, pd, p)) == g
  {
    assert FrameOk(lo, s.mem, s.own, g);
  }

  // ---- Freeing a whole address space ---------------------------------------------------------

  /** Every frame of directory `pd` is free, every other frame as it was. */
  predicate FrameReleased(s: Snap, t: Snap, pd: nat, g: nat)
    requires |s.mem| == |s.own| == |t.mem| == |t.own| && g < |s.mem|
  {
    if Foreign(s.own[g], g, pd) then t.own[g] == s.own[g] && t.mem[g] == s.mem[g] else t.own[g] == Free
  }

  predicate Released(s: Snap, t: Snap, pd: nat) {
    && |s.mem| == |s.own| == |t.mem| == |t.own|
    && forall g :: 0 <= g < |s.mem| ==> FrameReleased(s, t, pd, g)
  }

  /** Page tables of `pd` below index `n` are free. */
  predicate FrameDropped(s: Snap, t: Snap, pd: nat, n: nat, g: nat)
    requires |s.mem| == |s.own| == |t.mem| == |t.own| && g < |s.mem|
  {
    && t.own[g] == (if s.own[g].Table? && s.own[g].pd == pd && s.own[g].i < n then Free else s.own[g])
    && (Foreign(s.own[g], g, pd) ==> t.mem[g] == s.mem[g])
  }

  predicate Dropped(s: Snap, t: Snap, pd: nat, n: nat) {
    && |s.mem| == |s.own| == |t.mem| == |t.own| && pd < |s.mem| && t.mem[pd] == s.mem[pd]
    && forall g :: 0 <= g < |s.mem| ==> FrameDropped(s, t, pd, n, g)
  }

  lemma DroppedNext(lo: nat, s: Snap, t: Snap, u: Snap, pd: nat, n: nat, page: Page)
    requires Sound(lo, s.mem, s.own) && Dropped(s, t, pd, n) && s.own[pd] == Dir && n < ENTRIES
    requires if Present(s.mem[pd][n]) then
               var f := Frame(s.mem[pd][n]);
               f < |t.own| && u == Snap(t.mem[f := page], t.own[f := Free])
             else u == t
    ensures Dropped(s, u, pd, n + 1)
  {
    assert DirOk(s.mem, s.own, pd, n);
    var m := n + 1;
    forall g | 0 <= g < |s.mem| ensures FrameDropped(s, u, pd, m, g) {
      assert FrameDropped(s, t, pd, n, g) && FrameOk(lo, s.mem, s.own, g);
    }
  }

  lemma ReleasedSound(lo: nat, s: Snap, t: Snap, pd: nat)
    requires Sound(lo, s.mem, s.own) && Released(s, t, pd) && pd < |s.mem| && s.own[pd] == Dir
    ensures Sound(lo, t.mem, t.own)
  {
    forall q, p | 0 <= q < |s.mem| && 0 <= p < ENTRIES ensures DirOk(t.mem, t.own, q, p) {
      assert DirOk(s.mem, s.own, q, p) && FrameReleased(s, t, pd, q);
      if t.own[q] == Dir && Present(s.mem[q][p]) {
        assert FrameReleased(s, t, pd, Frame(s.mem[q][p]));
      }
    }
    forall q, x, y | 0 <= q < |s.mem| && 0 <= x < ENTRIES && 0 <= y < ENTRIES && t.own[q] == Dir
      ensures Pte(t.mem, q, x, y) == Pte(s.mem, q, x, y)
    {
      assert DirOk(s.mem, s.own, q, x) && FrameReleased(s, t, pd, q);
      if Present(s.mem[q][x]) {
        assert FrameReleased(s, t, pd, Frame(s.mem[q][x]));
      }
    }
    forall q, x, y | 0 <= q < |s.mem| && 0 <= x < USER_DIRS && 0 <= y < ENTRIES ensures SlotOk(t.mem, t.own, q, x, y) {
      assert SlotOk(s.mem, s.own, q, x, y) && FrameReleased(s, t, pd, q);
      if t.own[q] == Dir && Present(Pte(s.mem, q, x, y)) {
        assert FrameReleased(s, t, pd, Frame(Pte(s.mem, q, x, y)));
      }
    }
    forall g | 0 <= g < |s.mem| ensures FrameOk(lo, t.mem, t.own, g) {
      assert FrameOk(lo, s.mem, s.own, g) && FrameReleased(s, t, pd, g);
      match t.own[g]
      case Table(q, _) => assert FrameReleased(s, t, pd, q);
      case User(q, _, _) => assert FrameReleased(s, t, pd, q);
      case _ =>
    }
  }

  /** deallocuvm of everything, then the page tables, then the directory. */
  lemma AllReleased(lo: nat, s: Snap, t: Snap, u: Snap, v: Snap, pd: nat)
    requires Sound(lo, s.mem, s.own) && s.mem != [] && Freed(s, t, pd, 0, USER_PAGES) && Dropped(t, u, pd, ENTRIES)
    requires s.own[pd] == Dir && |v.mem| == |v.own| == |u.mem| && v.own == u.own[pd := Free]
    requires forall g :: 0 <= g < |u.mem| && g != pd ==> v.mem[g] == u.mem[g]
    ensures Released(s, v, pd)
  {
    forall g | 0 <= g < |s.mem| ensures FrameReleased(s, v, pd, g) {
      assert FrameFreed(s, t, pd, 0, USER_PAGES, g) && FrameDropped(t, u, pd, ENTRIES, g) && FrameOk(lo, s.mem, s.own, g);
    }
  }

  // ---- Growing an address space --------------------------------------------------------------

  /** The frames it takes to map pages `from .. to` afresh: one each, and the missing page tables. */
  function FramesFor(dir: Page, from: nat, to: nat): nat
    requires from <= to <= ALL_PAGES
  {
    (to - from) + Missing(dir, from, to)
  }

  /** Pages `from .. to` map fresh zeroed frames, writable by the user; other entries stay. */
  predicate PteGrown(s: Snap, t: Snap, pd: nat, from: nat, to: nat, p: nat)
    requires |s.mem| == |s.own| == |t.mem| == |t.own| && pd < |s.mem| && p < ALL_PAGES
  {
    var w := PteAt(t.mem, pd, p);
    if from <= p < to then
      && Present(w) && Flags(w) == 7 && Frame(w) < |t.own|
      && s.own[Frame(w)] == Free && t.own[Frame(w)] == UserSlot(pd, p) && t.mem[Frame(w)] == Filled(0)
    else w == PteAt(s.mem, pd, p)
  }

  /** Only free frames change hands: to page tables of `pd` and to its new pages. */
  predicate FrameGrown(s: Snap, t: Snap, pd: nat, from: nat, to: nat, g: nat)
    requires |s.mem| == |s.own| == |t.mem| == |t.own| && g < |s.mem|
  {
    && FrameKept(s, t, pd, g)
    && (OnlyTable(s, t, pd, g) || (s.own[g] == Free && InRange(t.own[g], pd, from, to)))
  }

  predicate Grown(s: Snap, t: Snap, pd: nat, from: nat, to: nat) {
    && |s.mem| == |s.own| == |t.mem| == |t.own| && pd < |s.mem|
    && (forall p :: 0 <= p < ALL_PAGES ==> PteGrown(s, t, pd, from, to, p))
    && (forall g :: 0 <= g < |s.mem| ==> FrameGrown(s, t, pd, from, to, g))
  }

  /** The address space maps what it did; at most, free frames have become page tables. */
  predicate Restored(s: Snap, t: Snap, pd: nat) {
    && Kept(s, t, pd) && OnlyTables(s, t, pd) && pd < |s.mem|
    && forall p :: 0 <= p < ALL_PAGES ==> PteAt(t.mem, pd, p) == PteAt(s.mem, pd, p)
  }

  lemma GrownNext(s: Snap, t: Snap, u: Snap, pd: nat, from: nat, mid: nat)
    requires Grown(s, t, pd, from, mid) && Grown(t, u, pd, mid, mid + 1) && from <= mid < USER_PAGES
    ensures Grown(s, u, pd, from, mid + 1)
  {
    var to := mid + 1;
    forall g | 0 <= g < |s.mem| ensures FrameGrown(s, u, pd, from, to, g) {
      assert FrameGrown(s, t, pd, from, mid, g) && FrameGrown(t, u, pd, mid, to, g);
    }
    forall p | 0 <= p < ALL_PAGES ensures PteGrown(s, u, pd, from, to, p) {
      assert PteGrown(s, t, pd, from, mid, p) && PteGrown(t, u, pd, mid, to, p);
      var f := Frame(PteAt(u.mem, pd, p));
      if f < |s.own| {
        assert FrameGrown(s, t, pd, from, mid, f) && FrameGrown(t, u, pd, mid, to, f);
      }
    }
  }

  /** `t` with frame `f` taken for the kernel, its contents arbitrary. */
  predicate Holding(t: Snap, u: Snap, f: nat) {
    && |t.mem| == |t.own| == |u.mem| == |u.own| && f < |t.own| && t.own[f] == Free && u.own == t.own[f := Owner.Kernel]
    && u.mem == t.mem[f := u.mem[f]]
  }

  /** kalloc, memset and mappages of one new page. */
  lemma GrownOne(lo: nat, s: Snap, t: Snap, u: Snap, pd: nat, p: nat, f: nat)
    requires Sound(lo, s.mem, s.own) && s.mem != [] && pd < |s.mem| && s.own[pd] == Dir && p < USER_PAGES && f < |s.mem|
    requires Holding(s, t, f) && t.mem[f] == Filled(0) && Mapped(t, u, pd, p, 1, f, 6)
    ensures Grown(s, u, pd, p, p + 1)
  {
    PlainKeeps(lo, s.mem, s.own, f, t.mem[f]);
    EntryParts(f, 7);
    assert FrameMapped(t, u, pd, p, 1, f, f);
    var q := p + 1;
    forall x | 0 <= x < ALL_PAGES ensures PteGrown(s, u, pd, p, q, x) {
      assert PteMapped(t, u, pd, p, 1, f, 6, x);
      assert Pte(t.mem, pd, x / ENTRIES, x % ENTRIES) == Pte(s.mem, pd, x / ENTRIES, x % ENTRIES);
    }
    forall g | 0 <= g < |s.mem| ensures FrameGrown(s, u, pd, p, q, g) {
      assert FrameMapped(t, u, pd, p, 1, f, g);
    }
  }

  /** deallocuvm takes back what allocuvm had added. */
  lemma GrownFreed(lo: nat, s: Snap, t: Snap, u: Snap, pd: nat, from: nat, mid: nat, to: nat)
    requires Sound(lo, s.mem, s.own) && pd < |s.mem| && s.own[pd] == Dir && from <= mid <= to <= USER_PAGES
    requires forall p :: from <= p < to ==> !Present(PteAt(s.mem, pd, p))
    requires Grown(s, t, pd, from, mid) && Freed(t, u, pd, from, to)
    ensures Restored(s, u, pd)
  {
    forall p | 0 <= p < ALL_PAGES ensures PteAt(u.mem, pd, p) == PteAt(s.mem, pd, p) {
      assert PteGrown(s, t, pd, from, mid, p) && PteFreed(t, u, pd, from, to, p);
      if p < USER_PAGES {
        assert SlotOk(s.mem, s.own, pd, p / ENTRIES, p % ENTRIES);
      }
    }
    forall g | 0 <= g < |s.mem| ensures FrameKept(s, u, pd, g) && OnlyTable(s, u, pd, g) {
      assert FrameGrown(s, t, pd, from, mid, g) && FrameFreed(t, u, pd, from, to, g) && FrameOk(lo, s.mem, s.own, g);
      OwnedPage(lo, s, pd, g);
    }
  }

  /** A frame held during deallocuvm and freed after it makes no difference. */
  lemma HeldFreed(lo: nat, t: Snap, t': Snap, u: Snap, u': Snap, pd: nat, f: nat, from: nat, to: nat)
    requires Sound(lo, t.mem, t.own) && pd < |t.mem| && t.own[pd] == Dir && Holding(t, t', f) && Freed(t', u, pd, from, to)
    requires Sound(lo, u.mem, u.own) && Holding(u', u, f) && |u'.mem| == |u.mem|
    ensures Freed(t, u', pd, from, to)
  {
    PlainKeeps(lo, t.mem, t.own, f, t'.mem[f]);
    PlainKeeps(lo, u.mem, u.own, f, u'.mem[f]);
    assert u.mem[f := u'.mem[f]] == u'.mem;
    assert FrameFreed(t', u, pd, from, to, pd);
    forall p | 0 <= p < ALL_PAGES ensures PteFreed(t, u', pd, from, to, p) {
      assert PteFreed(t', u, pd, from, to, p);
      assert Pte(t'.mem, pd, p / ENTRIES, p % ENTRIES) == Pte(t.mem, pd, p / ENTRIES, p % ENTRIES);
      assert Pte(u'.mem, pd, p / ENTRIES, p % ENTRIES) == Pte(u.mem, pd, p / ENTRIES, p % ENTRIES);
    }
    forall g | 0 <= g < |t.mem| ensures FrameFreed(t, u', pd, from, to, g) {
      assert FrameFreed(t', u, pd, from, to, g);
    }
  }

  // ---- Building a new address space ----------------------------------------------------------

  /** Frames in use are untouched; frames that were free may now belong to directory `d`. */
  predicate FrameFresh(s: Snap, t: Snap, d: nat, g: nat)
    requires |s.mem| == |s.own| == |t.mem| == |t.own| && g < |s.mem|
  {
    if s.own[g] != Free then t.own[g] == s.own[g] && t.mem[g] == s.mem[g]
    else t.own[g] == Free || !Foreign(t.own[g], g, d)
  }

  predicate Fresh(s: Snap, t: Snap, d: nat) {
    && |s.mem| == |s.own| == |t.mem| == |t.own| && d < |s.mem| && s.own[d] == Free
    && forall g :: 0 <= g < |s.mem| ==> FrameFresh(s, t, d, g)
  }

  predicate InUseKept(s: Snap, t: Snap, g: nat)
    requires |s.mem| == |s.own| == |t.mem| && g < |s.mem|
  {
    s.own[g] != Free ==> t.mem[g] == s.mem[g]
  }

  /** The same frames are free, and all others have their owner and contents. */
  predicate Unchanged(s: Snap, t: Snap) {
    && |s.mem| == |s.own| == |t.mem| && t.own == s.own
    && forall g :: 0 <= g < |s.mem| ==> InUseKept(s, t, g)
  }

  lemma FreshReleased(lo: nat, s: Snap, t: Snap, u: Snap, d: nat)
    requires Sound(lo, s.mem, s.own) && Fresh(s, t, d) && Released(t, u, d)
    ensures Unchanged(s, u)
  {
    forall g | 0 <= g < |s.mem| ensures u.own[g] == s.own[g] && InUseKept(s, u, g) {
      assert FrameFresh(s, t, d, g) && FrameReleased(t, u, d, g) && FrameOk(lo, s.mem, s.own, g);
    }
  }

  lemma FreshOthers(lo: nat, s: Snap, t: Snap, d: nat, q: nat, p: nat)
    requires Sound(lo, s.mem, s.own) && Fresh(s, t, d) && q < |s.mem| && s.own[q] == Dir && p < ALL_PAGES
    ensures PteAt(t.mem, q, p) == PteAt(s.mem, q, p)
  {
    forall g | 0 <= g < |s.mem| ensures FrameKept(s, t, d, g) {
      assert FrameFresh(s, t, d, g);
    }
    OtherSpaces(lo, s, t, d, q, p);
  }

  const EXTMEM: nat := 0x10_0000
  const KERNLINK: nat := KERNBASE + EXTMEM
  const DEVSPACE: nat := 0xFE00_0000
  const PHYSTOP: nat := PHYS_PAGES * PGSIZE

  /** kmap: virtual start, physical start, size and permissions. */
  datatype Kmap = Kmap(virt: word, start: word, size: nat, perm: nat)

  predicate DataOk(data: word) {
    data % PGSIZE == 0 && KERNLINK < data < KERNBASE + PHYSTOP
  }

  function KmapAt(data: word, k: nat): Kmap
    requires DataOk(data) && k < 4
  {
    if k == 0 then Kmap(KERNBASE, 0, EXTMEM, 2)
    else if k == 1 then Kmap(KERNLINK, EXTMEM, data - KERNLINK, 0)
    else if k == 2 then Kmap(data, data - KERNBASE, PHYSTOP - (data - KERNBASE), 2)
    else Kmap(DEVSPACE, DEVSPACE, 0x1_0000_0000 - DEVSPACE, 2)
  }

  lemma KmapFacts(data: word, k: nat)
    requires DataOk(data) && k < 4
    ensures var m := KmapAt(data, k);
            && 0 < m.size && m.virt + m.size <= 0x1_0000_0000 && m.start % PGSIZE == 0 && m.perm < PGSIZE
            && Frame(m.start) + PageOf(m.virt + m.size - 1) - PageOf(m.virt) < 0x10_0000 && PageOf(m.virt) >= USER_PAGES
  {
  }

  predicate InKmap(data: word, k: nat, p: nat)
    requires DataOk(data) && k < 4
  {
    PageOf(KmapAt(data, k).virt) <= p <= PageOf(KmapAt(data, k).virt + KmapAt(data, k).size - 1)
  }

  /** The entry for page `p` once the first `k` kernel mappings are made. */
  function KernelPte(data: word, k: nat, p: nat): word
    requires DataOk(data) && k <= 4 && p < ALL_PAGES
  {
    if k == 0 then 0
    else if InKmap(data, k - 1, p) then
      var m := KmapAt(data, k - 1);
      Entry(Frame(m.start) + (p - PageOf(m.virt)), Perm(m.perm))
    else KernelPte(data, k - 1, p)
  }

  /** The kernel's mappings do not overlap, nor reach below KERNBASE. */
  lemma KmapsApart(data: word, k: nat, p: nat)
    requires DataOk(data) && k < 4 && p < ALL_PAGES
    ensures InKmap(data, k, p) ==> KernelPte(data, k, p) == 0 && p >= USER_PAGES
  {
    if InKmap(data, k, p) {
      assert k > 0 ==> !InKmap(data, 0, p) && KernelPte(data, 1, p) == 0;
      assert k > 1 ==> !InKmap(data, 1, p) && KernelPte(data, 2, p) == 0;
      assert k > 2 ==> !InKmap(data, 2, p) && KernelPte(data, 3, p) == 0;
    }
  }

  /** What the entry `w` of the page at address `v` must be in every address space above KERNBASE:
      physical memory at KERNBASE, devices at their own address, nothing for the user, and only the
      kernel's text and read-only data protected from writing. */
  predicate KernelEntry(data: word, v: nat, w: word) {
    && (Present(w) <==> KERNBASE <= v < KERNBASE + PHYSTOP || DEVSPACE <= v)
    && (KERNBASE <= v < KERNBASE + PHYSTOP ==> Frame(w) * PGSIZE == v - KERNBASE)
    && (DEVSPACE <= v ==> Frame(w) * PGSIZE == v)
    && (Present(w) ==> !ForUser(w) && (Writable(w) <==> !(KERNBASE + 0x10_0000 <= v < data)))
    && (!Present(w) ==> w == 0)
  }

  /** The four mappings, together, as the memory layout describes them. */
  lemma KernelMap(data: word, p: nat)
    requires DataOk(data) && p < ALL_PAGES
    ensures KernelEntry(data, p * PGSIZE, KernelPte(data, 4, p))
  {
    if k :| 0 <= k < 4 && InKmap(data, k, p) {
      KernelPteLast(data, k, 4, p);
      KmapEntry(data, k, p);
    } else {
      KernelPteNone(data, 4, p);
      NoKmap(data, p);
    }
  }

  /** The kernel reaches every frame of memory at the address kalloc gives for it, and can write there
      unless the frame holds its own text. */
  lemma DirectMap(data: word, f: nat)
    requires DataOk(data) && f < PHYS_PAGES
    ensures var w := KernelPte(data, 4, PageOf(P2V(f)));
            Present(w) && Frame(w) == f && !ForUser(w) && (data - KERNBASE <= f * PGSIZE ==> Writable(w))
  {
    PageAddress(0x8_0000 + f);
    KernelMap(data, PageOf(P2V(f)));
  }

  lemma KmapEntry(data: word, k: nat, p: nat)
    requires DataOk(data) && k < 4 && p < ALL_PAGES && InKmap(data, k, p)
    ensures KernelEntry(data, p * PGSIZE, KernelPte(data, k + 1, p)) && KernelPte(data, k + 1, p) != 0
  {
    var m := KmapAt(data, k);
    var f := Frame(m.start) + (p - PageOf(m.virt));
    KmapFacts(data, k);
    EntryParts(f, Perm(m.perm));
    FlagBits(Entry(f, Perm(m.perm)));
    KmapPlace(data, k, p);
  }

  /** Where the page lies that mapping `k` gives an entry, and which frame it maps. */
  lemma KmapPlace(data: word, k: nat, p: nat)
    requires DataOk(data) && k < 4 && p < ALL_PAGES && InKmap(data, k, p)
    ensures var m, v := KmapAt(data, k), p * PGSIZE;
            var a := (Frame(m.start) + (p - PageOf(m.virt))) * PGSIZE;
            && (m.perm == 0 || m.perm == 2) && (m.perm == 0 <==> KERNBASE + 0x10_0000 <= v < data)
            && if k < 3 then KERNBASE <= v < KERNBASE + PHYSTOP && a == v - KERNBASE else DEVSPACE <= v && a == v
  {
  }

  lemma {:induction false} KernelPteLast(data: word, k: nat, n: nat, p: nat)
    requires DataOk(data) && k < n <= 4 && p < ALL_PAGES && InKmap(data, k, p)
    ensures KernelPte(data, n, p) == KernelPte(data, k + 1, p)
    decreases n
  {
    if n > k + 1 {
      KernelPteLast(data, k, n - 1, p);
      KmapEntry(data, k, p);
      KmapsApart(data, n - 1, p);
    }
  }

  lemma {:induction false} KernelPteNone(data: word, n: nat, p: nat)
    requires DataOk(data) && n <= 4 && p < ALL_PAGES && forall k :: 0 <= k < n ==> !InKmap(data, k, p)
    ensures KernelPte(data, n, p) == 0
  {
    if n > 0 {
      KernelPteNone(data, n - 1, p);
    }
  }

  lemma NoKmap(data: word, p: nat)
    requires DataOk(data) && p < ALL_PAGES && forall k :: 0 <= k < 4 ==> !InKmap(data, k, p)
    ensures !(KERNBASE <= p * PGSIZE < KERNBASE + PHYSTOP || DEVSPACE <= p * PGSIZE)
  {
    assert !InKmap(data, 0, p) && !InKmap(data, 1, p) && !InKmap(data, 2, p) && !InKmap(data, 3, p);
  }

  predicate Kvm(data: word, t: Snap, d: nat, k: nat) {
    && DataOk(data) && k <= 4 && d < |t.mem|
    && forall p :: 0 <= p < ALL_PAGES ==> PteAt(t.mem, d, p) == KernelPte(data, k, p)
  }

  lemma KernelSpace(data: word, t: Snap, d: nat)
    requires Kvm(data, t, d, 4)
    ensures forall p :: 0 <= p < ALL_PAGES ==> KernelEntry(data, p * PGSIZE, PteAt(t.mem, d, p))
  {
    forall p | 0 <= p < ALL_PAGES ensures KernelEntry(data, p * PGSIZE, PteAt(t.mem, d, p)) {
      KernelMap(data, p);
    }
  }

  lemma KvmNext(lo: nat, data: word, s: Snap, t: Snap, u: Snap, d: nat, k: nat, n: nat)
    requires Sound(lo, s.mem, s.own) && Fresh(s, t, d) && Kvm(data, t, d, k) && k < 4
    requires var m := KmapAt(data, k);
             && Frame(m.start) + n <= 0x10_0000
             && Mapped(t, u, d, PageOf(m.virt), n, Frame(m.start), m.perm)
    ensures Fresh(s, u, d)
    ensures n == PageOf(KmapAt(data, k).virt + KmapAt(data, k).size - 1) - PageOf(KmapAt(data, k).virt) + 1 ==> Kvm(data, u, d, k + 1)
  {
    var m := KmapAt(data, k);
    forall g | 0 <= g < |s.mem| ensures FrameFresh(s, u, d, g) {
      assert FrameFresh(s, t, d, g) && FrameMapped(t, u, d, PageOf(m.virt), n, Frame(m.start), g) && FrameOk(lo, s.mem, s.own, g);
    }
    if n == PageOf(m.virt + m.size - 1) - PageOf(m.virt) + 1 {
      forall p | 0 <= p < ALL_PAGES ensures PteAt(u.mem, d, p) == KernelPte(data, k + 1, p) {
        assert PteMapped(t, u, d, PageOf(m.virt), n, Frame(m.start), m.perm, p);
      }
    }
  }

  /** The page tables of the kernel's mappings, and with the directory the frames they take. */
  const KVM_TABLES: nat := 64
  const KVM_FRAMES: nat := KVM_TABLES + 1

  function FirstPage(m: Kmap): nat { PageOf(m.virt) }

  function EndPage(m: Kmap): nat
    requires m.size > 0
  {
    PageOf(m.virt + m.size - 1) + 1
  }

  /** The first three mappings lie end to end from KERNBASE on; this is where the first `k` end. */
  function KvmEnd(data: word, k: nat): nat
    requires DataOk(data) && k <= 3
  {
    if k == 0 then PageOf(KERNBASE) else EndPage(KmapAt(data, k - 1))
  }

  lemma KvmEnds(data: word, k: nat)
    requires DataOk(data) && k < 3
    ensures FirstPage(KmapAt(data, k)) == KvmEnd(data, k) && PageOf(KERNBASE) <= KvmEnd(data, k) < KvmEnd(data, k + 1) <= KvmEnd(data, 3) == 0x8_E000
  {
  }

  /** The page tables the first `k` mappings need. */
  function KvmTables(data: word, k: nat): nat
    requires DataOk(data) && k <= 4
  {
    if k == 4 then KVM_TABLES else Missing(Filled(0), PageOf(KERNBASE), KvmEnd(data, k))
  }

  /** The directory once they are made; no user page has one. */
  predicate KvmDir(data: word, dir: Page, k: nat)
    requires DataOk(data) && k <= 4
  {
    if k == 4 then forall i :: 0 <= i < USER_DIRS ==> !Present(dir[i])
    else TablesAdded(Filled(0), dir, PageOf(KERNBASE), KvmEnd(data, k))
  }

  lemma LowTables(data: word)
    requires DataOk(data)
    ensures KvmTables(data, 3) == 56
  {
    KvmEnds(data, 0);
    MissingAll(Filled(0), PageOf(KERNBASE), KvmEnd(data, 3));
  }

  lemma KvmBound(data: word, k: nat)
    requires DataOk(data) && k <= 4
    ensures KvmTables(data, k) <= KVM_TABLES
  {
    if k < 4 {
      LowTables(data);
      if k < 3 {
        KvmEnds(data, k);
        MissingGrows(Filled(0), PageOf(KERNBASE), KvmEnd(data, k), KvmEnd(data, 3));
      }
    }
  }

  /** What mapping `k` adds to that. */
  lemma KvmStep(data: word, dir: Page, k: nat)
    requires DataOk(data) && k < 4 && KvmDir(data, dir, k)
    ensures FirstPage(KmapAt(data, k)) < EndPage(KmapAt(data, k)) <= ALL_PAGES
    ensures KvmTables(data, k) + Missing(dir, FirstPage(KmapAt(data, k)), EndPage(KmapAt(data, k))) == KvmTables(data, k + 1)
  {
    if k < 3 {
      KvmEnds(data, k);
      MissingJoin(Filled(0), dir, PageOf(KERNBASE), KvmEnd(data, k), KvmEnd(data, k + 1));
    } else {
      LowTables(data);
      forall i | 1016 <= i < ENTRIES ensures !Present(dir[i]) {
        assert TableAdded(Filled(0), dir, PageOf(KERNBASE), KvmEnd(data, 3), i);
      }
      MissingAll(dir, FirstPage(KmapAt(data, 3)), EndPage(KmapAt(data, 3)));
    }
  }

  lemma KvmDirNext(data: word, dir: Page, dir': Page, k: nat)
    requires DataOk(data) && k < 4 && KvmDir(data, dir, k)
    requires TablesAdded(dir, dir', FirstPage(KmapAt(data, k)), EndPage(KmapAt(data, k)))
    ensures KvmDir(data, dir', k + 1)
  {
    if k < 3 {
      KvmEnds(data, k);
      AddedJoin(Filled(0), dir, dir', PageOf(KERNBASE), KvmEnd(data, k), KvmEnd(data, k + 1));
    } else {
      forall i | 0 <= i < USER_DIRS ensures !Present(dir'[i]) {
        assert TableAdded(Filled(0), dir, PageOf(KERNBASE), KvmEnd(data, 3), i);
        assert TableAdded(dir, dir', FirstPage(KmapAt(data, 3)), EndPage(KmapAt(data, 3)), i);
      }
    }
  }

  // ---- Copying an address space --------------------------------------------------------------

  /** The frames for the first `n` user pages of an empty address space and their page tables. */
  function UserFrames(n: nat): nat { n + (n + ENTRIES - 1) / ENTRIES }

  lemma UserFramesIs(dir: Page, n: nat)
    requires n <= USER_PAGES && forall i :: 0 <= i < USER_DIRS ==> !Present(dir[i])
    ensures FramesFor(dir, 0, n) == UserFrames(n)
  {
    if n > 0 {
      MissingAll(dir, 0, n);
    }
  }

  /** Page `p < n` of `d` has the flags and contents of the same page of `pg` in a frame that was
      free; other user pages of `d` are unmapped. */
  predicate PageCopied(s: Snap, t: Snap, pg: nat, d: nat, n: nat, p: nat)
    requires |s.mem| == |s.own| == |t.mem| == |t.own| && pg < |s.mem| && d < |s.mem| && p < USER_PAGES
  {
    var v, w := PteAt(s.mem, pg, p), PteAt(t.mem, d, p);
    if p < n then
      && Present(w) && Flags(w) == Flags(v) && Frame(v) < |s.mem| && Frame(w) < |s.mem|
      && s.own[Frame(w)] == Free && t.own[Frame(w)] == UserSlot(d, p) && t.mem[Frame(w)] == s.mem[Frame(v)]
    else w == 0
  }

  /** The entry for kernel page `p` is the kernel's. */
  predicate KernelPage(data: word, t: Snap, d: nat, p: nat)
    requires DataOk(data) && d < |t.mem| && p < ALL_PAGES
  {
    p >= USER_PAGES ==> PteAt(t.mem, d, p) == KernelPte(data, 4, p)
  }

  predicate Copied(data: word, s: Snap, t: Snap, pg: nat, d: nat, n: nat) {
    && DataOk(data) && Fresh(s, t, d) && pg < |s.mem|
    && (forall p :: 0 <= p < USER_PAGES ==> PageCopied(s, t, pg, d, n, p))
    && (forall p :: 0 <= p < ALL_PAGES ==> KernelPage(data, t, d, p))
  }

  lemma CopiedNone(data: word, s: Snap, t: Snap, pg: nat, d: nat)
    requires Fresh(s, t, d) && Kvm(data, t, d, 4) && pg < |s.mem|
    ensures Copied(data, s, t, pg, d, 0)
  {
    forall p | 0 <= p < USER_PAGES ensures PageCopied(s, t, pg, d, 0, p) {
      BelowKernel(data, 4, p);
      assert PteAt(t.mem, d, p) == KernelPte(data, 4, p);
    }
  }

  lemma {:induction false} BelowKernel(data: word, k: nat, p: nat)
    requires DataOk(data) && k <= 4 && p < USER_PAGES
    ensures KernelPte(data, k, p) == 0
  {
    if k > 0 {
      KmapsApart(data, k - 1, p);
      BelowKernel(data, k - 1, p);
    }
  }

  /** Holding a frame on the way. */
  lemma FreshHeld(lo: nat, s: Snap, t: Snap, u: Snap, d: nat, f: nat, p: nat)
    requires Fresh(s, t, d) && Sound(lo, t.mem, t.own) && t.own[d] == Dir && Holding(t, u, f) && p < ALL_PAGES
    ensures PteAt(u.mem, d, p) == PteAt(t.mem, d, p) && d != f && s.own[f] == Free
  {
    assert FrameFresh(s, t, d, f);
    PlainPte(lo, t.mem, t.own, f, u.mem[f], d, p / ENTRIES, p % ENTRIES);
  }

  /** kalloc, memmove and mappages of one page. */
  lemma CopiedNext(lo: nat, data: word, s: Snap, t: Snap, u: Snap, v: Snap, pg: nat, d: nat, n: nat, f: nat, flags: nat)
    requires Sound(lo, s.mem, s.own) && Sound(lo, t.mem, t.own) && n < USER_PAGES && flags < PGSIZE && f < |t.mem|
    requires Copied(data, s, t, pg, d, n) && t.own[d] == Dir && Holding(t, u, f) && Mapped(u, v, d, n, 1, f, flags)
    requires flags % 2 == 1 && flags == Flags(PteAt(s.mem, pg, n)) && Frame(PteAt(s.mem, pg, n)) < |s.mem|
    requires u.mem[f] == s.mem[Frame(PteAt(s.mem, pg, n))]
    ensures Copied(data, s, v, pg, d, n + 1)
  {
    EntryParts(f, flags);
    assert FrameMapped(u, v, d, n, 1, f, f);
    forall g | 0 <= g < |s.mem| ensures FrameFresh(s, v, d, g) {
      assert FrameFresh(s, t, d, g) && FrameMapped(u, v, d, n, 1, f, g) && FrameOk(lo, s.mem, s.own, g);
    }
    var m := n + 1;
    forall p | 0 <= p < ALL_PAGES ensures KernelPage(data, v, d, p) {
      FreshHeld(lo, s, t, u, d, f, p);
      assert KernelPage(data, t, d, p) && PteMapped(u, v, d, n, 1, f, flags, p);
    }
    forall p | 0 <= p < USER_PAGES ensures PageCopied(s, v, pg, d, m, p) {
      FreshHeld(lo, s, t, u, d, f, p);
      assert PageCopied(s, t, pg, d, n, p) && PteMapped(u, v, d, n, 1, f, flags, p);
      if p < n {
        assert FrameMapped(u, v, d, n, 1, f, Frame(PteAt(t.mem, d, p)));
      }
    }
  }

  class Kernel {
    const lo: nat
    const data: word
    var mem: Mem
    var freelist: word
    ghost var own: seq<Owner>
    ghost var free: seq<nat>

    /** Before kinit1: all of memory is the kernel's and the free list is empty. */
    constructor (lo: nat, data: word, mem: Mem)
      requires 0 < lo && |mem| == PHYS_PAGES
      ensures Valid() && this.lo == lo && this.data == data && this.mem == mem && free == []
      ensures forall f :: 0 <= f < |own| ==> own[f] == Owner.Kernel
    {
      this.lo := lo;
      this.data := data;
      this.mem := mem;
      freelist := 0;
      own := seq(PHYS_PAGES, _ => Owner.Kernel);
      free := [];
    }

    ghost function Now(): Snap
      reads this
    {
      Snap(mem, own)
    }

    ghost predicate ListOk()
      reads this
    {
      && 0 < lo && |own| == |mem| == PHYS_PAGES && IsList(mem, freelist, free)
      && forall f :: 0 <= f < |own| ==> ListedOk(own, free, f)
    }

    ghost predicate Valid()
      reads this
    {
      ListOk() && Sound(lo, mem, own)
    }

    /** Directory `pd` is in use. */
    ghost predicate Space(pd: nat)
      reads this
    {
      Valid() && pd < |mem| && own[pd] == Dir
    }

    /** Of `n` free frames, those the page tables for pages `from .. to` needed are gone. */
    ghost predicate Spent(pd: nat, n: int, dir: Page, from: nat, to: nat)
      requires to <= ALL_PAGES
      reads this
    {
      pd < |mem| && |free| + Missing(dir, from, to) == n && TablesAdded(dir, mem[pd], from, to)
    }

    /** kalloc: the first frame of the free list, or 0. */
    method Kalloc() returns (v: word)
      requires ListOk()
      modifies this`freelist, this`own, this`free
      ensures ListOk()
      ensures v == 0 <==> old(free) == []
      ensures v == 0 ==> own == old(own) && freelist == old(freelist) && free == old(free) && forall f :: 0 <= f < |own| ==> own[f] != Free
      ensures v != 0 ==>
                var f := FrameAt(v);
                f < |mem| && v == P2V(f) && old(own[f]) == Free && own == old(own)[f := Owner.Kernel] && |free| == |old(free)| - 1
    {
      v := freelist;
      if v != 0 {
        ghost var f := free[0];
        assert ListedOk(own, free, f);
        freelist := mem[FrameAt(v)][0];
        own := own[f := Owner.Kernel];
        free := free[1..];
        forall g | 0 <= g < |own| ensures ListedOk(own, free, g) {
          assert ListedOk(old(own), old(free), g);
        }
      } else {
        forall f | 0 <= f < |own| ensures own[f] != Free {
          assert ListedOk(own, free, f);
        }
      }
    }

    /** kfree: fill the frame with junk and put it at the head of the free list. */
    method Kfree(v: word)
      requires ListOk() && v >= KERNBASE && v % PGSIZE == 0
      requires lo <= FrameAt(v) < |mem| && own[FrameAt(v)] != Free
      modifies this`mem, this`freelist, this`own, this`free
      ensures ListOk()
      ensures var f := FrameAt(v);
              own == old(own)[f := Free] && mem == old(mem)[f := Filled(0x0101_0101)[0 := old(freelist)]]
    {
      var f := FrameAt(v);
      assert ListedOk(own, free, f);
      var page: Page := Filled(0x0101_0101)[0 := freelist];
      ListKeeps(mem, f, page, freelist, free);
      mem := mem[f := page];
      freelist := v;
      own := own[f := Free];
      assert ([f] + free)[1..] == free;
      free := [f] + free;
      forall g | 0 <= g < |own| ensures ListedOk(own, free, g) {
        assert ListedOk(old(own), old(free), g);
      }
    }
  
    /** freerange: every whole page from `vstart` to `vend` becomes free. */
    method FreeRange(vstart: nat, vend: nat)
      requires Valid() && KERNBASE + lo * PGSIZE <= vstart && vend <= KERNBASE + PHYSTOP
      requires forall f :: PageOf(RoundUp(vstart)) - KERNBASE / PGSIZE <= f < PageOf(vend) - KERNBASE / PGSIZE ==> own[f] == Owner.Kernel
      modifies this`mem, this`freelist, this`own, this`free
      ensures Valid()
      ensures forall f :: 0 <= f < |own| ==>
                own[f] == if PageOf(RoundUp(vstart)) <= f + KERNBASE / PGSIZE < PageOf(vend) then Free else old(own)[f]
    {
      var p := RoundUp(vstart);
      while p + PGSIZE <= vend
        invariant Valid() && p % PGSIZE == 0 && PageOf(RoundUp(vstart)) <= PageOf(p)
        invariant PageOf(p) <= PageOf(vend) || PageOf(p) == PageOf(RoundUp(vstart))
        invariant forall f :: 0 <= f < |own| ==>
                    own[f] == if PageOf(RoundUp(vstart)) <= f + KERNBASE / PGSIZE < PageOf(p) then Free else old(own)[f]
        decreases vend - p
      {
        ghost var f := FrameAt(p);
        PlainKeeps(lo, mem, own, f, Filled(0x0101_0101)[0 := freelist]);
        LooseKeeps(lo, mem[f := Filled(0x0101_0101)[0 := freelist]], own, f, Free);
        Kfree(p);
        p := p + PGSIZE;
      }
    }

    /** walkpgdir: where the entry for address `va` lives, creating its page table if `alloc`. */
    method WalkPgdir(pd: nat, va: word, alloc: bool) returns (r: Option<(nat, nat)>)
      requires Space(pd)
      modifies this`mem, this`freelist, this`own, this`free
      ensures Space(pd) && Kept(old(Now()), Now(), pd) && OnlyTables(old(Now()), Now(), pd) && SamePtes(old(mem), old(own), mem)
      ensures !alloc || r == None ==> mem == old(mem) && own == old(own) && freelist == old(freelist) && free == old(free)
      ensures r == None <==> !Present(mem[pd][PageOf(va) / ENTRIES])
      ensures r.Some? ==> r.value == (Frame(mem[pd][PageOf(va) / ENTRIES]), PageOf(va) % ENTRIES) && DirOk(mem, own, pd, PageOf(va) / ENTRIES)
      ensures alloc && r == None ==> forall f :: 0 <= f < |own| ==> own[f] != Free
      ensures alloc ==> (r.Some? <==> Missing(old(mem)[pd], PageOf(va), PageOf(va) + 1) <= |old(free)|)
      ensures alloc && r.Some? ==> Spent(pd, |old(free)|, old(mem)[pd], PageOf(va), PageOf(va) + 1)
    {
      var i := PageOf(va) / ENTRIES;
      assert Missing(mem[pd], PageOf(va), PageOf(va) + 1) == if Present(mem[pd][i]) then 0 else 1;
      assert DirOk(mem, own, pd, i);
      if Present(mem[pd][i]) {
        return Some((Frame(mem[pd][i]), PageOf(va) % ENTRIES));
      }
      if !alloc {
        return None;
      }
      var v := Kalloc();
      if v == 0 {
        return None;
      }
      var f := FrameAt(v);
      assert FrameOk(lo, old(mem), old(own), f);
      NewTableList(mem, own, free, freelist, pd, i, f);
      TableReady(lo, old(mem), old(own), pd, i, f);
      mem := mem[f := Filled(0)];
      mem := mem[pd := mem[pd][i := Entry(f, 7)]];
      own := own[f := Table(pd, i)];
      assert own == old(own)[f := Table(pd, i)];
      EntryParts(f, 7);
      assert DirOk(mem, own, pd, i);
      forall g | 0 <= g < |own| ensures ListedOk(own, free, g) {
        assert ListedOk(old(own)[f := Owner.Kernel], free, g);
      }
      return Some((f, PageOf(va) % ENTRIES));
    }

    /** One round of mappages' loop. */
    method MapPage(pd: nat, a: word, pa: word, perm: nat) returns (ok: bool)
      requires Space(pd) && a % PGSIZE == 0 && pa % PGSIZE == 0 && perm < PGSIZE
      requires !Present(PteAt(mem, pd, PageOf(a)))
      requires PageOf(a) < USER_PAGES ==> Frame(pa) < |mem| && lo <= Frame(pa) && own[Frame(pa)] == Owner.Kernel
      modifies this`mem, this`freelist, this`own, this`free
      ensures Space(pd)
      ensures ok ==> Mapped(old(Now()), Now(), pd, PageOf(a), 1, Frame(pa), perm)
      ensures !ok ==> Now() == old(Now()) && free == old(free) && forall f :: 0 <= f < |own| ==> own[f] != Free
      ensures ok <==> Missing(old(mem)[pd], PageOf(a), PageOf(a) + 1) <= |old(free)|
      ensures ok ==> Spent(pd, |old(free)|, old(mem)[pd], PageOf(a), PageOf(a) + 1)
    {
      ghost var s := Now();
      var r := WalkPgdir(pd, a, true);
      if r == None {
        return false;
      }
      ghost var t := Now();
      ghost var p, f := PageOf(a), Frame(pa);
      var (table, j) := r.value;
      ghost var i := p / ENTRIES;
      var w := Entry(Frame(pa), Perm(perm));
      assert own[table] == Table(pd, i) && ListedOk(own, free, table);
      ListKeeps(mem, table, mem[table][j := w], freelist, free);
      assert Pte(mem, pd, i, j) == PteAt(s.mem, pd, p);
      mem := mem[table := mem[table][j := w]];
      assert mem == WithPte(t.mem, pd, i, j, w);
      if p < USER_PAGES {
        assert OnlyTable(s, t, pd, f);
        own := own[f := User(pd, i, j)];
      }
      PteWritten(lo, s, t, Now(), pd, p, f, perm);
      forall g | 0 <= g < |own| ensures ListedOk(own, free, g) {
        assert ListedOk(t.own, free, g);
      }
      return true;
    }

    /** mappages' loop once `n` pages from `first` on are mapped, begun in `s` with `n0` free frames. */
    ghost predicate Mapping(s: Snap, n0: nat, pd: nat, first: nat, n: nat, pf: nat, perm: nat)
      requires first + n <= ALL_PAGES
      reads this
    {
      && Space(pd) && Mapped(s, Now(), pd, first, n, pf, perm) && (n == 0 ==> Now() == s)
      && Spent(pd, n0, s.mem[pd], first, first + n)
    }

    /** One round of that loop, at page `p` and frame `f`. */
    method MapNext(pd: nat, a: word, b: word, perm: nat, ghost s: Snap, ghost n0: nat, ghost first: nat, ghost n: nat, ghost pf: nat, ghost end: nat,
                   ghost p: nat, ghost f: nat)
        returns (ok: bool)
      requires p == first + n < end <= ALL_PAGES && f == pf + n && Mapping(s, n0, pd, first, n, pf, perm) && !Present(PteAt(s.mem, pd, p))
      requires a == p * PGSIZE && b == f * PGSIZE && perm < PGSIZE
      requires first < USER_PAGES ==> end <= USER_PAGES && lo <= pf && f < |s.own| && s.own[f] == Owner.Kernel
      modifies this`mem, this`freelist, this`own, this`free
      ensures ok ==> Mapping(s, n0, pd, first, n + 1, pf, perm)
      ensures !ok ==> Mapping(s, n0, pd, first, n, pf, perm) && forall f :: 0 <= f < |own| ==> own[f] != Free
      ensures !ok ==> n0 < Missing(s.mem[pd], first, end)
    {
      ghost var t := Now();
      SpendNext(s.mem[pd], t.mem[pd], first, p, end);
      assert PteMapped(s, t, pd, first, n, pf, perm, p);
      if first < USER_PAGES {
        assert FrameMapped(s, t, pd, first, n, pf, f);
      }
      PageAddress(p);
      PageAddress(f);
      ok := MapPage(pd, a, b, perm);
      if ok {
        MappedNext(s, t, Now(), pd, first, n, pf, perm);
        AddedJoin(s.mem[pd], t.mem[pd], mem[pd], first, p, p + 1);
      }
    }

    /** mappages: map the pages that hold `va .. va + size` to consecutive frames from `pa`. A page
        already present is a "remap" panic. On failure the first `n` pages have been mapped. */
    method MapPages(pd: nat, va: word, size: nat, pa: word, perm: nat) returns (ok: bool, ghost n: nat)
      requires Space(pd) && 0 < size && va + size <= 0x1_0000_0000 && pa % PGSIZE == 0 && perm < PGSIZE
      requires Frame(pa) + PageOf(va + size - 1) - PageOf(va) < 0x10_0000
      requires PageOf(va) < USER_PAGES ==> va + size <= KERNBASE
      requires forall p :: PageOf(va) <= p <= PageOf(va + size - 1) ==> !Present(PteAt(mem, pd, p))
      requires PageOf(va) < USER_PAGES ==>
                 && lo <= Frame(pa) && Frame(pa) + PageOf(va + size - 1) - PageOf(va) < |own|
                 && forall f :: Frame(pa) <= f <= Frame(pa) + PageOf(va + size - 1) - PageOf(va) ==> own[f] == Owner.Kernel
      modifies this`mem, this`freelist, this`own, this`free
      ensures Space(pd) && Frame(pa) + n <= 0x10_0000 && Mapped(old(Now()), Now(), pd, PageOf(va), n, Frame(pa), perm)
      ensures ok ==> n == PageOf(va + size - 1) - PageOf(va) + 1
      ensures n == 0 ==> Now() == old(Now())
      ensures !ok ==> n <= PageOf(va + size - 1) - PageOf(va) && forall f :: 0 <= f < |own| ==> own[f] != Free
      ensures ok <==> Missing(old(mem)[pd], PageOf(va), PageOf(va + size - 1) + 1) <= |old(free)|
      ensures ok ==> Spent(pd, |old(free)|, old(mem)[pd], PageOf(va), PageOf(va + size - 1) + 1)
    {
      ghost var first, end := PageOf(va), PageOf(va + size - 1) + 1;
      ok, n := MapRange(pd, PageOf(va) * PGSIZE, PageOf(va + size - 1) * PGSIZE, pa, perm, first, end, Frame(pa));
    }

    /** mappages' loop, for the pages `first .. end`. */
    method MapRange(pd: nat, start: word, last: word, pa: word, perm: nat, ghost first: nat, ghost end: nat, ghost pf: nat) returns (ok: bool, ghost n: nat)
      requires Space(pd) && first < end <= ALL_PAGES && start == first * PGSIZE && last == (end - 1) * PGSIZE && pa == pf * PGSIZE && perm < PGSIZE
      requires pf + (end - first) <= 0x10_0000 && (first < USER_PAGES ==> end <= USER_PAGES)
      requires forall p :: first <= p < end ==> !Present(PteAt(mem, pd, p))
      requires first < USER_PAGES ==>
                 lo <= pf && pf + (end - first) <= |own| && forall f :: pf <= f < pf + (end - first) ==> own[f] == Owner.Kernel
      modifies this`mem, this`freelist, this`own, this`free
      ensures Space(pd) && pf + n <= 0x10_0000 && Mapped(old(Now()), Now(), pd, first, n, pf, perm)
      ensures ok ==> n == end - first
      ensures n == 0 ==> Now() == old(Now())
      ensures !ok ==> n < end - first && forall f :: 0 <= f < |own| ==> own[f] != Free
      ensures ok <==> Missing(old(mem)[pd], first, end) <= |old(free)|
      ensures ok ==> Spent(pd, |old(free)|, old(mem)[pd], first, end)
    {
      ghost var s, n0 := Now(), |free|;
      var a, b := start, pa;
      n := 0;
      ghost var p, f := first, pf;
      MappedNone(s, pd, first, pf, perm);
      while true
        invariant p == first + n < end && f == pf + n && a == p * PGSIZE && b == f * PGSIZE
        invariant Mapping(s, n0, pd, first, n, pf, perm)
        decreases last - a
      {
        ok := MapNext(pd, a, b, perm, s, n0, first, n, pf, end, p, f);
        if !ok {
          return;
        }
        n, p, f := n + 1, p + 1, f + 1;
        if a == last {
          return;
        }
        a := a + PGSIZE;
        b := b + PGSIZE;
      }
    }

    /** deallocuvm's work on one present page: kfree, then clear the entry. */
    method FreePage(pd: nat, p: nat, table: nat, j: nat)
      requires Space(pd) && p < USER_PAGES && Present(mem[pd][p / ENTRIES]) && DirOk(mem, own, pd, p / ENTRIES)
      requires table == Frame(mem[pd][p / ENTRIES]) && j == p % ENTRIES && Present(mem[table][j])
      modifies this`mem, this`freelist, this`own, this`free
      ensures Space(pd) && Freed(old(Now()), Now(), pd, p, p + 1)
    {
      ghost var s := Now();
      var f := Frame(mem[table][j]);
      FreeOne(lo, s, pd, p, Filled(0x0101_0101)[0 := freelist]);
      assert FrameAt(P2V(f)) == f;
      Kfree(P2V(f));
      assert ListedOk(own, free, table);
      ListKeeps(mem, table, mem[table][j := 0], freelist, free);
      mem := mem[table := mem[table][j := 0]];
    }

    /** One round of deallocuvm's loop, from address `a` to the next address to look at. */
    method DeallocStep(pd: nat, a: nat, ghost to: nat) returns (next: nat, ghost done: nat)
      requires Space(pd) && a % PGSIZE == 0 && PageOf(a) < to <= USER_PAGES
      modifies this`mem, this`freelist, this`own, this`free
      ensures Space(pd) && a < next && next % PGSIZE == 0 && done == (if PageOf(next) < to then PageOf(next) else to)
      ensures Freed(old(Now()), Now(), pd, PageOf(a), done)
    {
      ghost var s := Now();
      next := a;
      done := PageOf(a) + 1;
      var r := WalkPgdir(pd, a, false);
      if r == None {
        done := NextTable(PageOf(a), to);
        NoTable(lo, s, pd, PageOf(a), done);
        NextTableAddress(a);
        next := (PageOf(a) / ENTRIES + 1) * (ENTRIES * PGSIZE) - PGSIZE;
      } else {
        Rounded(a, a);
        if Present(mem[r.value.0][r.value.1]) {
          FreePage(pd, PageOf(a), r.value.0, r.value.1);
        } else {
          FreedNothing(lo, s, pd, PageOf(a), done);
        }
      }
      next := next + PGSIZE;
    }

    /** deallocuvm: every present page from `newsz`, rounded up, to `oldsz` is freed and unmapped,
        however many page tables are missing on the way. */
    method DeallocUvm(pd: nat, oldsz: nat, newsz: nat) returns (r: nat)
      requires Space(pd) && oldsz <= KERNBASE
      modifies this`mem, this`freelist, this`own, this`free
      ensures Space(pd) && r == if newsz >= oldsz then oldsz else newsz
      ensures newsz >= oldsz ==> Now() == old(Now())
      ensures newsz < oldsz ==> Freed(old(Now()), Now(), pd, PageOf(RoundUp(newsz)), PageOf(RoundUp(oldsz)))
    {
      if newsz >= oldsz {
        return oldsz;
      }
      ghost var s := Now();
      ghost var from, to := PageOf(RoundUp(newsz)), PageOf(RoundUp(oldsz));
      ghost var done := from;
      FreedNothing(lo, s, pd, from, from);
      var a := RoundUp(newsz);
      while a < oldsz
        invariant Space(pd) && a % PGSIZE == 0 && done == (if PageOf(a) < to then PageOf(a) else to) && from <= done
        invariant Freed(s, Now(), pd, from, done)
        decreases oldsz - a
      {
        ghost var t := Now();
        ghost var next;
        a, next := DeallocStep(pd, a, to);
        FreedNext(s, t, Now(), pd, from, done, next);
        done := next;
      }
      return newsz;
    }

    /** One round of freevm's loop. */
    method FreeTable(pd: nat, i: nat, ghost s: Snap)
      requires ListOk() && Sound(lo, s.mem, s.own) && i < ENTRIES && pd < |s.mem| && s.own[pd] == Dir && Dropped(s, Now(), pd, i)
      modifies this`mem, this`freelist, this`own, this`free
      ensures ListOk() && Dropped(s, Now(), pd, i + 1)
    {
      ghost var t := Now();
      assert DirOk(s.mem, s.own, pd, i);
      if Present(mem[pd][i]) {
        var f := Frame(mem[pd][i]);
        assert FrameDropped(s, t, pd, i, f) && FrameOk(lo, s.mem, s.own, f);
        assert FrameAt(P2V(f)) == f;
        Kfree(P2V(f));
      }
      DroppedNext(lo, s, t, Now(), pd, i, Filled(0x0101_0101)[0 := old(freelist)]);
    }

    /** freevm: every frame of the address space goes back to the free list. */
    method FreeVm(pd: nat)
      requires Space(pd)
      modifies this`mem, this`freelist, this`own, this`free
      ensures Valid() && Released(old(Now()), Now(), pd)
    {
      ghost var s := Now();
      assert RoundUp(KERNBASE) == KERNBASE && RoundUp(0) == 0;
      var _ := DeallocUvm(pd, KERNBASE, 0);
      ghost var t := Now();
      var i := 0;
      while i < ENTRIES
        invariant 0 <= i <= ENTRIES && ListOk() && Dropped(t, Now(), pd, i)
      {
        FreeTable(pd, i, t);
        i := i + 1;
      }
      ghost var u := Now();
      assert FrameDropped(t, u, pd, ENTRIES, pd) && FrameOk(lo, s.mem, s.own, pd) && FrameFreed(s, t, pd, 0, USER_PAGES, pd);
      assert FrameAt(P2V(pd)) == pd;
      Kfree(P2V(pd));
      AllReleased(lo, s, t, u, Now(), pd);
      ReleasedSound(lo, s, Now(), pd);
    }

    /** kalloc and memset: a zeroed frame for the kernel. */
    method ZeroedFrame() returns (v: word)
      requires Valid()
      modifies this`mem, this`freelist, this`own, this`free
      ensures Valid()
      ensures v == 0 <==> old(free) == []
      ensures v == 0 ==> Now() == old(Now()) && forall f :: 0 <= f < |own| ==> own[f] != Free
      ensures v != 0 ==> var f := FrameAt(v);
                         lo <= f && Holding(old(Now()), Now(), f) && mem[f] == Filled(0) && v == P2V(f) && |free| == |old(free)| - 1
    {
      v := Kalloc();
      if v != 0 {
        var f := FrameAt(v);
        assert FrameOk(lo, old(mem), old(own), f) && ListedOk(own, free, f);
        LooseKeeps(lo, mem, old(own), f, Owner.Kernel);
        PlainKeeps(lo, mem, own, f, Filled(0));
        ListKeeps(mem, f, Filled(0), freelist, free);
        mem := mem[f := Filled(0)];
      }
    }

    /** Give back a frame held by the kernel. */
    method Unhold(v: word)
      requires Valid() && v >= KERNBASE && v % PGSIZE == 0 && lo <= FrameAt(v) < |mem| && own[FrameAt(v)] == Owner.Kernel
      modifies this`mem, this`freelist, this`own, this`free
      ensures Valid() && Holding(Now(), old(Now()), FrameAt(v))
    {
      ghost var f := FrameAt(v);
      PlainKeeps(lo, mem, own, f, Filled(0x0101_0101)[0 := freelist]);
      LooseKeeps(lo, mem[f := Filled(0x0101_0101)[0 := freelist]], own, f, Free);
      Kfree(v);
      assert old(own) == own[f := Owner.Kernel] && old(mem) == mem[f := old(mem)[f]];
    }

    /** One round of allocuvm's loop; on failure, `v` is the frame it still holds, or 0. */
    method AllocPage(pd: nat, a: nat) returns (ok: bool, v: word)
      requires Space(pd) && a % PGSIZE == 0 && a < KERNBASE && !Present(PteAt(mem, pd, PageOf(a)))
      modifies this`mem, this`freelist, this`own, this`free
      ensures Space(pd)
      ensures ok ==> Grown(old(Now()), Now(), pd, PageOf(a), PageOf(a) + 1)
      ensures !ok && v == 0 ==> Now() == old(Now())
      ensures !ok && v != 0 ==> lo <= FrameAt(v) && v == P2V(FrameAt(v)) && Holding(old(Now()), Now(), FrameAt(v))
      ensures ok <==> 1 + Missing(old(mem)[pd], PageOf(a), PageOf(a) + 1) <= |old(free)|
      ensures ok ==> Spent(pd, |old(free)| - 1, old(mem)[pd], PageOf(a), PageOf(a) + 1)
    {
      ghost var s := Now();
      v := ZeroedFrame();
      if v == 0 {
        return false, 0;
      }
      ghost var t := Now();
      var f := FrameAt(v);
      EntryParts(f, 0);
      PlainKeeps(lo, s.mem, s.own, f, t.mem[f]);
      assert Pte(t.mem, pd, PageOf(a) / ENTRIES, PageOf(a) % ENTRIES) == PteAt(s.mem, pd, PageOf(a));
      ghost var n;
      ok, n := MapPages(pd, a, PGSIZE, f * PGSIZE, 6);
      if ok {
        GrownOne(lo, s, t, Now(), pd, PageOf(a), f);
      }
    }

    /** allocuvm: grow from `oldsz` to `newsz`. It succeeds exactly if the free frames suffice for the
        new pages and the page tables missing for them; otherwise the address space maps exactly
        what it mapped before. */
    method AllocUvm(pd: nat, oldsz: nat, newsz: nat) returns (r: nat, ghost ok: bool)
      requires Space(pd)
      requires oldsz <= newsz < KERNBASE ==>
                 forall p :: PageOf(RoundUp(oldsz)) <= p < PageOf(RoundUp(newsz)) ==> !Present(PteAt(mem, pd, p))
      modifies this`mem, this`freelist, this`own, this`free
      ensures Space(pd)
      ensures r == if newsz >= KERNBASE then 0 else if newsz < oldsz then oldsz else if ok then newsz else 0
      ensures newsz >= KERNBASE || newsz < oldsz ==> Now() == old(Now())
      ensures oldsz <= newsz < KERNBASE && ok ==> Grown(old(Now()), Now(), pd, PageOf(RoundUp(oldsz)), PageOf(RoundUp(newsz)))
      ensures oldsz <= newsz < KERNBASE && !ok ==> Restored(old(Now()), Now(), pd)
      ensures oldsz <= newsz < KERNBASE ==> (ok <==> FramesFor(old(mem)[pd], PageOf(RoundUp(oldsz)), PageOf(RoundUp(newsz))) <= |old(free)|)
    {
      ok := false;
      if newsz >= KERNBASE {
        return 0, false;
      }
      if newsz < oldsz {
        return oldsz, false;
      }
      var got := AllocPages(pd, oldsz, newsz, PageOf(RoundUp(oldsz)), PageOf(RoundUp(newsz)));
      return if got then newsz else 0, got;
    }

    /** allocuvm's loop, for the pages `from .. to`, and its way out. */
    method AllocPages(pd: nat, oldsz: nat, newsz: nat, ghost from: nat, ghost to: nat) returns (ok: bool)
      requires Space(pd) && oldsz <= newsz < KERNBASE && from == PageOf(RoundUp(oldsz)) && to == PageOf(RoundUp(newsz)) && to <= USER_PAGES
      requires forall p :: from <= p < to ==> !Present(PteAt(mem, pd, p))
      modifies this`mem, this`freelist, this`own, this`free
      ensures Space(pd)
      ensures ok ==> Grown(old(Now()), Now(), pd, from, to)
      ensures !ok ==> Restored(old(Now()), Now(), pd)
      ensures ok <==> FramesFor(old(mem)[pd], from, to) <= |old(free)|
    {
      ghost var s := Now();
      GrownNone(s, pd, from);
      ghost var n0 := |free|;
      var a := RoundUp(oldsz);
      ghost var mid := from;
      Rounded(RoundUp(newsz), oldsz);
      while a < newsz
        invariant a % PGSIZE == 0 && mid == PageOf(a) && from <= mid <= to && Growing(s, n0, pd, from, mid)
        decreases newsz - a
      {
        Rounded(a, newsz);
        ok := AllocRound(pd, a, oldsz, newsz, s, n0, from, mid, to);
        if !ok {
          return;
        }
        a, mid := a + PGSIZE, mid + 1;
      }
      Rounded(a, newsz);
      return true;
    }

    /** One round of that loop; a failure undoes all rounds before it. */
    method AllocRound(pd: nat, a: nat, oldsz: nat, newsz: nat, ghost s: Snap, ghost n0: nat, ghost from: nat, ghost mid: nat, ghost to: nat) returns (ok: bool)
      requires oldsz < newsz < KERNBASE && from == PageOf(RoundUp(oldsz)) && to == PageOf(RoundUp(newsz)) && to <= USER_PAGES
      requires a % PGSIZE == 0 && a < KERNBASE && mid == PageOf(a) && from <= mid < to && Growing(s, n0, pd, from, mid)
      requires Sound(lo, s.mem, s.own) && s.own[pd] == Dir && forall p :: from <= p < to ==> !Present(PteAt(s.mem, pd, p))
      modifies this`mem, this`freelist, this`own, this`free
      ensures Space(pd)
      ensures ok ==> Growing(s, n0, pd, from, mid + 1)
      ensures !ok ==> Restored(s, Now(), pd) && n0 < FramesFor(s.mem[pd], from, to)
    {
      ghost var t := Now();
      var v;
      ok, v := AllocNext(pd, a, s, n0, from, to);
      if !ok {
        UndoAlloc(pd, v, oldsz, newsz, t);
        GrownFreed(lo, s, t, Now(), pd, from, mid, to);
      }
    }

    /** allocuvm's loop with pages `from .. mid` added, begun in `s` with `n0` free frames. */
    ghost predicate Growing(s: Snap, n0: nat, pd: nat, from: nat, mid: nat)
      requires mid <= ALL_PAGES
      reads this
    {
      Space(pd) && Grown(s, Now(), pd, from, mid) && Spent(pd, n0 - (mid - from), s.mem[pd], from, mid)
    }

    /** One round of that loop. */
    method AllocNext(pd: nat, a: nat, ghost s: Snap, ghost n0: nat, ghost from: nat, ghost to: nat) returns (ok: bool, v: word)
      requires a % PGSIZE == 0 && a < KERNBASE && from <= PageOf(a) < to <= ALL_PAGES
      requires Growing(s, n0, pd, from, PageOf(a)) && !Present(PteAt(s.mem, pd, PageOf(a)))
      modifies this`mem, this`freelist, this`own, this`free
      ensures Space(pd)
      ensures ok ==> Growing(s, n0, pd, from, PageOf(a) + 1)
      ensures !ok ==> n0 < FramesFor(s.mem[pd], from, to)
      ensures !ok && v == 0 ==> Now() == old(Now())
      ensures !ok && v != 0 ==> lo <= FrameAt(v) && v == P2V(FrameAt(v)) && Holding(old(Now()), Now(), FrameAt(v))
    {
      ghost var t, mid := Now(), PageOf(a);
      SpendNext(s.mem[pd], t.mem[pd], from, mid, to);
      assert PteGrown(s, t, pd, from, mid, mid);
      ok, v := AllocPage(pd, a);
      if ok {
        GrownNext(s, t, Now(), pd, from, mid);
        AddedJoin(s.mem[pd], t.mem[pd], mem[pd], from, mid, mid + 1);
      }
    }

    /** allocuvm's way out: free the pages added so far, then the page it could not map. */
    method UndoAlloc(pd: nat, v: word, oldsz: nat, newsz: nat, ghost t: Snap)
      requires Space(pd) && oldsz < newsz < KERNBASE && Sound(lo, t.mem, t.own) && pd < |t.mem| && t.own[pd] == Dir
      requires if v == 0 then Now() == t else lo <= FrameAt(v) && v == P2V(FrameAt(v)) && Holding(t, Now(), FrameAt(v))
      modifies this`mem, this`freelist, this`own, this`free
      ensures Space(pd) && Freed(t, Now(), pd, PageOf(RoundUp(oldsz)), PageOf(RoundUp(newsz)))
    {
      ghost var t' := Now();
      ghost var from, to := PageOf(RoundUp(oldsz)), PageOf(RoundUp(newsz));
      var _ := DeallocUvm(pd, newsz, oldsz);
      if v != 0 {
        ghost var u := Now();
        assert FrameFreed(t', u, pd, from, to, FrameAt(v));
        Unhold(v);
        HeldFreed(lo, t, t', u, Now(), pd, FrameAt(v), from, to);
      }
    }

    /** setupkvm: a directory holding exactly the kernel's mappings, or, if there are fewer than
        KVM_FRAMES free frames, nothing at all. */
    method SetupKvm() returns (r: Option<nat>)
      requires Valid() && DataOk(data)
      modifies this`mem, this`freelist, this`own, this`free
      ensures Valid()
      ensures r.Some? <==> KVM_FRAMES <= |old(free)|
      ensures r.Some? ==> Space(r.value) && Fresh(old(Now()), Now(), r.value) && Kvm(data, Now(), r.value, 4)
      ensures r.Some? ==> forall p :: 0 <= p < ALL_PAGES ==> KernelEntry(data, p * PGSIZE, PteAt(mem, r.value, p))
      ensures r.Some? ==> |free| == |old(free)| - KVM_FRAMES && KvmDir(data, mem[r.value], 4)
      ensures r == None ==> Unchanged(old(Now()), Now())
    {
      ghost var s := Now();
      r := NewDir();
      if r == None {
        return;
      }
      var ok := MapKmaps(r.value, s);
      if !ok {
        ghost var t := Now();
        FreeVm(r.value);
        FreshReleased(lo, s, t, Now(), r.value);
        return None;
      }
      KernelSpace(data, Now(), r.value);
    }

    /** A zeroed frame as a directory without page tables. */
    method NewDir() returns (r: Option<nat>)
      requires Valid() && DataOk(data)
      modifies this`mem, this`freelist, this`own, this`free
      ensures Valid()
      ensures r == None <==> old(free) == []
      ensures r.Some? ==> Space(r.value) && Fresh(old(Now()), Now(), r.value) && Kvm(data, Now(), r.value, 0)
      ensures r.Some? ==> |free| == |old(free)| - 1 && KvmDir(data, mem[r.value], 0)
      ensures r == None ==> Unchanged(old(Now()), Now())
    {
      var v := ZeroedFrame();
      if v == 0 {
        return None;
      }
      var d := FrameAt(v);
      NewDirKeeps(lo, mem, own, d);
      ghost var held := own;
      own := own[d := Dir];
      forall g | 0 <= g < |own| ensures ListedOk(own, free, g) {
        assert ListedOk(held, free, g);
      }
      return Some(d);
    }

    /** setupkvm's loop. */
    method MapKmaps(d: nat, ghost s: Snap) returns (ok: bool)
      requires Sound(lo, s.mem, s.own) && Space(d) && Fresh(s, Now(), d) && Kvm(data, Now(), d, 0) && KvmDir(data, mem[d], 0)
      modifies this`mem, this`freelist, this`own, this`free
      ensures Space(d) && Fresh(s, Now(), d)
      ensures ok <==> KVM_TABLES <= |old(free)|
      ensures ok ==> Kvm(data, Now(), d, 4) && |free| == |old(free)| - KVM_TABLES && KvmDir(data, mem[d], 4)
    {
      var k := 0;
      while k < 4
        invariant 0 <= k <= 4 && Space(d) && Fresh(s, Now(), d) && Kvm(data, Now(), d, k)
        invariant KvmDir(data, mem[d], k) && |free| + KvmTables(data, k) == |old(free)|
      {
        KvmBound(data, k + 1);
        ok := MapKmap(d, k, s);
        if !ok {
          return;
        }
        k := k + 1;
      }
      ok := true;
    }

    /** One round of setupkvm's loop. */
    method MapKmap(d: nat, k: nat, ghost s: Snap) returns (ok: bool)
      requires Sound(lo, s.mem, s.own) && Space(d) && k < 4 && Fresh(s, Now(), d) && Kvm(data, Now(), d, k) && KvmDir(data, mem[d], k)
      modifies this`mem, this`freelist, this`own, this`free
      ensures Space(d) && Fresh(s, Now(), d)
      ensures ok ==> Kvm(data, Now(), d, k + 1)
      ensures ok <==> KvmTables(data, k + 1) - KvmTables(data, k) <= |old(free)|
      ensures ok ==> KvmDir(data, mem[d], k + 1) && |free| + KvmTables(data, k + 1) == |old(free)| + KvmTables(data, k)
    {
      ghost var t := Now();
      KvmStep(data, mem[d], k);
      var m := KmapAt(data, k);
      KmapFacts(data, k);
      forall p | PageOf(m.virt) <= p <= PageOf(m.virt + m.size - 1) ensures !Present(PteAt(mem, d, p)) {
        KmapsApart(data, k, p);
      }
      ghost var n;
      ok, n := MapKernel(d, m, FirstPage(m), EndPage(m));
      KvmNext(lo, data, s, t, Now(), d, k, n);
      if ok {
        KvmDirNext(data, t.mem[d], mem[d], k);
      }
    }

    /** mappages for one of the kernel's mappings. */
    method MapKernel(d: nat, m: Kmap, ghost first: nat, ghost end: nat) returns (ok: bool, ghost n: nat)
      requires Space(d) && 0 < m.size && m.virt + m.size <= 0x1_0000_0000 && m.start % PGSIZE == 0 && m.perm < PGSIZE
      requires first == FirstPage(m) && end == EndPage(m) && USER_PAGES <= first && Frame(m.start) + (end - first) <= 0x10_0000
      requires forall p :: first <= p < end ==> !Present(PteAt(mem, d, p))
      modifies this`mem, this`freelist, this`own, this`free
      ensures Space(d) && Frame(m.start) + n <= 0x10_0000 && Mapped(old(Now()), Now(), d, first, n, Frame(m.start), m.perm)
      ensures ok ==> n == end - first && Spent(d, |old(free)|, old(mem)[d], first, end)
      ensures ok <==> end <= ALL_PAGES && Missing(old(mem)[d], first, end) <= |old(free)|
    {
      ok, n := MapPages(d, m.virt, m.size, m.start, m.perm);
    }

    /** The entry of a page whose page table exists. */
    method PteOf(pd: nat, a: nat) returns (pte: word)
      requires Space(pd) && a < KERNBASE && Present(mem[pd][PageOf(a) / ENTRIES])
      modifies this`mem, this`freelist, this`own, this`free
      ensures Space(pd) && Now() == old(Now()) && freelist == old(freelist) && free == old(free)
      ensures pte == PteAt(mem, pd, PageOf(a))
    {
      var r := WalkPgdir(pd, a, false);
      pte := mem[r.value.0][r.value.1];
    }

    /** One round of copyuvm's loop. On failure the page it had taken is free again. */
    method CopyPage(pg: nat, d: nat, i: nat, ghost s: Snap) returns (ok: bool)
      requires Space(pg) && Space(d) && Sound(lo, s.mem, s.own) && pg < |s.mem| && s.own[pg] == Dir && i % PGSIZE == 0 && i < KERNBASE
      requires Copied(data, s, Now(), pg, d, PageOf(i)) && Present(PteAt(s.mem, pg, PageOf(i)))
      modifies this`mem, this`freelist, this`own, this`free
      ensures Space(d) && Fresh(s, Now(), d)
      ensures ok ==> Copied(data, s, Now(), pg, d, PageOf(i) + 1)
      ensures ok <==> 1 + Missing(old(mem)[d], PageOf(i), PageOf(i) + 1) <= |old(free)|
      ensures ok ==> Spent(d, |old(free)| - 1, old(mem)[d], PageOf(i), PageOf(i) + 1)
    {
      ghost var t := Now();
      ParentPage(lo, s, t, pg, d, PageOf(i));
      var pte := PteOf(pg, i);
      PresentFlags(pte);
      var v := FrameWith(Frame(pte));
      if v == 0 {
        return false;
      }
      ok := MapCopy(pg, d, i, v, Flags(pte), s, t);
    }

    /** Map the copied page, or give its frame back. */
    method MapCopy(pg: nat, d: nat, i: nat, v: word, flags: nat, ghost s: Snap, ghost t: Snap) returns (ok: bool)
      requires Space(d) && Sound(lo, s.mem, s.own) && Sound(lo, t.mem, t.own) && pg < |s.mem| && i % PGSIZE == 0 && i < KERNBASE
      requires Copied(data, s, t, pg, d, PageOf(i)) && t.own[d] == Dir
      requires lo <= FrameAt(v) && v == P2V(FrameAt(v)) && Holding(t, Now(), FrameAt(v)) && flags % 2 == 1 && flags == Flags(PteAt(s.mem, pg, PageOf(i)))
      requires Frame(PteAt(s.mem, pg, PageOf(i))) < |s.mem| && mem[FrameAt(v)] == s.mem[Frame(PteAt(s.mem, pg, PageOf(i)))]
      modifies this`mem, this`freelist, this`own, this`free
      ensures Space(d) && Fresh(s, Now(), d)
      ensures ok ==> Copied(data, s, Now(), pg, d, PageOf(i) + 1)
      ensures ok <==> Missing(t.mem[d], PageOf(i), PageOf(i) + 1) <= |old(free)|
      ensures ok ==> Spent(d, |old(free)|, t.mem[d], PageOf(i), PageOf(i) + 1)
    {
      ghost var u := Now();
      assert u.mem[d] == t.mem[d];
      var f := FrameAt(v);
      EntryParts(f, 0);
      FreshHeld(lo, s, t, u, d, f, PageOf(i));
      assert PageCopied(s, t, pg, d, PageOf(i), PageOf(i));
      ghost var n;
      ok, n := MapPages(d, i, PGSIZE, f * PGSIZE, flags);
      if ok {
        CopiedNext(lo, data, s, t, u, Now(), pg, d, PageOf(i), f, flags);
      } else {
        Unhold(v);
        StillFresh(s, t, u, Now(), d, f);
      }
    }

    /** kalloc and memmove: a frame with the contents of frame `from`. */
    method FrameWith(from: nat) returns (v: word)
      requires Valid() && from < |mem| && own[from] != Free
      modifies this`mem, this`freelist, this`own, this`free
      ensures Valid()
      ensures v == 0 <==> old(free) == []
      ensures v == 0 ==> Now() == old(Now())
      ensures v != 0 ==> var f := FrameAt(v);
                         lo <= f && Holding(old(Now()), Now(), f) && mem[f] == old(mem)[from] && v == P2V(f) && |free| == |old(free)| - 1
    {
      v := Kalloc();
      if v != 0 {
        var f := FrameAt(v);
        assert FrameOk(lo, old(mem), old(own), f) && ListedOk(own, free, f);
        LooseKeeps(lo, mem, old(own), f, Owner.Kernel);
        PlainKeeps(lo, mem, own, f, mem[from]);
        ListKeeps(mem, f, mem[from], freelist, free);
        mem := mem[f := mem[from]];
      }
    }

    /** copyuvm's loop with `n` pages copied, begun with `n0` free frames and the directory `dir`. */
    ghost predicate Copying(s: Snap, n0: nat, dir: Page, pg: nat, d: nat, n: nat)
      requires n <= ALL_PAGES
      reads this
    {
      Space(d) && Copied(data, s, Now(), pg, d, n) && Spent(d, n0 - n, dir, 0, n)
    }

    /** One round of that loop. */
    method CopyNext(pg: nat, d: nat, i: nat, ghost s: Snap, ghost n0: nat, ghost dir: Page, ghost end: nat) returns (ok: bool)
      requires Sound(lo, s.mem, s.own) && pg < |s.mem| && s.own[pg] == Dir && i % PGSIZE == 0 && i < KERNBASE
      requires PageOf(i) < end <= ALL_PAGES && Copying(s, n0, dir, pg, d, PageOf(i)) && Present(PteAt(s.mem, pg, PageOf(i)))
      modifies this`mem, this`freelist, this`own, this`free
      ensures Space(d) && Fresh(s, Now(), d)
      ensures ok ==> Copying(s, n0, dir, pg, d, PageOf(i) + 1)
      ensures !ok ==> n0 < FramesFor(dir, 0, end)
    {
      ghost var t := Now();
      assert FrameFresh(s, t, d, pg);
      SpendNext(dir, t.mem[d], 0, PageOf(i), end);
      ok := CopyPage(pg, d, i, s);
      if ok {
        AddedJoin(dir, t.mem[d], mem[d], 0, PageOf(i), PageOf(i) + 1);
      }
    }

    /** copyuvm's loop. */
    method CopyPages(pg: nat, d: nat, sz: nat, ghost s: Snap) returns (ok: bool)
      requires Sound(lo, s.mem, s.own) && pg < |s.mem| && s.own[pg] == Dir && sz <= KERNBASE
      requires Space(d) && Copied(data, s, Now(), pg, d, 0)
      requires forall p :: 0 <= p < PageOf(RoundUp(sz)) ==> Present(PteAt(s.mem, pg, p))
      modifies this`mem, this`freelist, this`own, this`free
      ensures Space(d) && Fresh(s, Now(), d)
      ensures ok <==> FramesFor(old(mem)[d], 0, PageOf(RoundUp(sz))) <= |old(free)|
      ensures ok ==> Copied(data, s, Now(), pg, d, PageOf(RoundUp(sz)))
    {
      ghost var n0, dir, end := |free|, mem[d], PageOf(RoundUp(sz));
      var i := 0;
      while i < sz
        invariant i % PGSIZE == 0 && PageOf(i) <= end && Copying(s, n0, dir, pg, d, PageOf(i))
        decreases sz - i
      {
        Rounded(i, sz);
        ok := CopyNext(pg, d, i, s, n0, dir, end);
        if !ok {
          return;
        }
        i := i + PGSIZE;
      }
      Rounded(i, sz);
      ok := true;
    }

    /** copyuvm: a child with the parent's pages below `sz` in frames of its own, or, exactly if there
        are not enough free frames, nothing, with every frame where it was. A missing page below
        `sz` is a panic. */
    method CopyUvm(pg: nat, sz: nat) returns (r: Option<nat>)
      requires Space(pg) && DataOk(data) && sz <= KERNBASE
      requires forall p :: 0 <= p < PageOf(RoundUp(sz)) ==> Present(PteAt(mem, pg, p))
      modifies this`mem, this`freelist, this`own, this`free
      ensures Valid()
      ensures r.Some? <==> KVM_FRAMES + UserFrames(PageOf(RoundUp(sz))) <= |old(free)|
      ensures r.Some? ==> Space(r.value) && Copied(data, old(Now()), Now(), pg, r.value, PageOf(RoundUp(sz)))
      ensures r.Some? ==> forall p :: USER_PAGES <= p < ALL_PAGES ==> KernelEntry(data, p * PGSIZE, PteAt(mem, r.value, p))
      ensures r == None ==> Unchanged(old(Now()), Now())
    {
      ghost var s := Now();
      r := SetupKvm();
      if r == None {
        return;
      }
      var d := r.value;
      CopiedNone(data, s, Now(), pg, d);
      UserFramesIs(mem[d], PageOf(RoundUp(sz)));
      var ok := CopyPages(pg, d, sz, s);
      if !ok {
        ghost var t := Now();
        FreeVm(d);
        FreshReleased(lo, s, t, Now(), d);
        return None;
      }
      CopiedKernel(data, s, Now(), pg, d, PageOf(RoundUp(sz)));
    }
  }

  lemma CopiedKernel(data: word, s: Snap, t: Snap, pg: nat, d: nat, n: nat)
    requires Copied(data, s, t, pg, d, n)
    ensures forall p :: USER_PAGES <= p < ALL_PAGES ==> KernelEntry(data, p * PGSIZE, PteAt(t.mem, d, p))
  {
    forall p | USER_PAGES <= p < ALL_PAGES ensures KernelEntry(data, p * PGSIZE, PteAt(t.mem, d, p)) {
      assert KernelPage(data, t, d, p);
      KernelMap(data, p);
    }
  }

  /** The parent's page is where it was. */
  lemma ParentPage(lo: nat, s: Snap, t: Snap, pg: nat, d: nat, p: nat)
    requires Sound(lo, s.mem, s.own) && Fresh(s, t, d) && pg < |s.mem| && s.own[pg] == Dir && p < USER_PAGES && Present(PteAt(s.mem, pg, p))
    ensures t.own[pg] == Dir && PteAt(t.mem, pg, p) == PteAt(s.mem, pg, p) && Present(t.mem[pg][p / ENTRIES])
    ensures Frame(PteAt(s.mem, pg, p)) < |s.mem| && t.own[Frame(PteAt(s.mem, pg, p))] != Free
    ensures t.mem[Frame(PteAt(s.mem, pg, p))] == s.mem[Frame(PteAt(s.mem, pg, p))]
  {
    FreshOthers(lo, s, t, d, pg, p);
    assert SlotOk(s.mem, s.own, pg, p / ENTRIES, p % ENTRIES);
    assert FrameFresh(s, t, d, pg) && FrameFresh(s, t, d, Frame(PteAt(s.mem, pg, p)));
  }

  lemma PresentFlags(w: word)
    requires Present(w)
    ensures Flags(w) % 2 == 1
  {
  }

  lemma StillFresh(s: Snap, t: Snap, u: Snap, v: Snap, d: nat, f: nat)
    requires Fresh(s, t, d) && Holding(t, u, f) && Holding(v, u, f)
    ensures Fresh(s, v, d)
  {
    forall g | 0 <= g < |s.mem| ensures FrameFresh(s, v, d, g) {
      assert FrameFresh(s, t, d, g);
      assert g != f ==> u.own[g] == t.own[g] && u.own[g] == v.own[g] && u.mem[g] == t.mem[g] && u.mem[g] == v.mem[g];
      assert FrameFresh(s, t, d, f);
    }
  }

  lemma GrownNone(s: Snap, pd: nat, from: nat)
    requires |s.mem| == |s.own| && pd < |s.mem|
    ensures Grown(s, s, pd, from, from)
  {
  }

  lemma MappedNone(s: Snap, pd: nat, first: nat, pf: nat, perm: nat)
    requires |s.mem| == |s.own| && pd < |s.mem| && pf <= 0x10_0000 && perm < PGSIZE
    ensures Mapped(s, s, pd, first, 0, pf, perm)
  {
  }

  lemma SpendNext(dir: Page, dir': Page, from: nat, mid: nat, to: nat)
    requires TablesAdded(dir, dir', from, mid) && from <= mid < to <= ALL_PAGES
    ensures Missing(dir, from, mid + 1) == Missing(dir, from, mid) + Missing(dir', mid, mid + 1)
    ensures Missing(dir, from, mid + 1) <= Missing(dir, from, to)
  {
    MissingJoin(dir, dir', from, mid, mid + 1);
    MissingGrows(dir, from, mid + 1, to);
  }

  /** What MapPage's write of one entry does. */
  lemma PteWritten(lo: nat, s: Snap, t: Snap, u: Snap, pd: nat, p: nat, f: nat, perm: nat)
    requires Sound(lo, s.mem, s.own) && pd < |s.mem| && s.own[pd] == Dir && p < ALL_PAGES && perm < PGSIZE && f < 0x10_0000
    requires !Present(PteAt(s.mem, pd, p))
    requires p < USER_PAGES ==> f < |s.mem| && lo <= f && s.own[f] == Owner.Kernel
    requires Kept(s, t, pd) && OnlyTables(s, t, pd) && SamePtes(s.mem, s.own, t.mem)
    requires HasTable(lo, t.mem, t.own, pd, p / ENTRIES)
    requires u.mem == WithPte(t.mem, pd, p / ENTRIES, p % ENTRIES, Entry(f, Perm(perm)))
    requires u.own == if p < USER_PAGES then t.own[f := UserSlot(pd, p)] else t.own
    ensures Sound(lo, u.mem, u.own) && Mapped(s, u, pd, p, 1, f, perm)
  {
    var i, j := p / ENTRIES, p % ENTRIES;
    var w := Entry(f, Perm(perm));
    assert Pte(t.mem, pd, i, j) == PteAt(s.mem, pd, p);
    if p < USER_PAGES {
      assert OnlyTable(s, t, pd, f);
      MapKeeps(lo, t.mem, t.own, pd, i, j, f, Perm(perm));
    } else {
      KernelPteKeeps(lo, t.mem, t.own, pd, i, j, w);
    }
    forall q | 0 <= q < ALL_PAGES ensures PteMapped(s, u, pd, p, 1, f, perm, q) {
      WithPteIs(lo, t.mem, t.own, pd, i, j, w, pd, q / ENTRIES, q % ENTRIES);
      assert Pte(t.mem, pd, q / ENTRIES, q % ENTRIES) == PteAt(s.mem, pd, q);
    }
    forall g | 0 <= g < |s.mem| ensures FrameMapped(s, u, pd, p, 1, f, g) {
      assert FrameKept(s, t, pd, g) && OnlyTable(s, t, pd, g);
    }
  }

  lemma NewTableList(mem: Mem, own: seq<Owner>, free: seq<nat>, head: word, pd: nat, i: nat, f: nat)
    requires |own| == |mem| && IsList(mem, head, free) && pd < |mem| && f < |mem| && i < ENTRIES
    requires forall g :: 0 <= g < |own| ==> ListedOk(own, free, g)
    requires own[pd] == Dir && own[f] == Owner.Kernel && f < 0x10_0000
    ensures IsList(WithTable(mem[f := Filled(0)], pd, i, f), head, free)
  {
    assert ListedOk(own, free, f) && ListedOk(own, free, pd);
    ListKeeps(mem, f, Filled(0), head, free);
    var m := mem[f := Filled(0)];
    ListKeeps(m, pd, m[pd][i := Entry(f, 7)], head, free);
  }

  /** Zeroing a free frame and hanging it into a directory. */
  lemma TableReady(lo: nat, mem: Mem, own: seq<Owner>, pd: nat, i: nat, f: nat)
    requires Sound(lo, mem, own) && pd < |mem| && own[pd] == Dir && i < ENTRIES && !Present(mem[pd][i])
    requires f < |mem| && own[f] == Free
    ensures Sound(lo, WithTable(mem[f := Filled(0)], pd, i, f), own[f := Table(pd, i)])
    ensures SamePtes(mem, own, WithTable(mem[f := Filled(0)], pd, i, f))
  {
    assert FrameOk(lo, mem, own, f);
    PlainKeeps(lo, mem, own, f, Filled(0));
    var m, o := mem[f := Filled(0)], own[f := Owner.Kernel];
    LooseKeeps(lo, m, own, f, Owner.Kernel);
    NewTableKeeps(lo, m, o, pd, i, f);
    assert o[f := Table(pd, i)] == own[f := Table(pd, i)];
    var t := WithTable(m, pd, i, f);
    forall q, x, y | 0 <= q < |mem| && 0 <= x < ENTRIES && 0 <= y < ENTRIES && own[q] == Dir
      ensures Pte(t, q, x, y) == Pte(mem, q, x, y)
    {
      assert Pte(t, q, x, y) == Pte(m, q, x, y) == Pte(mem, q, x, y);
    }
  }

  // ---- What the hardware makes of the tables ---------------------------------------------------

  /** Address `va` through the directory at frame `pd`: bits 22 to 31 choose the directory entry, bits 12
      to 21 the entry of the page table it points to. */
  function Walked(mem: Mem, pd: nat, va: word): word
    requires pd < |mem|
  {
    var pde := mem[pd][va / 0x40_0000];
    if pde % 2 == 1 && pde / 0x1000 < |mem| then mem[pde / 0x1000][va / 0x1000 % 0x400] else 0
  }

  lemma WalkedIs(mem: Mem, pd: nat, va: word)
    requires pd < |mem|
    ensures Walked(mem, pd, va) == PteAt(mem, pd, PageOf(va))
  {
    assert va / 0x40_0000 == va / 0x1000 / 0x400;
  }

  /** A user program may read and write at `va`: both entries say so. */
  predicate UserMayWrite(mem: Mem, pd: nat, va: word)
    requires pd < |mem|
  {
    && Present(mem[pd][va / 0x40_0000]) && Writable(mem[pd][va / 0x40_0000]) && ForUser(mem[pd][va / 0x40_0000])
    && Present(Walked(mem, pd, va)) && Writable(Walked(mem, pd, va)) && ForUser(Walked(mem, pd, va))
  }

  /** Every directory entry lets the user through, so the page table's entry decides. */
  lemma UserMayWriteIs(lo: nat, mem: Mem, own: seq<Owner>, pd: nat, va: word)
    requires Sound(lo, mem, own) && pd < |mem| && own[pd] == Dir
    ensures UserMayWrite(mem, pd, va) <==>
              Present(Walked(mem, pd, va)) && Writable(Walked(mem, pd, va)) && ForUser(Walked(mem, pd, va))
  {
    assert DirOk(mem, own, pd, va / 0x40_0000);
    FlagBits(mem[pd][va / 0x40_0000]);
  }

  /** What allocuvm added, the user may use, and finds zeroed. */
  lemma GrownUsable(lo: nat, s: Snap, t: Snap, pd: nat, from: nat, to: nat, va: word)
    requires Sound(lo, t.mem, t.own) && Grown(s, t, pd, from, to) && t.own[pd] == Dir && from <= PageOf(va) < to
    ensures UserMayWrite(t.mem, pd, va) && Frame(Walked(t.mem, pd, va)) < |t.mem| && t.mem[Frame(Walked(t.mem, pd, va))] == Filled(0)
  {
    assert PteGrown(s, t, pd, from, to, PageOf(va));
    WalkedIs(t.mem, pd, va);
    UserMayWriteIs(lo, t.mem, t.own, pd, va);
    FlagBits(Walked(t.mem, pd, va));
  }

  /** In a copy the user may write where the parent may, and finds the same page there. */
  lemma CopyUsable(lo: nat, data: word, s: Snap, t: Snap, pg: nat, d: nat, n: nat, va: word)
    requires Sound(lo, s.mem, s.own) && Sound(lo, t.mem, t.own) && Copied(data, s, t, pg, d, n) && n <= USER_PAGES
    requires s.own[pg] == Dir && t.own[d] == Dir && PageOf(va) < n && Present(PteAt(s.mem, pg, PageOf(va)))
    ensures UserMayWrite(t.mem, d, va) <==> UserMayWrite(s.mem, pg, va)
    ensures var v, w := Walked(s.mem, pg, va), Walked(t.mem, d, va);
            Frame(v) < |s.mem| && Frame(w) < |t.mem| && t.mem[Frame(w)] == s.mem[Frame(v)]
  {
    assert PageCopied(s, t, pg, d, n, PageOf(va));
    WalkedIs(s.mem, pg, va);
    WalkedIs(t.mem, d, va);
    UserMayWriteIs(lo, s.mem, s.own, pg, va);
    UserMayWriteIs(lo, t.mem, t.own, d, va);
    FlagBits(Walked(s.mem, pg, va));
    FlagBits(Walked(t.mem, d, va));
  }

  // ---- The address space as a partial map ------------------------------------------------------

  /** From page numbers to frame and flags. */
  function AddressSpace(mem: Mem, pd: nat): map<nat, (nat, nat)>
    requires pd < |mem|
  {
    map p: nat | 0 <= p < ALL_PAGES && Present(PteAt(mem, pd, p)) :: (Frame(PteAt(mem, pd, p)), Flags(PteAt(mem, pd, p)))
  }

  function MapsTo(first: nat, pf: nat, perm: nat, p: nat): (nat, nat)
    requires first <= p
  {
    (pf + (p - first), Perm(perm))
  }

  /** Pages `first .. first + n` mapped to consecutive frames. */
  function Range(first: nat, n: nat, pf: nat, perm: nat): map<nat, (nat, nat)> {
    map p: nat | first <= p < first + n :: MapsTo(first, pf, perm, p)
  }

  /** mappages adds a range. */
  lemma MappedIs(s: Snap, t: Snap, pd: nat, first: nat, n: nat, pf: nat, perm: nat)
    requires Mapped(s, t, pd, first, n, pf, perm) && first + n <= ALL_PAGES && perm < PGSIZE
    ensures AddressSpace(t.mem, pd) == AddressSpace(s.mem, pd) + Range(first, n, pf, perm)
  {
    forall p: nat | 0 <= p < ALL_PAGES ensures PteMapped(s, t, pd, first, n, pf, perm, p) {
    }
    forall p: nat | first <= p < first + n
      ensures Present(PteAt(t.mem, pd, p)) && Frame(PteAt(t.mem, pd, p)) == pf + (p - first) && Flags(PteAt(t.mem, pd, p)) == Perm(perm)
    {
      assert PteMapped(s, t, pd, first, n, pf, perm, p);
      EntryParts(pf + (p - first), Perm(perm));
    }
    var want := AddressSpace(s.mem, pd) + Range(first, n, pf, perm);
    forall p: nat | p < ALL_PAGES
      ensures p in AddressSpace(t.mem, pd) <==> p in want
      ensures p in want ==> AddressSpace(t.mem, pd)[p] == want[p]
    {
      assert PteMapped(s, t, pd, first, n, pf, perm, p);
    }
  }

  /** deallocuvm removes a range, whichever page tables exist. */
  lemma FreedIs(s: Snap, t: Snap, pd: nat, from: nat, to: nat)
    requires Freed(s, t, pd, from, to)
    ensures AddressSpace(t.mem, pd) == map p: nat | p in AddressSpace(s.mem, pd) && !(from <= p < to) :: AddressSpace(s.mem, pd)[p]
  {
    forall p: nat | p < ALL_PAGES
      ensures p in AddressSpace(t.mem, pd) <==> p in AddressSpace(s.mem, pd) && !(from <= p < to)
      ensures p in AddressSpace(t.mem, pd) ==> AddressSpace(t.mem, pd)[p] == AddressSpace(s.mem, pd)[p]
    {
      assert PteFreed(s, t, pd, from, to, p);
    }
  }

  /** A failed allocuvm changes no address space. */
  lemma RestoredIs(lo: nat, s: Snap, t: Snap, pd: nat, q: nat)
    requires Sound(lo, s.mem, s.own) && Restored(s, t, pd) && q < |s.mem| && s.own[q] == Dir
    ensures AddressSpace(t.mem, q) == AddressSpace(s.mem, q)
  {
    forall p: nat | p < ALL_PAGES ensures PteAt(t.mem, q, p) == PteAt(s.mem, q, p) {
      if q != pd {
        OtherSpaces(lo, s, t, pd, q, p);
      }
    }
  }

  /** The child's user pages have frames distinct from each other and from every frame in use before. */
  lemma CopyIsPrivate(lo: nat, data: word, s: Snap, t: Snap, pg: nat, d: nat, n: nat, p: nat, q: nat)
    requires Sound(lo, s.mem, s.own) && Sound(lo, t.mem, t.own) && Copied(data, s, t, pg, d, n) && n <= USER_PAGES
    requires t.own[d] == Dir && p < n && q < n
    ensures Frame(PteAt(t.mem, d, p)) == Frame(PteAt(t.mem, d, q)) ==> p == q
    ensures Frame(PteAt(t.mem, d, p)) < |s.own| && s.own[Frame(PteAt(t.mem, d, p))] == Free
  {
    assert PageCopied(s, t, pg, d, n, p) && PageCopied(s, t, pg, d, n, q);
    if Frame(PteAt(t.mem, d, p)) == Frame(PteAt(t.mem, d, q)) {
      FramesDistinct(lo, t.mem, t.own, d, p / ENTRIES, p % ENTRIES, d, q / ENTRIES, q % ENTRIES);
    }
  }
}
