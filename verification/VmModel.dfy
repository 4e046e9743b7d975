/** Two-level page tables over physical memory: what an address space maps, who owns each frame, and
    how the single writes of vm.c change both. */
module VmModel {
  type word = x: nat | x < 0x1_0000_0000

  const PGSIZE: nat := 4096
  const ENTRIES: nat := 1024

  /** Frames below PHYSTOP. */
  const PHYS_PAGES: nat := 0xE000

  /** Directory entries below KERNBASE. */
  const USER_DIRS: nat := 512

  function Filled(x: word): (p: seq<word>)
    ensures |p| == ENTRIES && forall j :: 0 <= j < ENTRIES ==> p[j] == x
  {
    seq(ENTRIES, _ => x)
  }

  type Page = p: seq<word> | |p| == ENTRIES witness Filled(0)

  type Mem = seq<Page>

  /** What a frame of physical memory is used for: on the free list, a page directory, the `i`-th page
      table of a directory, the user page in slot `(i, j)` of a directory, or the kernel's own. */
  datatype Owner = Free | Dir | Table(pd: nat, i: nat) | User(pd: nat, i: nat, j: nat) | Kernel

  predicate Present(w: word) {
    w % 2 == 1
  }

  function Frame(w: word): nat {
    w / PGSIZE
  }

  function Flags(w: word): nat {
    w % PGSIZE
  }

  /** PTE_W and PTE_U. */
  predicate Writable(w: word) {
    w / 2 % 2 == 1
  }

  predicate ForUser(w: word) {
    w / 4 % 2 == 1
  }

  /** The flag bits of an entry are those of its low twelve bits. */
  lemma FlagBits(w: word)
    ensures Present(w) == (Flags(w) % 2 == 1) && Writable(w) == (Flags(w) / 2 % 2 == 1) && ForUser(w) == (Flags(w) / 4 % 2 == 1)
  {
    FlagsParts(Frame(w), Flags(w));
  }

  lemma FlagsParts(q: nat, f: nat)
    ensures (4096 * q + f) % 2 == f % 2
    ensures (4096 * q + f) / 2 == 2048 * q + f / 2 && (2048 * q + f / 2) % 2 == f / 2 % 2
    ensures (4096 * q + f) / 4 == 1024 * q + f / 4 && (1024 * q + f / 4) % 2 == f / 4 % 2
  {
  }

  function Entry(f: nat, flags: nat): word
    requires f < 0x10_0000 && flags < PGSIZE
  {
    f * PGSIZE + flags
  }

  lemma EntryParts(f: nat, flags: nat)
    requires f < 0x10_0000 && flags < PGSIZE
    ensures Frame(Entry(f, flags)) == f && Flags(Entry(f, flags)) == flags && Present(Entry(f, flags)) == (flags % 2 == 1)
  {
  }

  /** The page table entry for slot `(i, j)`; 0 if there is no page table. */
  function Pte(mem: Mem, pd: nat, i: nat, j: nat): word
    requires pd < |mem| && i < ENTRIES && j < ENTRIES
  {
    if Present(mem[pd][i]) && Frame(mem[pd][i]) < |mem| then mem[Frame(mem[pd][i])][j] else 0
  }

  // ---- Ownership ----------------------------------------------------------------------

  predicate FrameOk(lo: nat, mem: Mem, own: seq<Owner>, f: nat)
    requires |own| == |mem| && f < |mem|
  {
    match own[f]
    case Kernel => true
    case Free => f >= lo
    case Dir => f >= lo
    case Table(pd, i) =>
      && f >= lo && pd < |mem| && own[pd] == Dir && i < ENTRIES
      && Present(mem[pd][i]) && Frame(mem[pd][i]) == f
    case User(pd, i, j) =>
      && f >= lo && pd < |mem| && own[pd] == Dir && i < USER_DIRS && j < ENTRIES
      && Present(Pte(mem, pd, i, j)) && Frame(Pte(mem, pd, i, j)) == f
  }

  predicate DirOk(mem: Mem, own: seq<Owner>, pd: nat, i: nat)
    requires |own| == |mem| && pd < |mem| && i < ENTRIES
  {
    own[pd] == Dir && Present(mem[pd][i]) ==>
      Frame(mem[pd][i]) < |mem| && own[Frame(mem[pd][i])] == Table(pd, i) && Flags(mem[pd][i]) == 7
  }

  predicate SlotOk(mem: Mem, own: seq<Owner>, pd: nat, i: nat, j: nat)
    requires |own| == |mem| && pd < |mem| && i < USER_DIRS && j < ENTRIES
  {
    own[pd] == Dir ==>
      if Present(Pte(mem, pd, i, j)) then Frame(Pte(mem, pd, i, j)) < |mem| && own[Frame(Pte(mem, pd, i, j))] == User(pd, i, j)
      else Pte(mem, pd, i, j) == 0
  }

  /** Every frame is where its owner says, and nothing refers to a frame that another owns. */
  predicate Sound(lo: nat, mem: Mem, own: seq<Owner>) {
    && 0 < lo && |own| == |mem| == PHYS_PAGES
    && (forall f :: 0 <= f < |mem| ==> FrameOk(lo, mem, own, f))
    && (forall pd, i :: 0 <= pd < |mem| && 0 <= i < ENTRIES ==> DirOk(mem, own, pd, i))
    && (forall pd, i, j :: 0 <= pd < |mem| && 0 <= i < USER_DIRS && 0 <= j < ENTRIES ==> SlotOk(mem, own, pd, i, j))
  }

  /** No two slots of any two address spaces hold the same frame. */
  lemma FramesDistinct(lo: nat, mem: Mem, own: seq<Owner>, pd: nat, i: nat, j: nat, pd': nat, i': nat, j': nat)
    requires Sound(lo, mem, own) && pd < |mem| && pd' < |mem| && own[pd] == Dir && own[pd'] == Dir
    requires i < USER_DIRS && j < ENTRIES && i' < USER_DIRS && j' < ENTRIES
    requires Present(Pte(mem, pd, i, j)) && Present(Pte(mem, pd', i', j'))
    requires Frame(Pte(mem, pd, i, j)) == Frame(Pte(mem, pd', i', j'))
    ensures pd == pd' && i == i' && j == j'
  {
    assert SlotOk(mem, own, pd, i, j) && SlotOk(mem, own, pd', i', j');
  }

  // ---- Writes that touch no page table ------------------------------------------------

  /** Every page table entry of every address space is as it was. */
  predicate SamePtes(mem: Mem, own: seq<Owner>, mem': Mem)
    requires |own| == |mem| == |mem'|
  {
    forall pd, i, j :: 0 <= pd < |mem| && 0 <= i < ENTRIES && 0 <= j < ENTRIES && own[pd] == Dir ==>
      Pte(mem', pd, i, j) == Pte(mem, pd, i, j)
  }

  predicate Plain(o: Owner) {
    !o.Dir? && !o.Table?
  }

  lemma PlainPte(lo: nat, mem: Mem, own: seq<Owner>, f: nat, page: Page, pd: nat, i: nat, j: nat)
    requires Sound(lo, mem, own) && f < |mem| && Plain(own[f]) && pd < |mem| && own[pd] == Dir && i < ENTRIES && j < ENTRIES
    ensures Pte(mem[f := page], pd, i, j) == Pte(mem, pd, i, j)
  {
    assert DirOk(mem, own, pd, i);
  }

  lemma PlainKeeps(lo: nat, mem: Mem, own: seq<Owner>, f: nat, page: Page)
    requires Sound(lo, mem, own) && f < |mem| && Plain(own[f])
    ensures Sound(lo, mem[f := page], own) && SamePtes(mem, own, mem[f := page])
  {
    var mem' := mem[f := page];
    forall pd, i, j | 0 <= pd < |mem| && 0 <= i < ENTRIES && 0 <= j < ENTRIES && own[pd] == Dir
      ensures Pte(mem', pd, i, j) == Pte(mem, pd, i, j)
    {
      PlainPte(lo, mem, own, f, page, pd, i, j);
    }
    forall g | 0 <= g < |mem| ensures FrameOk(lo, mem', own, g) {
      assert FrameOk(lo, mem, own, g);
    }
    forall pd, i | 0 <= pd < |mem| && 0 <= i < ENTRIES ensures DirOk(mem', own, pd, i) {
      assert DirOk(mem, own, pd, i);
    }
    forall pd, i, j | 0 <= pd < |mem| && 0 <= i < USER_DIRS && 0 <= j < ENTRIES ensures SlotOk(mem', own, pd, i, j) {
      assert SlotOk(mem, own, pd, i, j);
    }
  }

  /** Taking a frame off the free list, or putting one there, disturbs nothing. */
  lemma LooseKeeps(lo: nat, mem: Mem, own: seq<Owner>, f: nat, o: Owner)
    requires Sound(lo, mem, own) && lo <= f < |mem| && (own[f] == Free || own[f] == Kernel) && (o == Free || o == Kernel)
    ensures Sound(lo, mem, own[f := o])
  {
    var own' := own[f := o];
    forall g | 0 <= g < |mem| ensures FrameOk(lo, mem, own', g) {
      assert FrameOk(lo, mem, own, g);
    }
    forall pd, i | 0 <= pd < |mem| && 0 <= i < ENTRIES ensures DirOk(mem, own', pd, i) {
      assert DirOk(mem, own, pd, i);
    }
    forall pd, i, j | 0 <= pd < |mem| && 0 <= i < USER_DIRS && 0 <= j < ENTRIES ensures SlotOk(mem, own', pd, i, j) {
      assert SlotOk(mem, own, pd, i, j);
    }
  }

  // ---- New directories and page tables --------------------------------------------------

  lemma NewDirKeeps(lo: nat, mem: Mem, own: seq<Owner>, f: nat)
    requires Sound(lo, mem, own) && lo <= f < |mem| && own[f] == Kernel && mem[f] == Filled(0)
    ensures Sound(lo, mem, own[f := Dir])
    ensures forall i, j :: 0 <= i < ENTRIES && 0 <= j < ENTRIES ==> Pte(mem, f, i, j) == 0
  {
    var own' := own[f := Dir];
    forall g | 0 <= g < |mem| ensures FrameOk(lo, mem, own', g) {
      assert FrameOk(lo, mem, own, g);
    }
    forall pd, i | 0 <= pd < |mem| && 0 <= i < ENTRIES ensures DirOk(mem, own', pd, i) {
      assert DirOk(mem, own, pd, i);
    }
    forall pd, i, j | 0 <= pd < |mem| && 0 <= i < USER_DIRS && 0 <= j < ENTRIES ensures SlotOk(mem, own', pd, i, j) {
      assert SlotOk(mem, own, pd, i, j);
    }
  }

  /** Memory once directory `pd` refers to the zeroed frame `f` as its `i`-th page table. */
  function WithTable(mem: Mem, pd: nat, i: nat, f: nat): Mem
    requires pd < |mem| && i < ENTRIES && f < 0x10_0000
  {
    mem[pd := mem[pd][i := Entry(f, 7)]]
  }

  predicate NewTable(lo: nat, mem: Mem, own: seq<Owner>, pd: nat, i: nat, f: nat) {
    && Sound(lo, mem, own) && pd < |mem| && own[pd] == Dir && i < ENTRIES && !Present(mem[pd][i])
    && lo <= f < |mem| && own[f] == Kernel && mem[f] == Filled(0)
  }

  lemma NewTablePte(lo: nat, mem: Mem, own: seq<Owner>, pd: nat, i: nat, f: nat, pd': nat, i': nat, j': nat)
    requires NewTable(lo, mem, own, pd, i, f) && pd' < |mem| && own[pd'] == Dir && i' < ENTRIES && j' < ENTRIES
    ensures Pte(WithTable(mem, pd, i, f), pd', i', j') == Pte(mem, pd', i', j')
  {
    EntryParts(f, 7);
    assert DirOk(mem, own, pd', i');
  }

  lemma NewTableKeeps(lo: nat, mem: Mem, own: seq<Owner>, pd: nat, i: nat, f: nat)
    requires NewTable(lo, mem, own, pd, i, f)
    ensures Sound(lo, WithTable(mem, pd, i, f), own[f := Table(pd, i)])
    ensures SamePtes(mem, own, WithTable(mem, pd, i, f))
  {
    EntryParts(f, 7);
    var mem', own' := WithTable(mem, pd, i, f), own[f := Table(pd, i)];
    forall pd', i', j' | 0 <= pd' < |mem| && 0 <= i' < ENTRIES && 0 <= j' < ENTRIES && own[pd'] == Dir
      ensures Pte(mem', pd', i', j') == Pte(mem, pd', i', j')
    {
      NewTablePte(lo, mem, own, pd, i, f, pd', i', j');
    }
    forall g | 0 <= g < |mem| ensures FrameOk(lo, mem', own', g) {
      assert FrameOk(lo, mem, own, g);
    }
    forall pd', i' | 0 <= pd' < |mem| && 0 <= i' < ENTRIES ensures DirOk(mem', own', pd', i') {
      assert DirOk(mem, own, pd', i');
    }
    forall pd', i', j' | 0 <= pd' < |mem| && 0 <= i' < USER_DIRS && 0 <= j' < ENTRIES ensures SlotOk(mem', own', pd', i', j') {
      assert SlotOk(mem, own, pd', i', j');
    }
  }

  // ---- Page table entries ---------------------------------------------------------------

  /** Memory once slot `(i, j)` of directory `pd` holds `w`. */
  function WithPte(mem: Mem, pd: nat, i: nat, j: nat, w: word): Mem
    requires pd < |mem| && i < ENTRIES && j < ENTRIES && Present(mem[pd][i]) && Frame(mem[pd][i]) < |mem|
  {
    var t := Frame(mem[pd][i]);
    mem[t := mem[t][j := w]]
  }

  predicate HasTable(lo: nat, mem: Mem, own: seq<Owner>, pd: nat, i: nat) {
    && Sound(lo, mem, own) && pd < |mem| && own[pd] == Dir && i < ENTRIES && Present(mem[pd][i])
    && DirOk(mem, own, pd, i)
  }

  lemma WithPteIs(lo: nat, mem: Mem, own: seq<Owner>, pd: nat, i: nat, j: nat, w: word, pd': nat, i': nat, j': nat)
    requires HasTable(lo, mem, own, pd, i) && j < ENTRIES && pd' < |mem| && own[pd'] == Dir && i' < ENTRIES && j' < ENTRIES
    ensures Pte(WithPte(mem, pd, i, j, w), pd', i', j') == if pd' == pd && i' == i && j' == j then w else Pte(mem, pd', i', j')
  {
    assert DirOk(mem, own, pd', i');
  }

  /** Entries of kernel slots may be anything. */
  lemma KernelPteKeeps(lo: nat, mem: Mem, own: seq<Owner>, pd: nat, i: nat, j: nat, w: word)
    requires HasTable(lo, mem, own, pd, i) && USER_DIRS <= i && j < ENTRIES
    ensures Sound(lo, WithPte(mem, pd, i, j, w), own)
  {
    var mem' := WithPte(mem, pd, i, j, w);
    forall g | 0 <= g < |mem| ensures FrameOk(lo, mem', own, g) {
      assert FrameOk(lo, mem, own, g);
      match own[g]
      case User(p, x, y) => WithPteIs(lo, mem, own, pd, i, j, w, p, x, y);
      case _ =>
    }
    forall p, x | 0 <= p < |mem| && 0 <= x < ENTRIES ensures DirOk(mem', own, p, x) {
      assert DirOk(mem, own, p, x);
    }
    forall p, x, y | 0 <= p < |mem| && 0 <= x < USER_DIRS && 0 <= y < ENTRIES ensures SlotOk(mem', own, p, x, y) {
      assert SlotOk(mem, own, p, x, y);
      if own[p] == Dir {
        WithPteIs(lo, mem, own, pd, i, j, w, p, x, y);
      }
    }
  }

  /** Mapping a frame nobody else uses at an empty user slot. */
  lemma MapKeeps(lo: nat, mem: Mem, own: seq<Owner>, pd: nat, i: nat, j: nat, f: nat, flags: nat)
    requires HasTable(lo, mem, own, pd, i) && i < USER_DIRS && j < ENTRIES && !Present(Pte(mem, pd, i, j))
    requires lo <= f < |mem| && own[f] == Kernel && flags < PGSIZE && flags % 2 == 1
    ensures Sound(lo, WithPte(mem, pd, i, j, Entry(f, flags)), own[f := User(pd, i, j)])
  {
    var w := Entry(f, flags);
    EntryParts(f, flags);
    var mem', own' := WithPte(mem, pd, i, j, w), own[f := User(pd, i, j)];
    WithPteIs(lo, mem, own, pd, i, j, w, pd, i, j);
    forall g | 0 <= g < |mem| ensures FrameOk(lo, mem', own', g) {
      assert FrameOk(lo, mem, own, g);
      match own[g]
      case User(p, x, y) => WithPteIs(lo, mem, own, pd, i, j, w, p, x, y);
      case _ =>
    }
    forall p, x | 0 <= p < |mem| && 0 <= x < ENTRIES ensures DirOk(mem', own', p, x) {
      assert DirOk(mem, own, p, x);
    }
    forall p, x, y | 0 <= p < |mem| && 0 <= x < USER_DIRS && 0 <= y < ENTRIES ensures SlotOk(mem', own', p, x, y) {
      assert SlotOk(mem, own, p, x, y);
      if own[p] == Dir {
        WithPteIs(lo, mem, own, pd, i, j, w, p, x, y);
      }
    }
  }

  /** Clearing a user slot gives its frame back to the kernel. */
  lemma UnmapKeeps(lo: nat, mem: Mem, own: seq<Owner>, pd: nat, i: nat, j: nat)
    requires HasTable(lo, mem, own, pd, i) && i < USER_DIRS && j < ENTRIES && Present(Pte(mem, pd, i, j))
    ensures Frame(Pte(mem, pd, i, j)) < |mem| && own[Frame(Pte(mem, pd, i, j))] == User(pd, i, j)
    ensures Sound(lo, WithPte(mem, pd, i, j, 0), own[Frame(Pte(mem, pd, i, j)) := Kernel])
  {
    assert SlotOk(mem, own, pd, i, j);
    var f := Frame(Pte(mem, pd, i, j));
    var mem', own' := WithPte(mem, pd, i, j, 0), own[f := Kernel];
    forall g | 0 <= g < |mem| ensures FrameOk(lo, mem', own', g) {
      assert FrameOk(lo, mem, own, g);
      match own[g]
      case User(p, x, y) => WithPteIs(lo, mem, own, pd, i, j, 0, p, x, y);
      case _ =>
    }
    forall p, x | 0 <= p < |mem| && 0 <= x < ENTRIES ensures DirOk(mem', own', p, x) {
      assert DirOk(mem, own, p, x);
    }
    forall p, x, y | 0 <= p < |mem| && 0 <= x < USER_DIRS && 0 <= y < ENTRIES ensures SlotOk(mem', own', p, x, y) {
      assert SlotOk(mem, own, p, x, y);
      if own[p] == Dir {
        WithPteIs(lo, mem, own, pd, i, j, 0, p, x, y);
      }
    }
  }

  // ---- The page tables a range of pages needs ---------------------------------------------

  /** Mapping page `p`, after the pages from `from` on, has to make a page table. */
  predicate Opens(dir: Page, from: nat, p: nat)
    requires p < ENTRIES * ENTRIES
  {
    !Present(dir[p / ENTRIES]) && (p == from || p % ENTRIES == 0)
  }

  /** The page tables missing for pages `from .. end`. */
  function Missing(dir: Page, from: nat, end: nat): nat
    requires end <= ENTRIES * ENTRIES
    decreases end
  {
    if end <= from then 0 else Missing(dir, from, end - 1) + if Opens(dir, from, end - 1) then 1 else 0
  }

  predicate TableAdded(dir: Page, dir': Page, from: nat, end: nat, i: nat)
    requires i < ENTRIES
  {
    Present(dir'[i]) <==> Present(dir[i]) || (from < end && from / ENTRIES <= i <= (end - 1) / ENTRIES)
  }

  /** The directory once it has the page tables for pages `from .. end`, and no others, besides its own. */
  predicate TablesAdded(dir: Page, dir': Page, from: nat, end: nat) {
    forall i :: 0 <= i < ENTRIES ==> TableAdded(dir, dir', from, end, i)
  }

  lemma AddedJoin(dir: Page, dir': Page, dir'': Page, from: nat, mid: nat, end: nat)
    requires TablesAdded(dir, dir', from, mid) && TablesAdded(dir', dir'', mid, end) && from <= mid <= end
    ensures TablesAdded(dir, dir'', from, end)
  {
    forall i | 0 <= i < ENTRIES ensures TableAdded(dir, dir'', from, end, i) {
      assert TableAdded(dir, dir', from, mid, i) && TableAdded(dir', dir'', mid, end, i);
    }
  }

  /** A range needs what its first part needs and what its second part needs after that. */
  lemma {:induction false} MissingJoin(dir: Page, dir': Page, from: nat, mid: nat, end: nat)
    requires TablesAdded(dir, dir', from, mid) && from <= mid <= end <= ENTRIES * ENTRIES
    ensures Missing(dir, from, end) == Missing(dir, from, mid) + Missing(dir', mid, end)
    decreases end
  {
    if mid < end {
      MissingJoin(dir, dir', from, mid, end - 1);
      OpensStill(dir, dir', from, mid, end - 1);
    }
  }

  lemma OpensStill(dir: Page, dir': Page, from: nat, mid: nat, p: nat)
    requires TablesAdded(dir, dir', from, mid) && from <= mid <= p < ENTRIES * ENTRIES
    ensures Opens(dir, from, p) <==> Opens(dir', mid, p)
  {
    assert TableAdded(dir, dir', from, mid, p / ENTRIES);
    if mid > from {
      SameTable(mid, p);
    }
  }

  lemma SameTable(mid: nat, p: nat)
    requires 0 < mid <= p
    ensures p % ENTRIES == 0 ==> (mid - 1) / ENTRIES < p / ENTRIES
    ensures p == mid && p % ENTRIES != 0 ==> (mid - 1) / ENTRIES == p / ENTRIES
  {
  }

  lemma {:induction false} MissingGrows(dir: Page, from: nat, a: nat, b: nat)
    requires a <= b <= ENTRIES * ENTRIES
    ensures Missing(dir, from, a) <= Missing(dir, from, b)
    decreases b
  {
    if a < b {
      MissingGrows(dir, from, a, b - 1);
    }
  }

  /** Where no page table exists yet, every one of the range is needed. */
  lemma {:induction false} MissingAll(dir: Page, from: nat, end: nat)
    requires from < end <= ENTRIES * ENTRIES
    requires forall i :: from / ENTRIES <= i <= (end - 1) / ENTRIES ==> !Present(dir[i])
    ensures Missing(dir, from, end) == (end - 1) / ENTRIES - from / ENTRIES + 1
    decreases end
  {
    assert !Present(dir[(end - 1) / ENTRIES]);
    if end - 1 > from {
      SameTable(end - 1, end - 1);
      MissingAll(dir, from, end - 1);
      NextTableAt(end - 1);
    }
  }

  lemma NextTableAt(p: nat)
    requires 0 < p
    ensures p / ENTRIES == (p - 1) / ENTRIES + if p % ENTRIES == 0 then 1 else 0
  {
  }
}
