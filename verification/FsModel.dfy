/** The block and inode layers of fs.c as values: a bitmap, an inode table and block contents;
    which inode slot refers to which block; and the invariant that ties the bitmap to the
    references. Each elementary change the kernel makes is shown to keep it. */
module FsModel {
  import opened Blocks

  const NDIRECT: nat := 12
  const NINDIRECT: nat := WORDS
  const MAXFILE: nat := NDIRECT + NINDIRECT

  /** Slots 0 .. MAXFILE-1 of an inode hold its data blocks; slot INDIRECT its indirect block. */
  const INDIRECT: nat := MAXFILE
  const SLOTS: nat := MAXFILE + 1

  type short = x: int | 0 <= x < 0x1_0000
  type Addrs = s: seq<word> | |s| == NDIRECT + 1 witness seq(NDIRECT + 1, _ => 0)

  /** struct dinode; `kind` is its type field, 0 for a free inode. */
  datatype Dinode = Dinode(kind: short, major: short, minor: short, nlink: short, size: word, addrs: Addrs)

  datatype Fs = Fs(bits: seq<bool>, inodes: seq<Dinode>, blocks: seq<Block>)

  /** Blocks below `nmeta` hold the boot block, super block, log, inodes and bitmap. */
  datatype Geometry = Geometry(nmeta: nat, size: nat, ninodes: nat) {
    predicate Fits(f: Fs) {
      && 0 < nmeta <= size <= 0x1_0000_0000
      && |f.bits| == |f.blocks| == size && |f.inodes| == ninodes
    }
  }

  /** The slot each allocated data block belongs to: inode number and slot index. */
  type Owner = map<nat, (nat, nat)>

  // ---- References -------------------------------------------------------------------

  function Blk(f: Fs, b: nat): Block {
    if b < |f.blocks| then f.blocks[b] else Zeros()
  }

  /** The block number stored in slot `k` of inode `d`; 0 if none. */
  function Slot(f: Fs, d: Dinode, k: nat): word
    requires k < SLOTS
  {
    if k < NDIRECT then d.addrs[k]
    else if k == INDIRECT then d.addrs[NDIRECT]
    else if d.addrs[NDIRECT] == 0 then 0
    else GetWord(Blk(f, d.addrs[NDIRECT]), k - NDIRECT)
  }

  function Ref(f: Fs, i: nat, k: nat): word
    requires i < |f.inodes| && k < SLOTS
  {
    Slot(f, f.inodes[i], k)
  }

  predicate Live(f: Fs, i: nat) {
    i < |f.inodes| && f.inodes[i].kind != 0
  }

  /** Block `k` of file `i`: its data block, or zeros where none is mapped. */
  function FileBlk(f: Fs, i: nat, k: nat): Block
    requires i < |f.inodes| && k < MAXFILE
  {
    if Ref(f, i, k) == 0 then Zeros() else Blk(f, Ref(f, i, k))
  }

  // ---- The invariant ----------------------------------------------------------------

  /** A reference of a live inode is an allocated data block that this slot alone owns. */
  predicate SlotOk(g: Geometry, f: Fs, own: Owner, i: nat, k: nat)
    requires i < |f.inodes| && k < SLOTS && |f.bits| == g.size
  {
    var r := Ref(f, i, k);
    Live(f, i) && r != 0 ==> g.nmeta <= r < g.size && f.bits[r] && r in own && own[r] == (i, k)
  }

  /** A block is marked in the bitmap exactly if it is metadata or some live slot refers to it. */
  predicate BlockOk(g: Geometry, f: Fs, own: Owner, b: nat)
    requires b < |f.bits|
  {
    && (f.bits[b] <==> b < g.nmeta || b in own)
    && (b in own ==>
          var (i, k) := own[b];
          b >= g.nmeta && Live(f, i) && k < SLOTS && Ref(f, i, k) == b)
  }

  ghost predicate Sound(g: Geometry, f: Fs, own: Owner) {
    && g.Fits(f)
    && (forall i: nat, k: nat :: i < g.ninodes && k < SLOTS ==> SlotOk(g, f, own, i, k))
    && (forall b: nat :: b < g.size ==> BlockOk(g, f, own, b))
    && (forall b :: b in own ==> b < g.size)
  }

  /** Every block below the end of file `i` is mapped. */
  ghost predicate NoHole(f: Fs, i: nat)
    requires i < |f.inodes|
  {
    Live(f, i) ==>
      && f.inodes[i].size <= MAXFILE * BSIZE
      && forall k: nat :: k < MAXFILE && k * BSIZE < f.inodes[i].size ==> Ref(f, i, k) != 0
  }

  ghost predicate NoHoles(f: Fs) {
    forall i: nat :: i < |f.inodes| ==> NoHole(f, i)
  }

  /** Distinct live slots never share a block. */
  lemma OneReferrer(g: Geometry, f: Fs, own: Owner, i: nat, k: nat, j: nat, m: nat)
    requires Sound(g, f, own) && Live(f, i) && Live(f, j) && k < SLOTS && m < SLOTS
    requires Ref(f, i, k) == Ref(f, j, m) && Ref(f, i, k) != 0
    ensures i == j && k == m
  {
    assert SlotOk(g, f, own, i, k) && SlotOk(g, f, own, j, m);
  }

  /** Read as the bitmap's meaning: marked iff metadata or referred to. */
  lemma BitMeaning(g: Geometry, f: Fs, own: Owner, b: nat)
    requires Sound(g, f, own) && b < g.size
    ensures f.bits[b] <==> b < g.nmeta || exists i: nat, k: nat :: Live(f, i) && k < SLOTS && Ref(f, i, k) == b
  {
    assert BlockOk(g, f, own, b);
    if b in own {
      var (i, k) := own[b];
      assert Live(f, i) && k < SLOTS && Ref(f, i, k) == b;
    }
    if b >= g.nmeta && exists i: nat, k: nat :: Live(f, i) && k < SLOTS && Ref(f, i, k) == b {
      var i: nat, k: nat :| Live(f, i) && k < SLOTS && Ref(f, i, k) == b;
      assert SlotOk(g, f, own, i, k);
    }
  }

  // ---- Elementary changes -----------------------------------------------------------

  /** balloc's effect: mark the block and zero it. */
  function Mark(f: Fs, b: nat): Fs
    requires b < |f.bits| == |f.blocks|
  {
    f.(bits := f.bits[b := true], blocks := f.blocks[b := Zeros()])
  }

  function SetInode(f: Fs, i: nat, d: Dinode): Fs
    requires i < |f.inodes|
  {
    f.(inodes := f.inodes[i := d])
  }

  function Point(d: Dinode, k: nat, b: word): Dinode
    requires k < NDIRECT || k == INDIRECT
  {
    d.(addrs := d.addrs[(if k < NDIRECT then k else NDIRECT) := b])
  }

  /** A fresh block hung into a slot of the inode itself. */
  function Attach(f: Fs, i: nat, k: nat, b: word): Fs
    requires b < |f.bits| == |f.blocks| && i < |f.inodes| && (k < NDIRECT || k == INDIRECT)
  {
    SetInode(Mark(f, b), i, Point(f.inodes[i], k, b))
  }

  /** A fresh block hung into the inode's indirect block. */
  function AttachFar(f: Fs, i: nat, k: nat, b: word): Fs
    requires b < |f.bits| == |f.blocks| && i < |f.inodes| && NDIRECT <= k < MAXFILE
    requires f.inodes[i].addrs[NDIRECT] < |f.blocks|
  {
    var ind := f.inodes[i].addrs[NDIRECT];
    var m := Mark(f, b);
    m.(blocks := m.blocks[ind := PutWord(m.blocks[ind], k - NDIRECT, b)])
  }

  function PutBlock(f: Fs, b: nat, data: Block): Fs
    requires b < |f.blocks|
  {
    f.(blocks := f.blocks[b := data])
  }

  // ---- Attach -----------------------------------------------------------------------

  ghost predicate CanAttach(g: Geometry, f: Fs, own: Owner, i: nat, k: nat, b: nat) {
    && Sound(g, f, own) && Live(f, i) && k < SLOTS && Ref(f, i, k) == 0
    && b < g.size && !f.bits[b]
  }

  lemma AttachRef(g: Geometry, f: Fs, own: Owner, i: nat, k: nat, b: nat, j: nat, m: nat)
    requires CanAttach(g, f, own, i, k, b) && (k < NDIRECT || k == INDIRECT)
    requires Live(f, j) && m < SLOTS
    ensures Ref(Attach(f, i, k, b), j, m) == if (j, m) == (i, k) then b else Ref(f, j, m)
    ensures m < MAXFILE ==> FileBlk(Attach(f, i, k, b), j, m) == FileBlk(f, j, m)
  {
    assert SlotOk(g, f, own, j, INDIRECT);
    assert SlotOk(g, f, own, j, m);
    if NDIRECT <= m < MAXFILE { ZeroWord(m - NDIRECT); }
  }

  lemma AttachKeeps(g: Geometry, f: Fs, own: Owner, i: nat, k: nat, b: nat)
    requires CanAttach(g, f, own, i, k, b) && (k < NDIRECT || k == INDIRECT)
    ensures Sound(g, Attach(f, i, k, b), own[b := (i, k)])
  {
    var f', own' := Attach(f, i, k, b), own[b := (i, k)];
    assert BlockOk(g, f, own, b);
    forall j: nat, m: nat | j < g.ninodes && m < SLOTS ensures SlotOk(g, f', own', j, m) {
      if Live(f, j) {
        assert SlotOk(g, f, own, j, m);
        AttachRef(g, f, own, i, k, b, j, m);
      }
    }
    forall x: nat | x < g.size ensures BlockOk(g, f', own', x) {
      assert BlockOk(g, f, own, x);
      if x in own { AttachRef(g, f, own, i, k, b, own[x].0, own[x].1); }
      AttachRef(g, f, own, i, k, b, i, k);
    }
  }

  lemma AttachFarRef(g: Geometry, f: Fs, own: Owner, i: nat, k: nat, b: nat, j: nat, m: nat)
    requires CanAttach(g, f, own, i, k, b) && NDIRECT <= k < MAXFILE && Ref(f, i, INDIRECT) != 0
    requires Live(f, j) && m < SLOTS
    ensures f.inodes[i].addrs[NDIRECT] < |f.blocks|
    ensures Ref(AttachFar(f, i, k, b), j, m) == if (j, m) == (i, k) then b else Ref(f, j, m)
    ensures m < MAXFILE ==> FileBlk(AttachFar(f, i, k, b), j, m) == FileBlk(f, j, m)
  {
    assert SlotOk(g, f, own, i, INDIRECT);
    assert SlotOk(g, f, own, j, INDIRECT);
    assert SlotOk(g, f, own, j, m);
    if NDIRECT <= m < MAXFILE {
      PutGetWord(Blk(f, Ref(f, i, INDIRECT)), k - NDIRECT, b, m - NDIRECT);
    }
  }

  lemma AttachFarKeeps(g: Geometry, f: Fs, own: Owner, i: nat, k: nat, b: nat)
    requires CanAttach(g, f, own, i, k, b) && NDIRECT <= k < MAXFILE && Ref(f, i, INDIRECT) != 0
    ensures f.inodes[i].addrs[NDIRECT] < |f.blocks|
    ensures Sound(g, AttachFar(f, i, k, b), own[b := (i, k)])
  {
    assert SlotOk(g, f, own, i, INDIRECT);
    var f', own' := AttachFar(f, i, k, b), own[b := (i, k)];
    assert BlockOk(g, f, own, b);
    forall j: nat, m: nat | j < g.ninodes && m < SLOTS ensures SlotOk(g, f', own', j, m) {
      if Live(f, j) {
        assert SlotOk(g, f, own, j, m);
        AttachFarRef(g, f, own, i, k, b, j, m);
      }
    }
    forall x: nat | x < g.size ensures BlockOk(g, f', own', x) {
      assert BlockOk(g, f, own, x);
      if x in own { AttachFarRef(g, f, own, i, k, b, own[x].0, own[x].1); }
      AttachFarRef(g, f, own, i, k, b, i, k);
    }
  }

  /** Slot `m` of inode `j` keeps its block, if it had one, and file `j` keeps its contents. */
  predicate KeepsSlot(f: Fs, f': Fs, j: nat, m: nat) {
    Live(f, j) && m < SLOTS ==>
      && j < |f'.inodes|
      && (Ref(f, j, m) != 0 ==> Ref(f', j, m) == Ref(f, j, m))
      && (m < MAXFILE ==> FileBlk(f', j, m) == FileBlk(f, j, m))
  }

  /** Growth: references may be added, none changes, and no file's contents change. */
  ghost predicate Extends(f: Fs, f': Fs) {
    forall j: nat, m: nat :: KeepsSlot(f, f', j, m)
  }

  /** Slot `m` of inode `j` stays mapped if it was. */
  predicate KeepsRef(f: Fs, f': Fs, j: nat, m: nat) {
    Live(f, j) && m < SLOTS ==> Live(f', j) && (Ref(f, j, m) != 0 ==> Ref(f', j, m) == Ref(f, j, m))
  }

  ghost predicate RefsGrow(f: Fs, f': Fs) {
    forall j: nat, m: nat :: KeepsRef(f, f', j, m)
  }

  lemma RefsGrowTrans(f: Fs, f': Fs, f'': Fs)
    requires RefsGrow(f, f') && RefsGrow(f', f'')
    ensures RefsGrow(f, f'')
  {
    forall j: nat, m: nat ensures KeepsRef(f, f'', j, m) {
      assert KeepsRef(f, f', j, m) && KeepsRef(f', f'', j, m);
    }
  }

  lemma ExtendsGrows(f: Fs, f': Fs)
    requires Extends(f, f') && forall j: nat :: Live(f, j) ==> Live(f', j)
    ensures RefsGrow(f, f')
  {
    forall j: nat, m: nat ensures KeepsRef(f, f', j, m) { assert KeepsSlot(f, f', j, m); }
  }

  lemma ExtendsTrans(f: Fs, f': Fs, f'': Fs)
    requires Extends(f, f') && Extends(f', f'')
    requires forall j: nat :: Live(f, j) ==> Live(f', j)
    ensures Extends(f, f'')
  {
    forall j: nat, m: nat ensures KeepsSlot(f, f'', j, m) {
      assert KeepsSlot(f, f', j, m) && KeepsSlot(f', f'', j, m);
    }
  }

  lemma AttachExtends(g: Geometry, f: Fs, own: Owner, i: nat, k: nat, b: nat)
    requires CanAttach(g, f, own, i, k, b) && (k < NDIRECT || k == INDIRECT)
    ensures Extends(f, Attach(f, i, k, b))
  {
    forall j: nat, m: nat ensures KeepsSlot(f, Attach(f, i, k, b), j, m) {
      if Live(f, j) && m < SLOTS { AttachRef(g, f, own, i, k, b, j, m); }
    }
  }

  lemma AttachFarExtends(g: Geometry, f: Fs, own: Owner, i: nat, k: nat, b: nat)
    requires CanAttach(g, f, own, i, k, b) && NDIRECT <= k < MAXFILE && Ref(f, i, INDIRECT) != 0
    requires f.inodes[i].addrs[NDIRECT] < |f.blocks|
    ensures Extends(f, AttachFar(f, i, k, b))
  {
    forall j: nat, m: nat ensures KeepsSlot(f, AttachFar(f, i, k, b), j, m) {
      if Live(f, j) && m < SLOTS { AttachFarRef(g, f, own, i, k, b, j, m); }
    }
  }

  // ---- Writing a data block ---------------------------------------------------------

  lemma PutBlockRef(g: Geometry, f: Fs, own: Owner, i: nat, k: nat, data: Block, j: nat, m: nat)
    requires Sound(g, f, own) && Live(f, i) && k < MAXFILE && Ref(f, i, k) != 0
    requires Live(f, j) && m < SLOTS
    ensures Ref(f, i, k) < |f.blocks|
    ensures var f' := PutBlock(f, Ref(f, i, k), data);
            && Ref(f', j, m) == Ref(f, j, m)
            && (m < MAXFILE ==> FileBlk(f', j, m) == if (j, m) == (i, k) then data else FileBlk(f, j, m))
  {
    assert SlotOk(g, f, own, i, k);
    assert SlotOk(g, f, own, j, INDIRECT);
    assert SlotOk(g, f, own, j, m);
  }

  lemma PutBlockGrows(g: Geometry, f: Fs, own: Owner, i: nat, k: nat, data: Block)
    requires Sound(g, f, own) && Live(f, i) && k < MAXFILE && Ref(f, i, k) != 0
    ensures Ref(f, i, k) < |f.blocks|
    ensures RefsGrow(f, PutBlock(f, Ref(f, i, k), data))
  {
    assert SlotOk(g, f, own, i, k);
    var f' := PutBlock(f, Ref(f, i, k), data);
    forall j: nat, m: nat ensures KeepsRef(f, f', j, m) {
      if Live(f, j) && m < SLOTS { PutBlockRef(g, f, own, i, k, data, j, m); }
    }
  }

  lemma PutBlockKeeps(g: Geometry, f: Fs, own: Owner, i: nat, k: nat, data: Block)
    requires Sound(g, f, own) && Live(f, i) && k < MAXFILE && Ref(f, i, k) != 0
    ensures Ref(f, i, k) < |f.blocks|
    ensures Sound(g, PutBlock(f, Ref(f, i, k), data), own)
  {
    assert SlotOk(g, f, own, i, k);
    var f' := PutBlock(f, Ref(f, i, k), data);
    forall j: nat, m: nat | j < g.ninodes && m < SLOTS ensures SlotOk(g, f', own, j, m) {
      if Live(f, j) {
        assert SlotOk(g, f, own, j, m);
        PutBlockRef(g, f, own, i, k, data, j, m);
      }
    }
    forall x: nat | x < g.size ensures BlockOk(g, f', own, x) {
      assert BlockOk(g, f, own, x);
      if x in own { PutBlockRef(g, f, own, i, k, data, own[x].0, own[x].1); }
    }
  }

  // ---- Freeing and reusing an inode -------------------------------------------------

  function NoAddrs(): (a: Addrs)
    ensures forall j :: 0 <= j <= NDIRECT ==> a[j] == 0
  {
    seq(NDIRECT + 1, _ => 0)
  }

  predicate OwnedBy(own: Owner, b: nat, i: nat) {
    b in own && own[b].0 == i
  }

  /** The owners left once inode `i` has given up its blocks. */
  ghost function Without(own: Owner, i: nat): Owner {
    map b | b in own && own[b].0 != i :: own[b]
  }

  /** Unmarking exactly the blocks of inode `i` and clearing its addresses keeps the bitmap exact. */
  lemma TruncateKeeps(g: Geometry, f: Fs, own: Owner, i: nat, bits: seq<bool>, d: Dinode)
    requires Sound(g, f, own) && i < g.ninodes && d.addrs == NoAddrs() && |bits| == g.size
    requires forall b: nat :: b < g.size ==> bits[b] == (f.bits[b] && !OwnedBy(own, b, i))
    ensures Sound(g, SetInode(f, i, d).(bits := bits), Without(own, i))
  {
    var f', own' := SetInode(f, i, d).(bits := bits), Without(own, i);
    forall j: nat, k: nat | j < g.ninodes && k < SLOTS ensures SlotOk(g, f', own', j, k) {
      assert SlotOk(g, f, own, j, k);
    }
    forall b: nat | b < g.size ensures BlockOk(g, f', own', b) {
      assert BlockOk(g, f, own, b);
    }
  }

  /** An inode without blocks may be rewritten freely as long as it keeps none: ialloc taking a
      free inode, iput releasing a truncated one. */
  lemma EmptyInodeKeeps(g: Geometry, f: Fs, own: Owner, i: nat, d: Dinode)
    requires Sound(g, f, own) && i < g.ninodes && d.addrs == NoAddrs()
    requires !Live(f, i) || (f.inodes[i].addrs == NoAddrs() && d.kind == 0)
    ensures Sound(g, SetInode(f, i, d), own)
  {
    var f' := SetInode(f, i, d);
    forall j: nat, k: nat | j < g.ninodes && k < SLOTS ensures SlotOk(g, f', own, j, k) {
      assert SlotOk(g, f, own, j, k);
    }
    forall b: nat | b < g.size ensures BlockOk(g, f', own, b) {
      assert BlockOk(g, f, own, b);
      if b in own {
        var (j, k) := own[b];
        if j == i { NoSlots(f, f.inodes[i], k); }
      }
    }
  }

  lemma NoSlots(f: Fs, d: Dinode, k: nat)
    requires d.addrs == NoAddrs() && k < SLOTS
    ensures Slot(f, d, k) == 0
  {
  }

  // ---- Counting free blocks -----------------------------------------------------------

  function FreeSet(f: Fs): set<nat> {
    set b: nat | b < |f.bits| && !f.bits[b]
  }

  /** The number of blocks not marked in the bitmap. */
  function FreeCount(f: Fs): nat { |FreeSet(f)| }

  /** All bits are set. */
  predicate Full(f: Fs) {
    forall b :: 0 <= b < |f.bits| ==> f.bits[b]
  }

  lemma NoneFree(f: Fs)
    ensures Full(f) <==> FreeCount(f) == 0
  {
    if FreeCount(f) == 0 {
      forall b: nat | b < |f.bits| ensures f.bits[b] {
        assert b !in FreeSet(f);
      }
    } else {
      var b :| b in FreeSet(f);
    }
  }

  lemma OneTaken(f: Fs, f': Fs, b: nat)
    requires b < |f.bits| && !f.bits[b] && f'.bits == f.bits[b := true]
    ensures FreeCount(f') == FreeCount(f) - 1
  {
    assert FreeSet(f') == FreeSet(f) - {b};
  }

  lemma SameFree(f: Fs, f': Fs)
    requires f'.bits == f.bits
    ensures FreeCount(f') == FreeCount(f)
  {
    assert FreeSet(f') == FreeSet(f);
  }

  // ---- The blocks a range of a file needs -----------------------------------------------

  predicate SameSlot(f: Fs, f': Fs, j: nat, m: nat) {
    Live(f, j) && m < SLOTS ==> j < |f'.inodes| && Ref(f', j, m) == Ref(f, j, m)
  }

  /** Slot `m` of inode `j` is not touched by mapping block `k` of inode `i`. */
  predicate Apart(i: nat, k: nat, j: nat, m: nat) {
    (j, m) != (i, k) && ((j, m) != (i, INDIRECT) || k < NDIRECT)
  }

  /** Apart from data slot `k` of inode `i`, and its indirect slot, no reference differs. */
  ghost predicate OnlyMaps(f: Fs, f': Fs, i: nat, k: nat) {
    forall j: nat, m: nat :: Apart(i, k, j, m) ==> SameSlot(f, f', j, m)
  }

  /** The blocks bmap has to allocate for file block `k` of inode `i`. */
  function Needs(f: Fs, i: nat, k: nat): nat
    requires i < |f.inodes| && k < MAXFILE
  {
    if Ref(f, i, k) != 0 then 0
    else if k >= NDIRECT && f.inodes[i].addrs[NDIRECT] == 0 then 2
    else 1
  }

  /** The unmapped blocks among the file blocks `a .. b`. */
  function Holes(f: Fs, i: nat, a: nat, b: nat): set<nat>
    requires i < |f.inodes| && b <= MAXFILE
  {
    set k: nat | a <= k < b && Ref(f, i, k) == 0
  }

  /** The blocks it takes to map all of the file blocks `a .. b`: one each where unmapped, and the
      indirect block if the range goes past the direct blocks. */
  function RangeNeeds(f: Fs, i: nat, a: nat, b: nat): nat
    requires i < |f.inodes| && b <= MAXFILE
  {
    |Holes(f, i, a, b)| + if a < b && NDIRECT < b && f.inodes[i].addrs[NDIRECT] == 0 then 1 else 0
  }

  predicate SameHole(f: Fs, e: Fs, i: nat, k: nat)
    requires i < |f.inodes| && i < |e.inodes|
  {
    k < MAXFILE ==> (Ref(e, i, k) == 0 <==> Ref(f, i, k) == 0)
  }

  /** The file once its blocks `a .. b` have been mapped: from `b` on the same blocks are missing, and
      the indirect block is there if it was or was needed. */
  ghost predicate MappedUpTo(f: Fs, e: Fs, i: nat, a: nat, b: nat) {
    && Live(f, i) && Live(e, i)
    && (forall k: nat :: b <= k ==> SameHole(f, e, i, k))
    && (Ref(e, i, INDIRECT) != 0 <==> Ref(f, i, INDIRECT) != 0 || (a < b && NDIRECT < b))
  }

  lemma AttachOnly(g: Geometry, f: Fs, own: Owner, i: nat, k: nat, b: nat)
    requires CanAttach(g, f, own, i, k, b) && (k < NDIRECT || k == INDIRECT)
    ensures OnlyMaps(f, Attach(f, i, k, b), i, k)
  {
    forall j: nat, m: nat | Apart(i, k, j, m) ensures SameSlot(f, Attach(f, i, k, b), j, m) {
      if Live(f, j) && m < SLOTS { AttachRef(g, f, own, i, k, b, j, m); }
    }
  }

  lemma AttachFarOnly(g: Geometry, f: Fs, own: Owner, i: nat, k: nat, b: nat)
    requires CanAttach(g, f, own, i, k, b) && NDIRECT <= k < MAXFILE && Ref(f, i, INDIRECT) != 0
    requires f.inodes[i].addrs[NDIRECT] < |f.blocks|
    ensures OnlyMaps(f, AttachFar(f, i, k, b), i, k)
  {
    forall j: nat, m: nat | Apart(i, k, j, m) ensures SameSlot(f, AttachFar(f, i, k, b), j, m) {
      if Live(f, j) && m < SLOTS { AttachFarRef(g, f, own, i, k, b, j, m); }
    }
  }

  /** The indirect block first, then the entry. */
  lemma OnlyMapsFar(f: Fs, e: Fs, e': Fs, i: nat, k: nat)
    requires OnlyMaps(f, e, i, INDIRECT) && OnlyMaps(e, e', i, k) && NDIRECT <= k < MAXFILE
    requires forall j: nat :: Live(f, j) ==> Live(e, j)
    ensures OnlyMaps(f, e', i, k)
  {
    forall j: nat, m: nat | Apart(i, k, j, m) ensures SameSlot(f, e', j, m) {
      assert Apart(i, INDIRECT, j, m) && SameSlot(f, e, j, m) && SameSlot(e, e', j, m);
    }
  }

  lemma NothingMapped(f: Fs, i: nat, a: nat)
    requires Live(f, i)
    ensures MappedUpTo(f, f, i, a, a)
  {
  }

  lemma HolesNext(f: Fs, i: nat, a: nat, b: nat)
    requires i < |f.inodes| && a <= b < MAXFILE
    ensures |Holes(f, i, a, b + 1)| == |Holes(f, i, a, b)| + if Ref(f, i, b) == 0 then 1 else 0
  {
    assert Holes(f, i, a, b + 1) == Holes(f, i, a, b) + if Ref(f, i, b) == 0 then {b} else {};
  }

  /** With the blocks before it mapped, block `b` needs what the range needs more because of it. */
  lemma NeedsNow(f: Fs, e: Fs, i: nat, a: nat, b: nat)
    requires MappedUpTo(f, e, i, a, b) && a <= b < MAXFILE
    ensures RangeNeeds(f, i, a, b + 1) == RangeNeeds(f, i, a, b) + Needs(e, i, b)
  {
    assert SameHole(f, e, i, b);
    HolesNext(f, i, a, b);
  }

  /** Mapping the next block. */
  lemma MappedOne(f: Fs, e: Fs, e': Fs, i: nat, a: nat, b: nat)
    requires MappedUpTo(f, e, i, a, b) && a <= b < MAXFILE
    requires OnlyMaps(e, e', i, b) && Live(e', i) && Ref(e', i, b) != 0
    ensures MappedUpTo(f, e', i, a, b + 1)
  {
    var c := b + 1;
    forall k: nat | c <= k ensures SameHole(f, e', i, k) {
      if k < MAXFILE {
        assert Apart(i, b, i, k) && SameSlot(e, e', i, k) && SameHole(f, e, i, k);
      }
    }
    if b < NDIRECT {
      assert Apart(i, b, i, INDIRECT) && SameSlot(e, e', i, INDIRECT);
    }
  }

  lemma RangeGrows(f: Fs, i: nat, a: nat, b: nat, c: nat)
    requires i < |f.inodes| && b <= c <= MAXFILE
    ensures RangeNeeds(f, i, a, b) <= RangeNeeds(f, i, a, c)
  {
    var less, more := Holes(f, i, a, b), Holes(f, i, a, c);
    assert more == less + (more - less);
  }

  /** A range needs what its first part needs and what its second part, which may begin in the last
      block of the first, needs after that. */
  lemma RangeJoin(f: Fs, e: Fs, i: nat, a: nat, b: nat, s: nat, c: nat)
    requires MappedUpTo(f, e, i, a, b) && a <= b <= c <= MAXFILE
    requires s == b || (a < b == s + 1 && Ref(e, i, s) != 0)
    ensures RangeNeeds(f, i, a, c) == RangeNeeds(f, i, a, b) + RangeNeeds(e, i, s, c)
  {
    HolesJoin(f, e, i, a, b, s, c);
  }

  lemma HolesJoin(f: Fs, e: Fs, i: nat, a: nat, b: nat, s: nat, c: nat)
    requires MappedUpTo(f, e, i, a, b) && a <= b <= c <= MAXFILE
    requires s == b || (a < b == s + 1 && Ref(e, i, s) != 0)
    ensures |Holes(f, i, a, c)| == |Holes(f, i, a, b)| + |Holes(e, i, s, c)|
  {
    forall k: nat | b <= k < c ensures Ref(e, i, k) == 0 <==> Ref(f, i, k) == 0 {
      assert SameHole(f, e, i, k);
    }
    assert Holes(f, i, a, c) == Holes(f, i, a, b) + Holes(e, i, s, c);
  }
}
