/** ialloc, itrunc and iput: inodes come and go without disturbing the bitmap or other files. */
module FsInodes {
  import opened Blocks
  import opened FsModel
  import opened FsLayout
  import opened FsAlloc
  import opened FsFiles

  /** Block `b` belongs to one of the first `k` slots of inode `i`. */
  predicate OwnedBelow(own: Owner, b: nat, i: nat, k: nat) {
    OwnedBy(own, b, i) && own[b].1 < k
  }

  /** The bitmap once the blocks of the first `k` slots of inode `i` have been freed. */
  ghost predicate FreedBelow(bits0: seq<bool>, bits: seq<bool>, own: Owner, i: nat, k: nat) {
    |bits| == |bits0| && forall b: nat :: b < |bits| ==> bits[b] == (bits0[b] && !OwnedBelow(own, b, i, k))
  }

  /** The bitmap block that freeing block `b` touches. */
  function SlotMap(sb: Super, b: nat): set<nat> {
    if b == 0 then {} else {sb.BBlock(b)}
  }

  /** The bitmap blocks of the blocks in the first `k` slots of inode `i`. */
  function MapsOf(sb: Super, f: Fs, i: nat, k: nat): set<nat>
    requires i < |f.inodes| && k <= SLOTS
  {
    if k == 0 then {} else MapsOf(sb, f, i, k - 1) + SlotMap(sb, Ref(f, i, k - 1))
  }

  /** All that itrunc logs: the bitmap blocks of the inode's blocks, and the inode's block. */
  function TruncLogs(sb: Super, f: Fs, i: nat): set<nat>
    requires i < |f.inodes|
  {
    MapsOf(sb, f, i, SLOTS) + {sb.IBlock(i)}
  }

  /** Freeing the block of slot `k`, or finding none there. */
  lemma FreedNext(g: Geometry, e: Fs, own: Owner, i: nat, k: nat, bits: seq<bool>)
    requires Sound(g, e, own) && Live(e, i) && k < SLOTS && FreedBelow(e.bits, bits, own, i, k)
    ensures Ref(e, i, k) != 0 ==> Ref(e, i, k) < |bits| && bits[Ref(e, i, k)]
    ensures FreedBelow(e.bits, if Ref(e, i, k) == 0 then bits else bits[Ref(e, i, k) := false], own, i, k + 1)
  {
    assert SlotOk(g, e, own, i, k);
    forall b: nat | b < g.size ensures OwnedBelow(own, b, i, k + 1) <==> OwnedBelow(own, b, i, k) || (b == Ref(e, i, k) && b != 0) {
      assert BlockOk(g, e, own, b);
    }
  }

  /** bfree of the block in slot `k`, unless the slot is empty; it cannot panic. */
  method FreeSlot(fs: FileSystem, b: nat, ghost e: Fs, ghost i: nat, ghost k: nat)
    requires fs.Ready() && Sound(fs.sb.Geo(), e, fs.own) && Live(e, i) && k < SLOTS && b == Ref(e, i, k)
    requires FreedBelow(e.bits, fs.F().bits, fs.own, i, k)
    modifies fs`raw, fs`logged, fs`trace
    ensures fs.Ready() && fs.F().inodes == old(fs.F()).inodes && fs.F().blocks == old(fs.F()).blocks
    ensures FreedBelow(e.bits, fs.F().bits, fs.own, i, k + 1)
    ensures fs.logged == old(fs.logged) + SlotMap(fs.sb, b)
  {
    FreedNext(fs.sb.Geo(), e, fs.own, i, k, fs.F().bits);
    if b != 0 {
      var ok := fs.Bfree(b);
      assert ok;
    }
  }

  /** The free loops of itrunc: every block of the inode is freed once, so "freeing free block"
      is never reached. */
  method FreeBlocks(fs: FileSystem, ip: Inode)
    requires fs.Held(ip)
    modifies fs`raw, fs`logged, fs`trace, ip`addrs
    ensures fs.Ready() && fs.F().inodes == old(fs.F()).inodes && fs.F().blocks == old(fs.F()).blocks
    ensures FreedBelow(old(fs.F()).bits, fs.F().bits, fs.own, ip.inum, SLOTS)
    ensures fs.logged == old(fs.logged) + MapsOf(fs.sb, old(fs.Seen(ip)), ip.inum, SLOTS)
    ensures ip.addrs == NoAddrs()
  {
    ghost var e, own := fs.Seen(ip), fs.own;
    ghost var n := ip.inum;
    var i := 0;
    while i < NDIRECT
      invariant 0 <= i <= NDIRECT && fs.Ready()
      invariant fs.F().inodes == old(fs.F()).inodes && fs.F().blocks == old(fs.F()).blocks
      invariant FreedBelow(e.bits, fs.F().bits, own, n, i)
      invariant fs.logged == old(fs.logged) + MapsOf(fs.sb, e, n, i)
      invariant forall j :: 0 <= j <= NDIRECT ==> ip.addrs[j] == if j < i then 0 else e.inodes[n].addrs[j]
    {
      FreeSlot(fs, ip.addrs[i], e, n, i);
      ip.addrs := ip.addrs[i := 0];
      i := i + 1;
    }
    FreeFar(fs, ip.addrs[NDIRECT], e, n, old(fs.logged));
    ip.addrs := ip.addrs[NDIRECT := 0];
    assert ip.addrs == NoAddrs();
  }

  /** The indirect block and everything it points to. */
  method FreeFar(fs: FileSystem, ind: nat, ghost e: Fs, ghost n: nat, ghost l: set<nat>)
    requires fs.Ready() && Sound(fs.sb.Geo(), e, fs.own) && Live(e, n) && ind == e.inodes[n].addrs[NDIRECT]
    requires fs.F().blocks == e.blocks && FreedBelow(e.bits, fs.F().bits, fs.own, n, NDIRECT)
    requires fs.logged == l + MapsOf(fs.sb, e, n, NDIRECT)
    modifies fs`raw, fs`logged, fs`trace
    ensures fs.Ready() && fs.F().inodes == old(fs.F()).inodes && fs.F().blocks == old(fs.F()).blocks
    ensures FreedBelow(e.bits, fs.F().bits, fs.own, n, SLOTS)
    ensures fs.logged == l + MapsOf(fs.sb, e, n, SLOTS)
  {
    if ind == 0 {
      NoFar(fs.sb.Geo(), e, fs.own, n, fs.F().bits);
      NoFarMaps(fs.sb, e, n, SLOTS);
      return;
    }
    assert SlotOk(fs.sb.Geo(), e, fs.own, n, INDIRECT);
    assert fs.raw[ind] == fs.F().blocks[ind];
    var a := fs.raw[ind];
    var j := 0;
    while j < NINDIRECT
      invariant 0 <= j <= NINDIRECT && fs.Ready()
      invariant fs.F().inodes == old(fs.F()).inodes && fs.F().blocks == old(fs.F()).blocks
      invariant FreedBelow(e.bits, fs.F().bits, fs.own, n, NDIRECT + j)
      invariant fs.logged == l + MapsOf(fs.sb, e, n, NDIRECT + j)
    {
      FreeSlot(fs, GetWord(a, j), e, n, NDIRECT + j);
      j := j + 1;
    }
    FreeSlot(fs, ind, e, n, INDIRECT);
  }

  /** Without an indirect block the remaining slots are empty. */
  lemma NoFar(g: Geometry, e: Fs, own: Owner, n: nat, bits: seq<bool>)
    requires Sound(g, e, own) && Live(e, n) && e.inodes[n].addrs[NDIRECT] == 0 && FreedBelow(e.bits, bits, own, n, NDIRECT)
    ensures FreedBelow(e.bits, bits, own, n, SLOTS)
  {
    forall b: nat | b < g.size ensures OwnedBelow(own, b, n, SLOTS) <==> OwnedBelow(own, b, n, NDIRECT) {
      assert BlockOk(g, e, own, b);
    }
  }

  lemma {:induction false} NoFarMaps(sb: Super, e: Fs, n: nat, k: nat)
    requires n < |e.inodes| && e.inodes[n].addrs[NDIRECT] == 0 && NDIRECT <= k <= SLOTS
    ensures MapsOf(sb, e, n, k) == MapsOf(sb, e, n, NDIRECT)
  {
    if k > NDIRECT {
      NoFarMaps(sb, e, n, k - 1);
    }
  }

  /** itrunc frees every block of the inode and nothing else, and writes the empty inode back. */
  method Itrunc(fs: FileSystem, ip: Inode)
    requires fs.Held(ip)
    modifies fs`raw, fs`own, fs`logged, fs`trace, ip`addrs, ip`size
    ensures fs.Held(ip) && ip.addrs == NoAddrs() && ip.size == 0 && fs.Seen(ip) == fs.F()
    ensures fs.own == Without(old(fs.own), ip.inum) && fs.F().blocks == old(fs.F()).blocks
    ensures fs.F().inodes == old(fs.F()).inodes[ip.inum := ip.Copy()]
    ensures fs.logged == old(fs.logged) + TruncLogs(fs.sb, old(fs.Seen(ip)), ip.inum)
  {
    ghost var e := fs.Seen(ip);
    FreeBlocks(fs, ip);
    ip.size := 0;
    ghost var bits := fs.F().bits;
    fs.Iupdate(ip);
    forall b: nat | b < fs.sb.size ensures OwnedBelow(fs.own, b, ip.inum, SLOTS) <==> OwnedBy(fs.own, b, ip.inum) {
      assert BlockOk(fs.sb.Geo(), e, fs.own, b);
    }
    TruncateKeeps(fs.sb.Geo(), e, fs.own, ip.inum, bits, ip.Copy());
    fs.own := Without(fs.own, ip.inum);
    assert fs.F() == SetInode(e, ip.inum, ip.Copy()).(bits := bits);
    assert fs.F().inodes[ip.inum := ip.Copy()] == fs.F().inodes;
  }

  lemma EmptyNoHoles(f: Fs, i: nat, d: Dinode)
    requires NoHoles(f) && i < |f.inodes| && d.size == 0
    ensures NoHoles(SetInode(f, i, d))
  {
    var f' := SetInode(f, i, d);
    forall j: nat | j < |f'.inodes| ensures NoHole(f', j) {
      assert NoHole(f, j);
      assert forall k: nat :: k < MAXFILE && j != i ==> Ref(f', j, k) == Ref(f, j, k);
    }
  }

  /** iput drops a reference; the last reference to an inode without links frees the inode and all
      its blocks, and no other inode or block content changes. */
  method Iput(fs: FileSystem, ip: Inode) returns (freed: bool)
    requires Steady(fs) && ip.ref > 0 && ip.inum < fs.sb.ninodes
    requires ip.valid ==> ip.kind != 0 && fs.F().inodes[ip.inum] == ip.Copy()
    modifies fs`raw, fs`own, fs`logged, fs`trace, ip
    ensures freed == (old(ip.valid) && old(ip.nlink) == 0 && old(ip.ref) == 1)
    ensures Steady(fs) && ip.ref == old(ip.ref) - 1
    ensures !freed ==> fs.raw == old(fs.raw) && fs.own == old(fs.own) && fs.logged == old(fs.logged) && fs.trace == old(fs.trace) && ip.Copy() == old(ip.Copy()) && ip.valid == old(ip.valid)
    ensures freed ==> !ip.valid && !Live(fs.F(), ip.inum) && fs.own == Without(old(fs.own), ip.inum)
    ensures freed ==> fs.logged == old(fs.logged) + TruncLogs(fs.sb, old(fs.F()), ip.inum)
    ensures fs.F().blocks == old(fs.F()).blocks
    ensures forall j: nat :: j < fs.sb.ninodes && j != ip.inum ==> fs.F().inodes[j] == old(fs.F()).inodes[j]
  {
    freed := false;
    if ip.valid && ip.nlink == 0 {
      if ip.ref == 1 {
        freed := true;
        ghost var f := fs.F();
        assert f.inodes[ip.inum := ip.Copy()] == f.inodes;
        Itrunc(fs, ip);
        EmptyNoHoles(f, ip.inum, ip.Copy());
        assert NoHoles(fs.F()) by { SameRefs(SetInode(f, ip.inum, ip.Copy()), fs.F()); }
        ghost var f1 := fs.F();
        ip.kind := 0;
        EmptyInodeKeeps(fs.sb.Geo(), f1, fs.own, ip.inum, ip.Copy());
        EmptyNoHoles(f1, ip.inum, ip.Copy());
        fs.Iupdate(ip);
        ip.valid := false;
      }
    }
    ip.ref := ip.ref - 1;
  }

  /** Holes depend on the inodes and the blocks only. */
  lemma SameRefs(f: Fs, f': Fs)
    requires f.inodes == f'.inodes && f.blocks == f'.blocks && NoHoles(f)
    ensures NoHoles(f')
  {
    forall j: nat | j < |f'.inodes| ensures NoHole(f', j) {
      assert NoHole(f, j);
      assert forall k: nat :: k < MAXFILE ==> Ref(f', j, k) == Ref(f, j, k);
    }
  }

  /** ialloc takes the lowest free inode from 1 on and empties it; it panics exactly if all are
      taken. */
  method Ialloc(fs: FileSystem, kind: short) returns (ok: bool, inum: nat)
    requires Steady(fs) && kind != 0
    modifies fs`raw, fs`logged, fs`trace
    ensures Steady(fs)
    ensures ok == exists i: nat :: 1 <= i < fs.sb.ninodes && !Live(old(fs.F()), i)
    ensures !ok ==> fs.raw == old(fs.raw) && fs.logged == old(fs.logged) && fs.trace == old(fs.trace)
    ensures ok ==> 1 <= inum < fs.sb.ninodes && !Live(old(fs.F()), inum) && forall i: nat :: 1 <= i < inum ==> Live(old(fs.F()), i)
    ensures ok ==> fs.F() == SetInode(old(fs.F()), inum, Dinode(kind, 0, 0, 0, 0, NoAddrs()))
  {
    inum := 1;
    while inum < fs.sb.ninodes
      invariant fs.raw == old(fs.raw) && fs.logged == old(fs.logged) && fs.trace == old(fs.trace) && fs.Ready()
      invariant 1 <= inum
      invariant forall i: nat :: 1 <= i < inum && i < fs.sb.ninodes ==> Live(fs.F(), i)
    {
      BlockRanges(fs.sb, 0, inum);
      var dip := GetDinode(fs.raw[fs.sb.IBlock(inum)], inum % IPB);
      assert fs.F().inodes[inum] == dip;
      if dip.kind == 0 {
        var d := Dinode(kind, 0, 0, 0, 0, NoAddrs());
        EmptyInodeKeeps(fs.sb.Geo(), fs.F(), fs.own, inum, d);
        EmptyNoHoles(fs.F(), inum, d);
        fs.PutInode(inum, d);
        return true, inum;
      }
      inum := inum + 1;
    }
    return false, 0;
  }
}
