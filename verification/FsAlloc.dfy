/** fs.c on a disk image: the block allocator, the inode table and bmap, updating blocks in
    place. Every block passed to log_write is recorded. A result `ok == false` is a panic. */
module FsAlloc {
  import opened Blocks
  import opened FsModel
  import opened FsLayout
  import opened LogDisk

  const T_DIR: short := 1
  const T_FILE: short := 2
  const T_DEV: short := 3

  /** struct inode: the cached copy of an on-disk inode. */
  class Inode {
    const inum: nat
    var ref: nat
    var valid: bool
    var kind: short
    var major: short
    var minor: short
    var nlink: short
    var size: word
    var addrs: Addrs

    constructor (inum: nat)
      ensures this.inum == inum && ref == 0 && !valid
    {
      this.inum := inum;
      ref, valid, kind, major, minor, nlink, size, addrs := 0, false, 0, 0, 0, 0, 0, NoAddrs();
    }

    function Copy(): Dinode
      reads this
    {
      Dinode(kind, major, minor, nlink, size, addrs)
    }
  }

  lemma BitIndex(b: nat, bi: nat)
    requires b % BPB == 0 && bi < BPB
    ensures (b + bi) / BPB == b / BPB && (b + bi) % BPB == bi && (b + bi) % 8 == bi % 8
  {
    BitsApart(b / BPB, bi);
  }

  lemma BitsApart(q: nat, r: nat)
    requires r < 4096
    ensures (4096 * q + r) / 4096 == q && (4096 * q + r) % 4096 == r && (4096 * q + r) % 8 == r % 8
  {
    assert 4096 * q + r == 8 * (512 * q) + r;
  }

  lemma NextMap(b: nat)
    requires b % BPB == 0
    ensures (b + BPB) % BPB == 0
  {
  }

  /** Everything written lies behind the log. */
  ghost predicate OnHome(sb: Super, t: Trace) {
    match t
    case Boot => true
    case Then(before, w) => OnHome(sb, before) && sb.inodestart <= w.block < sb.size
  }

  class FileSystem {
    const sb: Super
    var raw: seq<Block>
    ghost var own: Owner
    ghost var logged: set<nat>      // the blocks passed to log_write
    ghost var base: seq<Block>      // the disk when the transaction began
    ghost var trace: Trace          // the log_write calls since then

    ghost predicate Ready()
      reads this
    {
      sb.Good() && |raw| == sb.size && raw == Replay(base, trace) && logged == Touches(trace) && OnHome(sb, trace)
    }

    /** The file system the disk holds. */
    ghost function F(): Fs
      requires Ready()
      reads this
    {
      Decode(sb, raw)
    }

    /** The file system as the holder of the locked inode `ip` sees it: the cached inode counts. */
    ghost function Seen(ip: Inode): Fs
      requires Ready() && ip.inum < sb.ninodes
      reads this, ip
    {
      SetInode(F(), ip.inum, ip.Copy())
    }

    constructor (sb: Super, raw: seq<Block>, ghost own: Owner)
      requires sb.Good() && |raw| == sb.size
      ensures Ready() && this.sb == sb && this.raw == raw && this.own == own && logged == {} && base == raw && trace == Boot
    {
      this.sb, this.raw, this.own, this.logged, this.base, this.trace := sb, raw, own, {}, raw, Boot;
    }

    /** begin_op: what follows is logged for this transaction. */
    ghost method Begin()
      requires Ready()
      modifies this`logged, this`base, this`trace
      ensures Ready() && logged == {} && base == raw && trace == Boot
    {
      logged, base, trace := {}, raw, Boot;
    }

    /** bread, change the buffer, log_write, brelse. */
    method LogBlock(b: nat, data: Block)
      requires Ready() && sb.inodestart <= b < sb.size
      modifies this`raw, this`logged, this`trace
      ensures Ready() && raw == old(raw)[b := data] && logged == old(logged) + {b} && trace == Then(old(trace), Write(b, data))
    {
      raw := raw[b := data];
      logged, trace := logged + {b}, Then(trace, Write(b, data));
    }

    /** Set or clear bit `b` of the free map through its bitmap block. */
    method PutBit(b: nat, on: bool)
      requires Ready() && b < sb.size
      modifies this`raw, this`logged, this`trace
      ensures Ready() && F() == old(F()).(bits := old(F()).bits[b := on])
      ensures logged == old(logged) + {sb.BBlock(b)}
    {
      BlockRanges(sb, b, 0);
      WriteBitIs(sb, raw, b, on);
      LogBlock(sb.BBlock(b), BitBlock(sb, raw, b, on));
    }

    method PutData(b: nat, data: Block)
      requires Ready() && sb.Meta() <= b < sb.size
      modifies this`raw, this`logged, this`trace
      ensures Ready() && F() == PutBlock(old(F()), b, data)
      ensures logged == old(logged) + {b}
    {
      WriteDataIs(sb, raw, b, data);
      LogBlock(b, data);
    }

    method PutInode(i: nat, d: Dinode)
      requires Ready() && i < sb.ninodes
      modifies this`raw, this`logged, this`trace
      ensures Ready() && F() == SetInode(old(F()), i, d)
      ensures logged == old(logged) + {sb.IBlock(i)}
    {
      BlockRanges(sb, 0, i);
      WriteInodeIs(sb, raw, i, d);
      LogBlock(sb.IBlock(i), PutDinode(raw[sb.IBlock(i)], i % IPB, d));
    }

    /** The first free block at or after position `bi` of the bitmap block for `b`, if it holds one. */
    method ScanBitmap(b: nat) returns (bi: nat)
      requires Ready() && b < sb.size && b % BPB == 0
      ensures bi <= BPB && b + bi <= sb.size
      ensures forall x: nat :: b <= x < b + bi ==> F().bits[x]
      ensures bi < BPB && b + bi < sb.size ==> !F().bits[b + bi]
    {
      BlockRanges(sb, b, 0);
      var blk := raw[sb.BBlock(b)];
      bi := 0;
      while bi < BPB && b + bi < sb.size
        invariant bi <= BPB && b + bi <= sb.size
        invariant forall x: nat :: b <= x < b + bi ==> F().bits[x]
      {
        BitIndex(b, bi);
        assert F().bits[b + bi] == TestBit(blk[bi / 8], bi % 8);
        if !TestBit(blk[bi / 8], bi % 8) {
          return;
        }
        bi := bi + 1;
      }
    }

    /** Mark a free block and zero it. */
    method TakeBlock(r: nat)
      requires Ready() && sb.Meta() <= r < sb.size && !F().bits[r]
      modifies this`raw, this`logged, this`trace
      ensures Ready() && F() == Mark(old(F()), r) && logged == old(logged) + {sb.BBlock(r), r}
      ensures FreeCount(F()) == FreeCount(old(F())) - 1
    {
      PutBit(r, true);
      PutData(r, Zeros());
      OneTaken(old(F()), F(), r);
    }

    /** balloc's search: the lowest free block, or the end of the disk. */
    method FirstFree() returns (r: nat)
      requires Ready()
      ensures r <= sb.size && (forall b: nat :: b < r ==> F().bits[b])
      ensures r < sb.size ==> !F().bits[r]
    {
      var b := 0;
      while b < sb.size
        invariant b % BPB == 0
        invariant forall x: nat :: x < b && x < sb.size ==> F().bits[x]
      {
        var bi := ScanBitmap(b);
        if bi < BPB && b + bi < sb.size {
          return b + bi;
        }
        NextMap(b);
        b := b + BPB;
      }
      return sb.size;
    }

    /** balloc takes the lowest free block and zeroes it; it panics exactly if there is none. */
    method Balloc() returns (ok: bool, r: word)
      requires Ready() && (forall b: nat :: b < sb.Meta() ==> F().bits[b])
      modifies this`raw, this`logged, this`trace
      ensures Ready() && ok == !Full(old(F()))
      ensures !ok ==> raw == old(raw) && logged == old(logged) && trace == old(trace)
      ensures ok ==> sb.Meta() <= r < sb.size && !old(F()).bits[r] && forall b: nat :: b < r ==> old(F()).bits[b]
      ensures ok ==> F() == Mark(old(F()), r) && logged == old(logged) + {sb.BBlock(r), r}
      ensures FreeCount(F()) == FreeCount(old(F())) - if ok then 1 else 0
    {
      var b := FirstFree();
      if b == sb.size {
        return false, 0;
      }
      TakeBlock(b);
      return true, b;
    }

    /** bfree panics exactly on a block that is already free. */
    method Bfree(b: nat) returns (ok: bool)
      requires Ready() && b < sb.size
      modifies this`raw, this`logged, this`trace
      ensures Ready() && ok == old(F()).bits[b]
      ensures ok ==> F() == old(F()).(bits := old(F()).bits[b := false]) && logged == old(logged) + {sb.BBlock(b)}
      ensures !ok ==> raw == old(raw) && logged == old(logged) && trace == old(trace)
    {
      BlockRanges(sb, b, 0);
      var bi := b % BPB;
      assert bi % 8 == b % 8;
      if !TestBit(raw[sb.BBlock(b)][bi / 8], bi % 8) {
        return false;
      }
      PutBit(b, false);
      return true;
    }

    /** iupdate: the cached inode reaches the disk. */
    method Iupdate(ip: Inode)
      requires Ready() && ip.inum < sb.ninodes
      modifies this`raw, this`logged, this`trace
      ensures Ready() && F() == old(Seen(ip)) && F().inodes[ip.inum] == ip.Copy()
      ensures F().bits == old(F()).bits && F().blocks == old(F()).blocks
      ensures forall j: nat :: j < sb.ninodes && j != ip.inum ==> F().inodes[j] == old(F()).inodes[j]
      ensures var d := F().inodes[ip.inum];
              && d.kind == ip.kind && d.major == ip.major && d.minor == ip.minor && d.nlink == ip.nlink
              && d.size == ip.size && d.addrs == ip.addrs
      ensures logged == old(logged) + {sb.IBlock(ip.inum)}
    {
      PutInode(ip.inum, ip.Copy());
    }

    /** ilock, once it has the sleep lock: an entry that is not valid is read from the disk. It panics
        exactly if nobody holds a reference or the inode on disk is free. */
    method Ilock(ip: Inode) returns (ok: bool)
      requires Ready() && ip.inum < sb.ninodes
      modifies ip`valid, ip`kind, ip`major, ip`minor, ip`nlink, ip`size, ip`addrs
      ensures ok <==> ip.ref >= 1 && (old(ip.valid) || F().inodes[ip.inum].kind != 0)
      ensures ip.ref < 1 || old(ip.valid) ==> ip.valid == old(ip.valid) && ip.Copy() == old(ip.Copy())
      ensures ip.ref >= 1 && !old(ip.valid) ==>
                && ip.valid
                && var d := F().inodes[ip.inum];
                   && ip.kind == d.kind && ip.major == d.major && ip.minor == d.minor && ip.nlink == d.nlink
                   && ip.size == d.size && ip.addrs == d.addrs
    {
      if ip.ref < 1 {
        return false;
      }
      if !ip.valid {
        BlockRanges(sb, 0, ip.inum);
        var dip := GetDinode(raw[sb.IBlock(ip.inum)], ip.inum % IPB);
        assert F().inodes[ip.inum] == dip;
        ip.kind := dip.kind;
        ip.major := dip.major;
        ip.minor := dip.minor;
        ip.nlink := dip.nlink;
        ip.size := dip.size;
        ip.addrs := dip.addrs;
        ip.valid := true;
        if ip.kind == 0 {
          return false;
        }
      }
      return true;
    }

    /** The cache is write-through: what iupdate has written is what ilock finds in an entry that iget
        has recycled for the same inode. */
    method Reread(ip: Inode, jp: Inode) returns (ok: bool)
      requires Ready() && ip.inum < sb.ninodes && jp != ip && jp.inum == ip.inum && jp.ref >= 1 && !jp.valid
      modifies this`raw, this`logged, this`trace, jp`valid, jp`kind, jp`major, jp`minor, jp`nlink, jp`size, jp`addrs
      ensures Ready() && ok == (ip.kind != 0)
      ensures jp.kind == ip.kind && jp.major == ip.major && jp.minor == ip.minor && jp.nlink == ip.nlink
      ensures jp.size == ip.size && jp.addrs == ip.addrs && Seen(jp) == F() == old(Seen(ip))
    {
      Iupdate(ip);
      ok := Ilock(jp);
      assert F().inodes[ip.inum := jp.Copy()] == F().inodes;
    }

    // ---- bmap -----------------------------------------------------------------------

    /** The holder of the locked, allocated inode `ip` sees an exact bitmap. */
    ghost predicate Held(ip: Inode)
      reads this, ip
    {
      && Ready() && ip.inum < sb.ninodes && ip.kind != 0
      && Sound(sb.Geo(), Seen(ip), own)
    }

    lemma HeldMarksMeta(ip: Inode)
      requires Held(ip)
      ensures forall b: nat :: b < sb.Meta() ==> F().bits[b]
    {
      forall b: nat | b < sb.Meta() ensures F().bits[b] {
        assert BlockOk(sb.Geo(), Seen(ip), own, b);
      }
    }

    /** Allocate a block and hang it into slot `k` of the cached inode. */
    method GrowNear(ip: Inode, k: nat) returns (ok: bool, addr: word)
      requires Held(ip) && (k < NDIRECT || k == INDIRECT) && Ref(Seen(ip), ip.inum, k) == 0
      modifies this`raw, this`own, this`logged, this`trace, ip`addrs
      ensures Ready() && ok == !Full(old(F()))
      ensures !ok ==> raw == old(raw) && own == old(own) && logged == old(logged) && trace == old(trace) && ip.addrs == old(ip.addrs)
      ensures ok ==> addr >= sb.Meta() && CanAttach(sb.Geo(), old(Seen(ip)), old(own), ip.inum, k, addr)
      ensures ok ==> Held(ip) && Seen(ip) == Attach(old(Seen(ip)), ip.inum, k, addr) && own == old(own)[addr := (ip.inum, k)]
      ensures ok ==> F() == Mark(old(F()), addr) && logged == old(logged) + {sb.BBlock(addr), addr}
      ensures ok ==> OnlyMaps(old(Seen(ip)), Seen(ip), ip.inum, k)
      ensures FreeCount(F()) == FreeCount(old(F())) - if ok then 1 else 0
    {
      HeldMarksMeta(ip);
      ok, addr := Balloc();
      if ok {
        AttachKeeps(sb.Geo(), old(Seen(ip)), own, ip.inum, k, addr);
        own := own[addr := (ip.inum, k)];
        ip.addrs := ip.addrs[(if k < NDIRECT then k else NDIRECT) := addr];
        assert Seen(ip) == Attach(old(Seen(ip)), ip.inum, k, addr);
        AttachOnly(sb.Geo(), old(Seen(ip)), old(own), ip.inum, k, addr);
      }
    }

    /** Allocate a block and hang it into the inode's indirect block. */
    method GrowFar(ip: Inode, k: nat) returns (ok: bool, addr: word)
      requires Held(ip) && NDIRECT <= k < MAXFILE && ip.addrs[NDIRECT] != 0 && Ref(Seen(ip), ip.inum, k) == 0
      modifies this`raw, this`own, this`logged, this`trace
      ensures Ready() && ok == !Full(old(F()))
      ensures !ok ==> raw == old(raw)
      ensures ok ==> addr >= sb.Meta() && CanAttach(sb.Geo(), old(Seen(ip)), old(own), ip.inum, k, addr) && ip.addrs[NDIRECT] < sb.size
      ensures ok ==> Held(ip) && Seen(ip) == AttachFar(old(Seen(ip)), ip.inum, k, addr) && own == old(own)[addr := (ip.inum, k)]
      ensures ok ==> F().inodes == old(F()).inodes && F().bits == old(F()).bits[addr := true]
      ensures ok ==> logged == old(logged) + {sb.BBlock(addr), addr, ip.addrs[NDIRECT]}
      ensures ok ==> OnlyMaps(old(Seen(ip)), Seen(ip), ip.inum, k)
      ensures FreeCount(F()) == FreeCount(old(F())) - if ok then 1 else 0
    {
      HeldMarksMeta(ip);
      assert SlotOk(sb.Geo(), Seen(ip), own, ip.inum, INDIRECT);
      var ind := ip.addrs[NDIRECT];
      ok, addr := Balloc();
      if ok {
        AttachFarKeeps(sb.Geo(), old(Seen(ip)), own, ip.inum, k, addr);
        own := own[addr := (ip.inum, k)];
        assert raw[ind] == F().blocks[ind];
        PutData(ind, PutWord(raw[ind], k - NDIRECT, addr));
        assert Seen(ip) == AttachFar(old(Seen(ip)), ip.inum, k, addr);
        AttachFarOnly(sb.Geo(), old(Seen(ip)), old(own), ip.inum, k, addr);
      }
    }

    /** The bitmap and indirect blocks bmap may log besides the data block it returns. */
    ghost function BmapLogs(bn: nat, addr: nat, ind: nat, freshInd: bool): set<nat> {
      {sb.BBlock(addr)} + (if bn < NDIRECT then {} else {ind}) + (if freshInd then {sb.BBlock(ind)} else {})
    }

    /** bmap returns the data block of file block `bn`, allocating it, and the indirect block, where
        missing. It changes nothing for a mapped block, never moves or alters what is mapped, and
        panics exactly beyond MAXFILE or when the disk has fewer free blocks than it needs. */
    method Bmap(ip: Inode, bn: nat) returns (ok: bool, addr: word)
      requires Held(ip)
      modifies this`raw, this`own, this`logged, this`trace, ip`addrs
      ensures Ready()
      ensures ok <==> bn < MAXFILE && Needs(old(Seen(ip)), ip.inum, bn) <= FreeCount(old(F()))
      ensures ok ==> FreeCount(F()) == FreeCount(old(F())) - Needs(old(Seen(ip)), ip.inum, bn)
      ensures ok ==> OnlyMaps(old(Seen(ip)), Seen(ip), ip.inum, bn)
      ensures !ok ==> bn >= MAXFILE || Full(F())
      ensures ok ==> bn < MAXFILE && Held(ip) && addr != 0 && Ref(Seen(ip), ip.inum, bn) == addr
      ensures ok ==> if bn < NDIRECT then addr == ip.addrs[bn] else ip.addrs[NDIRECT] < sb.size && addr == GetWord(raw[ip.addrs[NDIRECT]], bn - NDIRECT)
      ensures ok ==> Extends(old(Seen(ip)), Seen(ip)) && F().inodes == old(F()).inodes
      ensures bn < MAXFILE && Ref(old(Seen(ip)), ip.inum, bn) != 0 ==>
                ok && raw == old(raw) && own == old(own) && logged == old(logged) && trace == old(trace) && ip.addrs == old(ip.addrs)
      ensures ok ==> logged <= old(logged) + {addr} + BmapLogs(bn, addr, ip.addrs[NDIRECT], bn >= NDIRECT && old(ip.addrs[NDIRECT]) == 0)
    {
      addr := 0;
      NoneFree(F());
      if bn < NDIRECT {
        addr := ip.addrs[bn];
        ok := true;
        if addr == 0 {
          ok, addr := GrowNear(ip, bn);
          if ok {
            AttachExtends(sb.Geo(), old(Seen(ip)), old(own), ip.inum, bn, addr);
            AttachRef(sb.Geo(), old(Seen(ip)), old(own), ip.inum, bn, addr, ip.inum, bn);
          }
        } else {
          SameExtends(Seen(ip));
        }
        return;
      }
      if bn >= MAXFILE {
        return false, 0;
      }
      ok, addr := BmapFar(ip, bn);
    }

    /** bmap beyond the direct blocks. */
    method BmapFar(ip: Inode, bn: nat) returns (ok: bool, addr: word)
      requires Held(ip) && NDIRECT <= bn < MAXFILE
      modifies this`raw, this`own, this`logged, this`trace, ip`addrs
      ensures Ready()
      ensures ok <==> Needs(old(Seen(ip)), ip.inum, bn) <= FreeCount(old(F()))
      ensures ok ==> FreeCount(F()) == FreeCount(old(F())) - Needs(old(Seen(ip)), ip.inum, bn)
      ensures ok ==> OnlyMaps(old(Seen(ip)), Seen(ip), ip.inum, bn)
      ensures !ok ==> Full(F())
      ensures ok ==> Held(ip) && addr != 0 && Ref(Seen(ip), ip.inum, bn) == addr
      ensures ok ==> ip.addrs[NDIRECT] < sb.size && addr == GetWord(raw[ip.addrs[NDIRECT]], bn - NDIRECT)
      ensures ok ==> Extends(old(Seen(ip)), Seen(ip)) && F().inodes == old(F()).inodes
      ensures Ref(old(Seen(ip)), ip.inum, bn) != 0 ==>
                ok && raw == old(raw) && own == old(own) && logged == old(logged) && trace == old(trace) && ip.addrs == old(ip.addrs)
      ensures ok ==> logged <= old(logged) + {addr} + BmapLogs(bn, addr, ip.addrs[NDIRECT], old(ip.addrs[NDIRECT]) == 0)
    {
      SameExtends(Seen(ip));
      NoneFree(F());
      ok, addr := true, 0;
      if ip.addrs[NDIRECT] == 0 {
        ok := AddIndirect(ip, bn);
        if !ok {
          return;
        }
      }
      ghost var e := Seen(ip);
      NoneFree(F());
      ok, addr := BmapEntry(ip, bn);
      if ok {
        ExtendsTrans(old(Seen(ip)), e, Seen(ip));
        OnlyMapsFar(old(Seen(ip)), e, Seen(ip), ip.inum, bn);
      }
    }

    /** Give the inode an indirect block; no file block is mapped by that. */
    method AddIndirect(ip: Inode, ghost bn: nat) returns (ok: bool)
      requires Held(ip) && ip.addrs[NDIRECT] == 0 && NDIRECT <= bn < MAXFILE
      modifies this`raw, this`own, this`logged, this`trace, ip`addrs
      ensures Ready() && ok == !Full(old(F())) && (!ok ==> Full(F()))
      ensures FreeCount(F()) == FreeCount(old(F())) - if ok then 1 else 0
      ensures ok ==> OnlyMaps(old(Seen(ip)), Seen(ip), ip.inum, INDIRECT)
      ensures ok ==> Held(ip) && ip.addrs[NDIRECT] != 0 && Ref(Seen(ip), ip.inum, bn) == 0
      ensures ok ==> Extends(old(Seen(ip)), Seen(ip)) && F().inodes == old(F()).inodes
      ensures ok ==> logged == old(logged) + {sb.BBlock(ip.addrs[NDIRECT]), ip.addrs[NDIRECT]}
    {
      var ind;
      ok, ind := GrowNear(ip, INDIRECT);
      if ok {
        AttachExtends(sb.Geo(), old(Seen(ip)), old(own), ip.inum, INDIRECT, ind);
        AttachRef(sb.Geo(), old(Seen(ip)), old(own), ip.inum, INDIRECT, ind, ip.inum, bn);
      }
    }

    /** bmap's work on the entry of an existing indirect block. */
    method BmapEntry(ip: Inode, bn: nat) returns (ok: bool, addr: word)
      requires Held(ip) && NDIRECT <= bn < MAXFILE && ip.addrs[NDIRECT] != 0
      modifies this`raw, this`own, this`logged, this`trace
      ensures Ready() && (!ok ==> Full(F()))
      ensures ok <==> Ref(old(Seen(ip)), ip.inum, bn) != 0 || !Full(old(F()))
      ensures FreeCount(F()) == FreeCount(old(F())) - if !ok || Ref(old(Seen(ip)), ip.inum, bn) != 0 then 0 else 1
      ensures ok ==> OnlyMaps(old(Seen(ip)), Seen(ip), ip.inum, bn)
      ensures ok ==> Held(ip) && addr != 0 && Ref(Seen(ip), ip.inum, bn) == addr
      ensures ok ==> ip.addrs[NDIRECT] < sb.size && addr == GetWord(raw[ip.addrs[NDIRECT]], bn - NDIRECT)
      ensures ok ==> Extends(old(Seen(ip)), Seen(ip)) && F().inodes == old(F()).inodes
      ensures Ref(old(Seen(ip)), ip.inum, bn) != 0 ==> ok && raw == old(raw) && own == old(own) && logged == old(logged) && trace == old(trace)
      ensures ok ==> logged <= old(logged) + {sb.BBlock(addr), addr, ip.addrs[NDIRECT]}
    {
      assert SlotOk(sb.Geo(), Seen(ip), own, ip.inum, INDIRECT);
      var ind := ip.addrs[NDIRECT];
      assert raw[ind] == F().blocks[ind];
      addr := GetWord(raw[ind], bn - NDIRECT);
      ok := true;
      if addr == 0 {
        ok, addr := GrowFar(ip, bn);
        if ok {
          AttachFarExtends(sb.Geo(), old(Seen(ip)), old(own), ip.inum, bn, addr);
          AttachFarRef(sb.Geo(), old(Seen(ip)), old(own), ip.inum, bn, addr, ip.inum, bn);
        }
      } else {
        SameExtends(Seen(ip));
      }
    }

    lemma SameExtends(f: Fs)
      ensures Extends(f, f) && forall i: nat, k: nat :: OnlyMaps(f, f, i, k)
    {
    }
  }
}
