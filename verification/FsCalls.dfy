/** Calls of the file system as transactions: what each does to the file system on disk, and the
    log_write calls it makes, in order. */
module FsCalls {
  import opened Blocks
  import opened FsModel
  import opened FsLayout
  import opened FsAlloc
  import opened FsFiles
  import opened FsInodes
  import opened FileWrite
  import opened LogDisk
  import FsBytes

  /** The disk holds a file system with an exact bitmap and no holes. */
  ghost predicate Consistent(sb: Super, d: Disk) {
    && sb.Good() && |d| == sb.size && NoHoles(Decode(sb, d))
    && exists own: FsModel.Owner :: Sound(sb.Geo(), Decode(sb, d), own)
  }

  /** Writing one chunk of a file, freeing an unlinked file, taking a free inode. */
  datatype Call = WriteCall(i: nat, off: nat, data: seq<byte>) | FreeCall(i: nat) | AllocCall(i: nat, kind: short)

  /** Apart from `i`, the inodes are the same. */
  predicate OthersSame(f: Fs, f': Fs, i: nat) {
    |f'.inodes| == |f.inodes| && forall j: nat :: j < |f.inodes| && j != i ==> f'.inodes[j] == f.inodes[j]
  }

  /** What a call does to the file system. */
  ghost predicate Does(f: Fs, call: Call, f': Fs) {
    match call
    case WriteCall(i, off, data) =>
      && Live(f, i) && OthersSame(f, f', i) && FsBytes.Written(f, f', i, off, data)
      && f'.inodes[i].size == if off + |data| > f.inodes[i].size then off + |data| else f.inodes[i].size
    case FreeCall(i) => Live(f, i) && !Live(f', i) && OthersSame(f, f', i) && f'.blocks == f.blocks
    case AllocCall(i, kind) =>
      i < |f.inodes| && !Live(f, i) && f' == SetInode(f, i, Dinode(kind, 0, 0, 0, 0, NoAddrs()))
  }

  /** The log_write calls of `t`, made on disk `d`, do what `call` promises, and keep the file system
      consistent. */
  ghost predicate IsCall(sb: Super, d: Disk, call: Call, t: Trace) {
    && Consistent(sb, d) && Consistent(sb, Replay(d, t)) && OnHome(sb, t)
    && Does(Decode(sb, d), call, Decode(sb, Replay(d, t)))
  }

  lemma SteadyIsConsistent(fs: FileSystem)
    requires Steady(fs)
    ensures Consistent(fs.sb, fs.raw)
  {
  }

  // ---- The transactions -------------------------------------------------------------------

  /** One transaction of filewrite. */
  method WriteChunkCall(fs: FileSystem, f: OpenFile, chunk: seq<byte>) returns (w: WriteResult)
    requires Steady(fs) && Synced(fs, f.ip) && |chunk| <= CHUNK
    modifies fs`raw, fs`own, fs`logged, fs`base, fs`trace, f.ip`addrs, f.ip`size, f`off
    ensures w.Written? ==> Steady(fs) && Synced(fs, f.ip) && fs.raw == Replay(old(fs.raw), fs.trace)
    ensures w.Written? ==> IsCall(fs.sb, old(fs.raw), WriteCall(f.ip.inum, old(f.off), chunk), fs.trace)
    ensures w.Written? ==> |Touches(fs.trace)| <= MAXOPBLOCKS
  {
    SteadyIsConsistent(fs);
    ghost var cost;
    w, cost := WriteTransaction(fs, f, chunk, f.off + |chunk|, f.off / BSIZE, EndBlock(f.off, |chunk|));
    if w.Written? {
      SteadyIsConsistent(fs);
    }
  }

  /** iput of the last reference to an unlinked file, in a transaction of its own. */
  method FreeFileCall(fs: FileSystem, ip: Inode)
    requires Steady(fs) && ip.ref == 1 && ip.valid && ip.nlink == 0 && ip.inum < fs.sb.ninodes
    requires ip.kind != 0 && fs.F().inodes[ip.inum] == ip.Copy()
    modifies fs`raw, fs`own, fs`logged, fs`base, fs`trace, ip
    ensures Steady(fs) && fs.raw == Replay(old(fs.raw), fs.trace)
    ensures IsCall(fs.sb, old(fs.raw), FreeCall(ip.inum), fs.trace)
    ensures Touches(fs.trace) == TruncLogs(fs.sb, old(fs.F()), ip.inum)
  {
    SteadyIsConsistent(fs);
    fs.Begin();
    var freed := Iput(fs, ip);
    SteadyIsConsistent(fs);
  }

  /** ialloc, in a transaction of its own. */
  method AllocInodeCall(fs: FileSystem, kind: short) returns (ok: bool, inum: nat)
    requires Steady(fs) && kind != 0
    modifies fs`raw, fs`logged, fs`base, fs`trace
    ensures ok == exists i: nat :: 1 <= i < fs.sb.ninodes && !Live(old(fs.F()), i)
    ensures Steady(fs) && fs.raw == Replay(old(fs.raw), fs.trace)
    ensures ok ==> IsCall(fs.sb, old(fs.raw), AllocCall(inum, kind), fs.trace)
  {
    SteadyIsConsistent(fs);
    fs.Begin();
    ok, inum := Ialloc(fs, kind);
    SteadyIsConsistent(fs);
  }

  // ---- The log area does not matter -----------------------------------------------------------

  /** The disks differ in the log area at most. */
  ghost predicate SameHome(sb: Super, d: Disk, e: Disk) {
    |d| == |e| && forall b: nat :: b < |d| && !Layout(sb.logstart, sb.nlog).InLog(b) ==> e[b] == d[b]
  }

  lemma DecodeSame(sb: Super, d: Disk, e: Disk)
    requires sb.Good() && |d| == sb.size && SameHome(sb, d, e)
    ensures Decode(sb, e) == Decode(sb, d)
  {
    BitsSame(sb, d, e);
    InodesSame(sb, d, e);
    DataSame(sb, d, e);
  }

  lemma SameConsistent(sb: Super, d: Disk, e: Disk)
    requires Consistent(sb, d) && SameHome(sb, d, e)
    ensures Consistent(sb, e)
  {
    DecodeSame(sb, d, e);
  }

  lemma {:induction false} ReplaySame(sb: Super, d: Disk, e: Disk, t: Trace)
    requires SameHome(sb, d, e)
    ensures SameHome(sb, Replay(d, t), Replay(e, t))
  {
    match t
    case Boot =>
    case Then(before, _) => ReplaySame(sb, d, e, before);
  }

  /** A call is the same call on a disk that differs in the log area only. */
  lemma CallElsewhere(sb: Super, d: Disk, e: Disk, call: Call, t: Trace)
    requires IsCall(sb, d, call, t) && SameHome(sb, d, e)
    ensures IsCall(sb, e, call, t)
  {
    ReplaySame(sb, d, e, t);
    SameConsistent(sb, d, e);
    SameConsistent(sb, Replay(d, t), Replay(e, t));
    DecodeSame(sb, d, e);
    DecodeSame(sb, Replay(d, t), Replay(e, t));
  }

  // ---- One call after the other ------------------------------------------------------------

  datatype History = Nothing | Did(before: History, call: Call, t: Trace)

  ghost function TraceOf(h: History): Trace {
    match h
    case Nothing => Boot
    case Did(before, _, t) => Cat(TraceOf(before), t)
  }

  /** The calls of `h`, one after the other from disk `d`. */
  ghost predicate Serial(sb: Super, d: Disk, h: History) {
    match h
    case Nothing => true
    case Did(before, call, t) => Serial(sb, d, before) && IsCall(sb, Replay(d, TraceOf(before)), call, t)
  }

  lemma SerialConsistent(sb: Super, d: Disk, h: History)
    requires Serial(sb, d, h) && Consistent(sb, d)
    ensures Consistent(sb, Replay(d, TraceOf(h)))
  {
    if h.Did? {
      ReplayCat(d, TraceOf(h.before), h.t);
    }
  }

  function Join(g: History, h: History): History {
    match h
    case Nothing => g
    case Did(before, call, t) => Did(Join(g, before), call, t)
  }

  lemma {:induction false} JoinTrace(g: History, h: History)
    ensures TraceOf(Join(g, h)) == Cat(TraceOf(g), TraceOf(h))
  {
    match h
    case Nothing =>
    case Did(before, _, t) =>
      JoinTrace(g, before);
      CatAssociates(TraceOf(g), TraceOf(before), t);
  }

  lemma {:induction false} JoinSerial(sb: Super, d: Disk, g: History, h: History)
    requires Serial(sb, d, g) && Serial(sb, Replay(d, TraceOf(g)), h)
    ensures Serial(sb, d, Join(g, h)) && Replay(d, TraceOf(Join(g, h))) == Replay(Replay(d, TraceOf(g)), TraceOf(h))
  {
    JoinTrace(g, h);
    ReplayCat(d, TraceOf(g), TraceOf(h));
    match h
    case Nothing =>
    case Did(before, _, _) => JoinSerial(sb, d, g, before);
  }
}
