/** The on-disk redo log of log.c: what its header block says, the block writes that commit
    and recovery issue, and which home-block contents survive a crash between any two. */
module LogDisk {
  import opened Blocks

  const MAXOPBLOCKS: nat := 10
  const LOGSIZE: nat := 3 * MAXOPBLOCKS

  /** Buffers in the cache. */
  const NBUF: nat := 3 * MAXOPBLOCKS

  type Disk = seq<Block>

  /** One atomic block write. */
  datatype Write = Write(block: nat, data: Block)

  /** Where the log lives: header block `start`, data blocks `start+1 .. start+size-1`. */
  datatype Layout = Layout(start: nat, size: nat) {
    predicate InLog(b: nat) { start <= b < start + size }
    predicate Fits(d: Disk) { 0 < size && start + size <= |d| }
  }

  /** The disk after one write. A block number beyond the disk changes nothing; every write of
      commit and recovery is in range. */
  function Put(d: Disk, w: Write): (r: Disk)
    ensures |r| == |d|
  {
    if w.block < |d| then d[w.block := w.data] else d
  }

  /** The block writes a machine has issued since it booted, oldest first. */
  datatype Trace = Boot | Then(before: Trace, last: Write)

  /** The disk those writes leave. */
  ghost function Replay(d: Disk, t: Trace): (r: Disk)
    ensures |r| == |d|
  {
    match t
    case Boot => d
    case Then(before, w) => Put(Replay(d, before), w)
  }

  /** The blocks they write. */
  ghost function Touches(t: Trace): set<nat> {
    match t
    case Boot => {}
    case Then(before, w) => Touches(before) + {w.block}
  }

  /** The writes of `a`, then those of `t`. */
  ghost function Cat(a: Trace, t: Trace): Trace {
    match t
    case Boot => a
    case Then(before, w) => Then(Cat(a, before), w)
  }

  lemma {:induction false} ReplayCat(d: Disk, a: Trace, t: Trace)
    ensures Replay(d, Cat(a, t)) == Replay(Replay(d, a), t)
  {
    match t
    case Boot =>
    case Then(before, _) => ReplayCat(d, a, before);
  }

  lemma {:induction false} CatAssociates(a: Trace, b: Trace, t: Trace)
    ensures Cat(a, Cat(b, t)) == Cat(Cat(a, b), t)
  {
    match t
    case Boot =>
    case Then(before, _) => CatAssociates(a, b, before);
  }

  // ---- The header block -------------------------------------------------------------

  function HeadCount(h: Block): word { GetWord(h, 0) }

  /** The block numbers a header lists: `n`, then `block[0..n]`. */
  function Head(h: Block): (lh: seq<nat>)
    requires HeadCount(h) <= LOGSIZE
    ensures |lh| == HeadCount(h)
  {
    seq(HeadCount(h), i requires 0 <= i < HeadCount(h) => GetWord(h, i + 1))
  }

  /** write_head's buffer: `n` and the first `k` entries are overwritten, the rest of the old
      header block stays as it was. */
  function PutHead(h: Block, lh: seq<word>, k: nat): Block
    requires k <= |lh| <= LOGSIZE
    decreases k
  {
    if k == 0 then PutWord(h, 0, |lh|)
    else PutWord(PutHead(h, lh, k - 1), k, lh[k - 1])
  }

  lemma {:induction false} PutHeadWord(h: Block, lh: seq<word>, k: nat, j: nat)
    requires j <= k <= |lh| <= LOGSIZE
    ensures GetWord(PutHead(h, lh, k), j) == if j == 0 then |lh| else lh[j - 1]
    decreases k
  {
    if k == 0 {
      PutGetWord(h, 0, |lh|, 0);
    } else {
      PutGetWord(PutHead(h, lh, k - 1), k, lh[k - 1], j);
      if j < k { PutHeadWord(h, lh, k - 1, j); }
    }
  }

  lemma HeadRoundTrip(h: Block, lh: seq<word>)
    requires |lh| <= LOGSIZE
    ensures HeadCount(PutHead(h, lh, |lh|)) == |lh|
    ensures Head(PutHead(h, lh, |lh|)) == lh
  {
    var r := PutHead(h, lh, |lh|);
    PutHeadWord(h, lh, |lh|, 0);
    forall i: nat | i < |lh| ensures GetWord(r, i + 1) == lh[i] { PutHeadWord(h, lh, |lh|, i + 1); }
  }

  /** Where struct logheader's fields lie: the count, then the block numbers. */
  lemma HeadFormat(h: Block, lh: seq<word>)
    requires |lh| <= LOGSIZE
    ensures var r := PutHead(h, lh, |lh|);
            UintAt(r, 0) == |lh| && forall i: nat :: i < |lh| ==> UintAt(r, 4 + 4 * i) == lh[i]
  {
    var r := PutHead(h, lh, |lh|);
    PutHeadWord(h, lh, |lh|, 0);
    forall i: nat | i < |lh| ensures UintAt(r, 4 + 4 * i) == lh[i] {
      PutHeadWord(h, lh, |lh|, i + 1);
      assert UintAt(r, 4 * (i + 1)) == GetWord(r, i + 1);
    }
  }

  // ---- Well-formed transactions -----------------------------------------------------

  predicate Differ(s: seq<nat>, i: nat, j: nat) {
    i < |s| && j < |s| && s[i] != s[j]
  }

  /** No block is listed twice. */
  predicate Distinct(s: seq<nat>) {
    forall i: nat, j: nat :: i < j < |s| ==> Differ(s, i, j)
  }

  /** A list of distinct home blocks on a disk of `size` blocks, short enough for the header. */
  ghost predicate Listable(lay: Layout, size: nat, lh: seq<nat>) {
    && 0 < lay.size && lay.start + lay.size <= size <= 0x1_0000_0000
    && |lh| <= LOGSIZE
    && Distinct(lh)
    && forall i :: 0 <= i < |lh| ==> lh[i] < size && !lay.InLog(lh[i])
  }

  /** Such a list whose blocks also fit the log area, behind the header. */
  ghost predicate GoodList(lay: Layout, size: nat, lh: seq<nat>) {
    Listable(lay, size, lh) && |lh| < lay.size
  }

  /** A disk whose header describes a committed transaction or an empty one. */
  ghost predicate GoodDisk(lay: Layout, d: Disk) {
    && lay.Fits(d)
    && HeadCount(d[lay.start]) <= LOGSIZE
    && GoodList(lay, |d|, Head(d[lay.start]))
  }

  /** Where `b` stands in `s`, or `|s|` if it does not. */
  ghost function IndexOf(s: seq<nat>, b: nat): (i: nat)
    ensures i <= |s|
    ensures b in s <==> i < |s|
    ensures i < |s| ==> s[i] == b
  {
    if b in s then var i: nat :| i < |s| && s[i] == b; i else |s|
  }

  lemma IndexOfListed(s: seq<nat>, i: nat)
    requires Distinct(s) && i < |s|
    ensures IndexOf(s, s[i]) == i
  {
    var j := IndexOf(s, s[i]);
    assert (j < i ==> Differ(s, j, i)) && (i < j ==> Differ(s, i, j));
  }

  // ---- What a crash preserves -------------------------------------------------------

  /** Block `b` once the blocks listed in `lh` have been copied from the log. */
  ghost function Installed(lay: Layout, d: Disk, lh: seq<nat>, b: nat): Block
    requires GoodList(lay, |d|, lh) && b < |d|
  {
    var i := IndexOf(lh, b);
    if i < |lh| then d[lay.start + 1 + i] else d[b]
  }

  /** The content of home block `b` that recovery will leave behind: the logged copy if the
      header lists `b`, the home copy otherwise. */
  ghost function Durable(lay: Layout, d: Disk, b: nat): Block
    requires GoodDisk(lay, d) && b < |d|
  {
    Installed(lay, d, Head(d[lay.start]), b)
  }

  // ---- Recovery ---------------------------------------------------------------------

  /** recover_from_log on `disk` whose header lists `lh`; also the end of commit. */
  datatype Recovery = Recovery(lay: Layout, disk: Disk, lh: seq<nat>) {
    ghost predicate Good() { lay.Fits(disk) && GoodList(lay, |disk|, lh) }

    /** install_trans copies each logged block home, then write_head clears the header. */
    ghost function Op(i: nat): Write
      requires Good() && i <= |lh|
    {
      if i < |lh| then Write(lh[i], disk[lay.start + 1 + i])
      else Write(lay.start, PutHead(disk[lay.start], [], 0))
    }

    const Steps: nat := |lh| + 1

    /** The disk after the first `k` writes. */
    ghost function Stage(k: nat): (r: Disk)
      requires Good() && k <= Steps
      ensures |r| == |disk|
    {
      if k == 0 then disk else Put(Stage(k - 1), Op(k - 1))
    }

    /** The trace `t` followed by the first `k` writes. */
    ghost function After(t: Trace, k: nat): Trace
      requires Good() && k <= Steps
    {
      if k == 0 then t else Then(After(t, k - 1), Op(k - 1))
    }

    ghost function StageAt(k: nat, b: nat): Block
      requires Good() && k <= Steps && b < |disk|
    {
      var i := IndexOf(lh, b);
      if b == lay.start && k == Steps then PutHead(disk[b], [], 0)
      else if i < |lh| && i < k then disk[lay.start + 1 + i]
      else disk[b]
    }

    lemma {:induction false} StageIs(k: nat, b: nat)
      requires Good() && k <= Steps && b < |disk|
      ensures Stage(k)[b] == StageAt(k, b)
    {
      assert lay.InLog(lay.start);
      if k > 0 {
        StageIs(k - 1, b);
        if k <= |lh| { IndexOfListed(lh, k - 1); }
      }
    }
  }

  ghost function RecoveryOf(lay: Layout, d: Disk): (r: Recovery)
    requires GoodDisk(lay, d)
    ensures r.Good()
  {
    Recovery(lay, d, Head(d[lay.start]))
  }

  /** `d` and `e` promise the same home-block contents. */
  ghost predicate SameDurable(lay: Layout, d: Disk, e: Disk) {
    && GoodDisk(lay, d) && GoodDisk(lay, e) && |d| == |e|
    && forall b: nat :: b < |d| && !lay.InLog(b) ==> Durable(lay, e, b) == Durable(lay, d, b)
  }

  lemma RecoverHead(lay: Layout, d: Disk, k: nat)
    requires GoodDisk(lay, d) && k <= RecoveryOf(lay, d).Steps
    ensures var e := RecoveryOf(lay, d).Stage(k);
            && HeadCount(e[lay.start]) <= LOGSIZE
            && Head(e[lay.start]) == if k == RecoveryOf(lay, d).Steps then [] else Head(d[lay.start])
  {
    var r := RecoveryOf(lay, d);
    r.StageIs(k, lay.start);
    assert lay.InLog(lay.start);
    HeadRoundTrip(d[lay.start], []);
  }

  lemma RecoverBlock(r: Recovery, k: nat, b: nat)
    requires r.Good() && k <= r.Steps && b < |r.disk| && !r.lay.InLog(b)
    ensures Installed(r.lay, r.Stage(k), if k == r.Steps then [] else r.lh, b) == Installed(r.lay, r.disk, r.lh, b)
  {
    r.StageIs(k, b);
    var i := IndexOf(r.lh, b);
    if i < |r.lh| {
      var c := r.lay.start + 1 + i;
      r.StageIs(k, c);
      assert r.lay.InLog(c);
    }
  }

  /** A crash anywhere inside recovery loses nothing; a recovery that completes leaves an empty
      log and the promised contents in place. */
  lemma RecoverPrefix(lay: Layout, d: Disk, k: nat)
    requires GoodDisk(lay, d) && k <= RecoveryOf(lay, d).Steps
    ensures SameDurable(lay, d, RecoveryOf(lay, d).Stage(k))
    ensures k == RecoveryOf(lay, d).Steps ==>
              && HeadCount(RecoveryOf(lay, d).Stage(k)[lay.start]) == 0
              && forall b: nat :: b < |d| && !lay.InLog(b) ==> RecoveryOf(lay, d).Stage(k)[b] == Durable(lay, d, b)
  {
    RecoverHead(lay, d, k);
    var r := RecoveryOf(lay, d);
    var e := r.Stage(k);
    forall b: nat | b < |d| && !lay.InLog(b)
      ensures Installed(lay, e, Head(e[lay.start]), b) == Durable(lay, d, b)
    {
      RecoverBlock(r, k, b);
    }
  }

  // ---- Commit -----------------------------------------------------------------------

  /** commit of the blocks `lh` on `disk`, with `view` the contents the cache shows. */
  datatype Txn = Txn(lay: Layout, disk: Disk, view: Disk, lh: seq<nat>) {
    ghost predicate Good() { lay.Fits(disk) && |view| == |disk| && GoodList(lay, |disk|, lh) }

    /** The list is longer than the log area, so write_log runs into the home block behind it. */
    ghost predicate Overruns() {
      lay.Fits(disk) && |view| == |disk| && Listable(lay, |disk|, lh) && lay.size <= |lh| && lay.start + lay.size < |disk|
    }

    const N: nat := |lh|
    const Steps: nat := 2 * N + 2

    ghost function Header(): Block
      requires Good()
    {
      PutHead(disk[lay.start], lh, N)
    }

    /** write_log copies cached blocks to the log, write_head commits, install_trans copies the
        log home, write_head clears the header. */
    ghost function Op(i: nat): Write
      requires Good() && i < Steps
    {
      if i < N then Write(lay.start + 1 + i, view[lh[i]])
      else if i == N then Write(lay.start, Header())
      else if i <= 2 * N then Write(lh[i - N - 1], view[lh[i - N - 1]])
      else Write(lay.start, PutHead(Header(), [], 0))
    }

    /** write_log's writes on a list that overruns the log area, up to the first one outside it. */
    ghost function SpillOp(i: nat): Write
      requires Overruns() && i < lay.size
    {
      Write(lay.start + 1 + i, view[lh[i]])
    }

    /** The disk after the first `k` writes. */
    ghost function Stage(k: nat): (r: Disk)
      requires Good() && k <= Steps
      ensures |r| == |disk|
    {
      if k == 0 then disk else Put(Stage(k - 1), Op(k - 1))
    }

    /** The trace `t` followed by the first `k` writes. */
    ghost function After(t: Trace, k: nat): Trace
      requires Good() && k <= Steps
    {
      if k == 0 then t else Then(After(t, k - 1), Op(k - 1))
    }

    ghost function StageAt(k: nat, b: nat): Block
      requires Good() && k <= Steps && b < |disk|
    {
      var i := IndexOf(lh, b);
      if b == lay.start then
        if k <= N then disk[b] else if k < Steps then Header() else PutHead(Header(), [], 0)
      else if lay.start < b <= lay.start + N && b - lay.start <= k then view[lh[b - lay.start - 1]]
      else if i < N && N + 1 + i < k then view[b]
      else disk[b]
    }

    lemma {:induction false} StageIs(k: nat, b: nat)
      requires Good() && k <= Steps && b < |disk|
      ensures Stage(k)[b] == StageAt(k, b)
    {
      if k > 0 {
        StageIs(k - 1, b);
        if k <= N + 1 {
          LogStep(k, b);
        } else {
          InstallStep(k, b);
        }
      }
    }

    /** One more write changes its block and no other: the log blocks and the header, */
    lemma LogStep(k: nat, b: nat)
      requires Good() && 0 < k <= N + 1 && b < |disk|
      ensures StageAt(k, b) == if b == Op(k - 1).block then Op(k - 1).data else StageAt(k - 1, b)
    {
    }

    /** then the home blocks and the header again. */
    lemma InstallStep(k: nat, b: nat)
      requires Good() && N + 1 < k <= Steps && b < |disk|
      ensures StageAt(k, b) == if b == Op(k - 1).block then Op(k - 1).data else StageAt(k - 1, b)
    {
      if k < Steps {
        IndexOfListed(lh, k - N - 2);
      }
    }
  }

  lemma CommitHead(c: Txn, k: nat)
    requires c.Good() && HeadCount(c.disk[c.lay.start]) == 0 && k <= c.Steps
    ensures var h := c.Stage(k)[c.lay.start];
            HeadCount(h) <= LOGSIZE && Head(h) == if c.N < k < c.Steps then c.lh else []
  {
    c.StageIs(k, c.lay.start);
    HeadRoundTrip(c.disk[c.lay.start], c.lh);
    HeadRoundTrip(c.Header(), []);
  }

  lemma CommitBlock(c: Txn, k: nat, b: nat)
    requires c.Good() && k <= c.Steps && b < |c.disk| && !c.lay.InLog(b)
    ensures Installed(c.lay, c.Stage(k), if c.N < k < c.Steps then c.lh else [], b) ==
            if k > c.N && b in c.lh then c.view[b] else c.disk[b]
  {
    c.StageIs(k, b);
    var i := IndexOf(c.lh, b);
    if i < c.N { c.StageIs(k, c.lay.start + 1 + i); }
  }

  /** A crash anywhere inside commit leaves the old contents promised up to and including the
      last log-area write, and the new contents from the header write on. */
  lemma CommitPrefix(c: Txn, k: nat)
    requires c.Good() && HeadCount(c.disk[c.lay.start]) == 0 && k <= c.Steps
    ensures GoodDisk(c.lay, c.Stage(k))
    ensures forall b: nat :: b < |c.disk| && !c.lay.InLog(b) ==>
              Durable(c.lay, c.Stage(k), b) == if k > c.N && b in c.lh then c.view[b] else c.disk[b]
    ensures k == c.Steps ==> HeadCount(c.Stage(k)[c.lay.start]) == 0
  {
    CommitHead(c, k);
    var e := c.Stage(k);
    forall b: nat | b < |c.disk| && !c.lay.InLog(b)
      ensures Installed(c.lay, e, Head(e[c.lay.start]), b) == if k > c.N && b in c.lh then c.view[b] else c.disk[b]
    {
      CommitBlock(c, k, b);
    }
  }

  // ---- Crash atomicity --------------------------------------------------------------

  /** The disk after a series of recoveries, the i-th cut off after `cuts[i]` writes. */
  ghost function InterruptedRecoveries(lay: Layout, d: Disk, cuts: seq<nat>): (r: Disk)
    requires GoodDisk(lay, d)
    ensures SameDurable(lay, d, r)
    decreases |cuts|
  {
    if cuts == [] then d
    else
      var r := RecoveryOf(lay, d);
      var k := if cuts[0] <= r.Steps then cuts[0] else r.Steps;
      RecoverPrefix(lay, d, k);
      InterruptedRecoveries(lay, r.Stage(k), cuts[1..])
  }

  /** Crash atomicity of commit: stop after any number of its writes, then recover with any
      number of interruptions; once one recovery completes, every home block holds its old
      content or every logged block holds its new content, and which of the two is decided by
      whether the header write reached the disk. */
  lemma CommitIsAtomic(c: Txn, k: nat, cuts: seq<nat>)
    requires c.Good() && HeadCount(c.disk[c.lay.start]) == 0 && k <= c.Steps
    ensures GoodDisk(c.lay, c.Stage(k))
    ensures var r := RecoveryOf(c.lay, InterruptedRecoveries(c.lay, c.Stage(k), cuts));
            && HeadCount(r.Stage(r.Steps)[c.lay.start]) == 0
            && forall b: nat :: b < |c.disk| && !c.lay.InLog(b) ==>
                 r.Stage(r.Steps)[b] == if k > c.N && b in c.lh then c.view[b] else c.disk[b]
  {
    CommitPrefix(c, k);
    var last := InterruptedRecoveries(c.lay, c.Stage(k), cuts);
    RecoverPrefix(c.lay, last, RecoveryOf(c.lay, last).Steps);
  }
}
