/** Directories of fs.c: entries of 16 bytes in a file, and dirlookup's search for a name. */
module FsDir {
  import opened Blocks
  import opened FsModel
  import opened FsLayout
  import opened FsAlloc
  import opened FsBytes
  import opened FsFiles

  const DIRSIZ: nat := 14
  const DIRENT: nat := 16

  // ---- Names ----------------------------------------------------------------------

  /** The name in a field of at most `n` bytes: what comes before the first NUL. */
  function Cut(s: seq<byte>, n: nat): seq<byte> {
    if n == 0 || s == [] || s[0] == 0 then [] else [s[0]] + Cut(s[1..], n - 1)
  }

  function Name(s: seq<byte>): seq<byte> {
    Cut(s, DIRSIZ)
  }

  /** Byte `i` of a C string; its end is a NUL. */
  function CharAt(s: seq<byte>, i: nat): byte {
    if i < |s| then s[i] else 0
  }

  lemma {:induction false} CutStep(s: seq<byte>, t: seq<byte>, i: nat, n: nat)
    requires i <= |s| && i <= |t| && n > 0
    ensures CharAt(s, i) != 0 && CharAt(s, i) == CharAt(t, i) ==>
              i < |s| && i < |t| && (Cut(s[i..], n) == Cut(t[i..], n) <==> Cut(s[i + 1..], n - 1) == Cut(t[i + 1..], n - 1))
    ensures CharAt(s, i) == 0 || CharAt(s, i) != CharAt(t, i) ==> (Cut(s[i..], n) == Cut(t[i..], n) <==> CharAt(s, i) == CharAt(t, i))
  {
    var x, y := s[i..], t[i..];
    if i < |s| && i < |t| {
      assert x[1..] == s[i + 1..] && y[1..] == t[i + 1..];
      if s[i] != 0 && s[i] == t[i] {
        assert Cut(x, n) == [s[i]] + Cut(x[1..], n - 1) && Cut(y, n) == [s[i]] + Cut(y[1..], n - 1);
        assert Cut(x, n)[1..] == Cut(x[1..], n - 1) && Cut(y, n)[1..] == Cut(y[1..], n - 1);
      }
    }
    assert CharAt(s, i) != 0 ==> Cut(x, n)[0] == CharAt(s, i);
    assert CharAt(t, i) != 0 ==> Cut(y, n)[0] == CharAt(t, i);
  }

  /** namecmp: whether strncmp finds the first DIRSIZ bytes equal, up to a NUL in both. */
  method Namecmp(s: seq<byte>, t: seq<byte>) returns (same: bool)
    ensures same <==> Name(s) == Name(t)
  {
    var n: nat, i: nat := DIRSIZ, 0;
    assert s[0..] == s && t[0..] == t;
    while n > 0 && CharAt(s, i) != 0 && CharAt(s, i) == CharAt(t, i)
      invariant i + n == DIRSIZ && i <= |s| && i <= |t| && (Name(s) == Name(t) <==> Cut(s[i..], n) == Cut(t[i..], n))
    {
      CutStep(s, t, i, n);
      n, i := n - 1, i + 1;
    }
    if n == 0 {
      return true;
    }
    CutStep(s, t, i, n);
    return CharAt(s, i) == CharAt(t, i);
  }

  // ---- Entries --------------------------------------------------------------------

  /** Entry `k` of the directory with contents `d`: a 16-bit inode number and a name. */
  function InumAt(d: seq<byte>, k: nat): nat
    requires DIRENT * (k + 1) <= |d|
  {
    d[DIRENT * k] as int + 256 * (d[DIRENT * k + 1] as int)
  }

  function NameAt(d: seq<byte>, k: nat): seq<byte>
    requires DIRENT * (k + 1) <= |d|
  {
    Name(d[DIRENT * k + 2..DIRENT * (k + 1)])
  }

  /** Entry `k` is in use and has the name `name`. */
  predicate Holds(d: seq<byte>, name: seq<byte>, k: nat) {
    DIRENT * (k + 1) <= |d| && InumAt(d, k) != 0 && NameAt(d, k) == Name(name)
  }

  /** Entry `k` is the first one with that name. */
  ghost predicate FirstHolds(d: seq<byte>, name: seq<byte>, k: nat) {
    Holds(d, name, k) && forall j: nat :: j < k ==> !Holds(d, name, j)
  }

  /** The name stands for inode `inum`. */
  ghost predicate Names(d: seq<byte>, name: seq<byte>, inum: nat) {
    exists k: nat :: FirstHolds(d, name, k) && InumAt(d, k) == inum
  }

  /** A name stands for one inode at most. */
  lemma NamesOne(d: seq<byte>, name: seq<byte>, i: nat, j: nat)
    requires Names(d, name, i) && Names(d, name, j)
    ensures i == j
  {
    var k: nat :| FirstHolds(d, name, k) && InumAt(d, k) == i;
    var m: nat :| FirstHolds(d, name, m) && InumAt(d, m) == j;
    assert k < m ==> !Holds(d, name, k);
    assert m < k ==> !Holds(d, name, m);
  }

  datatype LookupResult = Found(inum: nat, off: nat) | Missing | Panicked

  /** dirlookup finds the first entry with the name, and where it is. It finds none exactly if there is
      none, and panics exactly on a file that is no directory, or at a last entry that is cut off. */
  method Dirlookup(fs: FileSystem, dp: Inode, name: seq<byte>) returns (r: LookupResult)
    requires Steady(fs) && Synced(fs, dp)
    modifies fs`raw, fs`own, fs`logged, fs`trace, dp`addrs
    ensures fs.raw == old(fs.raw) && fs.own == old(fs.own) && fs.logged == old(fs.logged) && fs.trace == old(fs.trace) && dp.addrs == old(dp.addrs)
    ensures fs.Ready() && fs.F().inodes[dp.inum].size <= MAXBYTES
    ensures var d := Content(fs.F(), dp.inum);
            match r
            case Found(inum, off) => dp.kind == T_DIR && off % DIRENT == 0 && FirstHolds(d, name, off / DIRENT) && InumAt(d, off / DIRENT) == inum
            case Missing => dp.kind == T_DIR && |d| % DIRENT == 0 && forall k: nat :: !Holds(d, name, k)
            case Panicked => dp.kind != T_DIR || (|d| % DIRENT != 0 && forall k: nat :: !Holds(d, name, k))
  {
    SizeBound(fs, dp);
    if dp.kind != T_DIR {
      return LookupResult.Panicked;
    }
    ghost var k;
    r, k := SearchEntries(fs, dp, name, Content(fs.F(), dp.inum));
    EntryNumber(k);
  }

  /** dirlookup's loop. */
  method SearchEntries(fs: FileSystem, dp: Inode, name: seq<byte>, ghost d: seq<byte>) returns (r: LookupResult, ghost k: nat)
    requires Steady(fs) && Synced(fs, dp) && fs.F().inodes[dp.inum].size <= MAXBYTES && d == Content(fs.F(), dp.inum)
    modifies fs`raw, fs`own, fs`logged, fs`trace, dp`addrs
    ensures fs.raw == old(fs.raw) && fs.own == old(fs.own) && fs.logged == old(fs.logged) && fs.trace == old(fs.trace) && dp.addrs == old(dp.addrs)
    ensures match r
            case Found(inum, off) => off == DIRENT * k && FirstHolds(d, name, k) && InumAt(d, k) == inum
            case Missing => |d| % DIRENT == 0 && forall k: nat :: !Holds(d, name, k)
            case Panicked => |d| % DIRENT != 0 && forall k: nat :: !Holds(d, name, k)
  {
    var off: nat := 0;
    k := 0;
    while off < dp.size
      invariant off == DIRENT * k <= dp.size == |d| && forall j: nat :: j < k ==> !Holds(d, name, j)
      invariant fs.raw == old(fs.raw) && fs.own == old(fs.own) && fs.logged == old(fs.logged) && fs.trace == old(fs.trace) && dp.addrs == old(dp.addrs)
    {
      var e := CompareEntry(fs, dp, name, off, k, d);
      match e {
        case Short =>
          CutOff(d, name, k);
          return LookupResult.Panicked, k;
        case Named(inum) => return Found(inum, off), k;
        case Other =>
      }
      off, k := off + DIRENT, k + 1;
    }
    AllPassed(d, name, k);
    return Missing, k;
  }

  lemma EntryNumber(k: nat)
    ensures DIRENT * k % DIRENT == 0 && DIRENT * k / DIRENT == k
  {
  }

  datatype Compared = Named(inum: nat) | Other | Short

  /** One round of dirlookup's loop. */
  method CompareEntry(fs: FileSystem, dp: Inode, name: seq<byte>, off: nat, ghost k: nat, ghost d: seq<byte>) returns (e: Compared)
    requires Steady(fs) && Synced(fs, dp) && fs.F().inodes[dp.inum].size <= MAXBYTES && d == Content(fs.F(), dp.inum)
    requires off == DIRENT * k < dp.size
    modifies fs`raw, fs`own, fs`logged, fs`trace, dp`addrs
    ensures fs.raw == old(fs.raw) && fs.own == old(fs.own) && fs.logged == old(fs.logged) && fs.trace == old(fs.trace) && dp.addrs == old(dp.addrs)
    ensures match e
            case Short => |d| < DIRENT * (k + 1)
            case Named(inum) => Holds(d, name, k) && InumAt(d, k) == inum
            case Other => DIRENT * (k + 1) <= |d| && !Holds(d, name, k)
  {
    var de := Readi(fs, dp, off, DIRENT);
    if de.Rejected? || |de.data| != DIRENT {
      return Short;
    }
    EntryIs(d, k, de.data, off);
    var inum := de.data[0] as int + 256 * (de.data[1] as int);
    if inum == 0 {
      return Other;
    }
    var same := Namecmp(name, de.data[2..]);
    return if same then Named(inum) else Other;
  }

  /** The bytes read at `off` are entry `k`. */
  lemma EntryIs(d: seq<byte>, k: nat, e: seq<byte>, off: nat)
    requires off == DIRENT * k && off + DIRENT <= |d| && e == d[off..off + DIRENT]
    ensures InumAt(d, k) == e[0] as int + 256 * (e[1] as int) && NameAt(d, k) == Name(e[2..])
  {
    assert e[2..] == d[DIRENT * k + 2..DIRENT * (k + 1)];
  }

  lemma CutOff(d: seq<byte>, name: seq<byte>, k: nat)
    requires DIRENT * k < |d| < DIRENT * (k + 1) && forall j: nat :: j < k ==> !Holds(d, name, j)
    ensures |d| % DIRENT != 0 && forall j: nat :: !Holds(d, name, j)
  {
  }

  lemma AllPassed(d: seq<byte>, name: seq<byte>, k: nat)
    requires |d| == DIRENT * k && forall j: nat :: j < k ==> !Holds(d, name, j)
    ensures |d| % DIRENT == 0 && forall j: nat :: !Holds(d, name, j)
  {
  }

  // ---- The bytes of an entry ------------------------------------------------------------

  /** struct dirent as written: the inode number, and a name cut or padded to DIRSIZ bytes by strncpy. */
  function Dirent(inum: nat, name: seq<byte>): (e: seq<byte>)
    ensures |e| == DIRENT
  {
    var padded: seq<byte> := name + seq(DIRSIZ, _ => 0);
    [inum % 256, inum / 256 % 256] + padded[..DIRSIZ]
  }

  lemma {:induction false} CutPadded(s: seq<byte>, zs: seq<byte>, n: nat)
    requires |zs| >= n && forall i :: 0 <= i < |zs| ==> zs[i] == 0
    ensures Cut((s + zs)[..n], n) == Cut(s, n)
  {
    var t := (s + zs)[..n];
    if n > 0 && s != [] {
      assert t[0] == s[0] && t[1..] == (s[1..] + zs)[..n - 1];
      CutPadded(s[1..], zs, n - 1);
    }
  }

  /** A directory whose `k`-th entry was written as such reads back the number and the name. */
  lemma DirentBack(d: seq<byte>, k: nat, inum: nat, name: seq<byte>)
    requires DIRENT * (k + 1) <= |d| && inum < 0x1_0000 && d[DIRENT * k..DIRENT * (k + 1)] == Dirent(inum, name)
    ensures InumAt(d, k) == inum && NameAt(d, k) == Name(name)
  {
    var e := Dirent(inum, name);
    var zs: seq<byte> := seq(DIRSIZ, _ => 0);
    assert d[DIRENT * k + 2..DIRENT * (k + 1)] == e[2..] == (name + zs)[..DIRSIZ];
    CutPadded(name, zs, DIRSIZ);
    assert d[DIRENT * k] == e[0] && d[DIRENT * k + 1] == e[1];
  }
}
