/** pipe.c: a ring buffer of 512 bytes with wrapping 32-bit counters, as a FIFO queue. */
module Pipe {
  import opened Blocks

  const PIPESIZE: nat := 512
  const WRAP: nat := 0x1_0000_0000

  // ---- The counters -------------------------------------------------------------------

  /** Bytes ever written and read, against their wrapped counters: both tests of the code are exact. */
  lemma CountersExact(r: nat, w: nat)
    requires r <= w <= r + PIPESIZE
    ensures (w % WRAP == (r % WRAP + PIPESIZE) % WRAP) <==> w == r + PIPESIZE
    ensures (r % WRAP == w % WRAP) <==> r == w
  {
    WrapSum(r, PIPESIZE);
    WrapDiffers(r, w - r);
    WrapDiffers(w, r + PIPESIZE - w);
  }

  lemma WrapSum(a: nat, b: nat)
    ensures (a % WRAP + b) % WRAP == (a + b) % WRAP
  {
    var q := a / WRAP;
    assert a + b == q * WRAP + (a % WRAP + b);
    WrapShift(q, a % WRAP + b);
  }

  lemma {:induction false} WrapShift(q: nat, x: nat)
    ensures (q * WRAP + x) % WRAP == x % WRAP
  {
    if q > 0 {
      WrapShift(q - 1, x);
      WrapOnce((q - 1) * WRAP + x);
      assert q * WRAP + x == (q - 1) * WRAP + x + WRAP;
    }
  }

  lemma WrapOnce(y: nat)
    ensures (y + WRAP) % WRAP == y % WRAP
  {
  }

  lemma WrapDiffers(a: nat, d: nat)
    requires d < WRAP
    ensures (a % WRAP == (a + d) % WRAP) <==> d == 0
  {
    WrapSum(a, d);
    var x := a % WRAP;
    if x + d >= WRAP {
      WrapOnce(x + d - WRAP);
    }
  }

  /** The slot of the `n`-th byte, from the wrapped counter. */
  lemma SlotExact(n: nat)
    ensures n % WRAP % PIPESIZE == n % PIPESIZE
  {
  }

  /** `n` bytes of the ring, from the slot of byte number `r`. */
  function Ring(d: seq<byte>, r: nat, n: nat): seq<byte>
    requires |d| == PIPESIZE
  {
    seq(n, k requires 0 <= k => d[(r + k) % PIPESIZE])
  }

  lemma SlotsApart(a: nat, b: nat)
    requires a < b < a + PIPESIZE
    ensures a % PIPESIZE != b % PIPESIZE
  {
  }

  /** A byte stored in the next slot is appended. */
  lemma RingPut(d: seq<byte>, r: nat, n: nat, x: byte)
    requires |d| == PIPESIZE && n < PIPESIZE
    ensures Ring(d[(r + n) % PIPESIZE := x], r, n + 1) == Ring(d, r, n) + [x]
  {
    var now, want := Ring(d[(r + n) % PIPESIZE := x], r, n + 1), Ring(d, r, n) + [x];
    forall k | 0 <= k < n + 1 ensures now[k] == want[k] {
      if k < n {
        SlotsApart(r + k, r + n);
      }
    }
  }

  /** The first byte is in the slot of byte number `r`. */
  lemma RingGet(d: seq<byte>, r: nat, n: nat)
    requires |d| == PIPESIZE && 0 < n
    ensures Ring(d, r, n) == [d[r % PIPESIZE]] + Ring(d, r + 1, n - 1)
  {
    var now, want := Ring(d, r, n), [d[r % PIPESIZE]] + Ring(d, r + 1, n - 1);
    forall k | 0 <= k < n ensures now[k] == want[k] {
      assert k > 0 ==> r + 1 + (k - 1) == r + k;
    }
  }

  lemma Shift(a: seq<byte>, x: byte, b: seq<byte>)
    ensures a + ([x] + b) == a + [x] + b
  {
  }

  // ---- What readers and writers have done ---------------------------------------------------

  /** What one process did to the pipe while it held the lock. */
  datatype Event = Wrote(bytes: seq<byte>) | Read(bytes: seq<byte>)

  datatype History = Opened | Then(before: History, e: Event)

  /** Bytes accepted by pipewrite, and bytes returned by piperead, in order. */
  function Accepted(h: History): seq<byte> {
    match h
    case Opened => []
    case Then(b, e) => if e.Wrote? then Accepted(b) + e.bytes else Accepted(b)
  }

  function Returned(h: History): seq<byte> {
    match h
    case Opened => []
    case Then(b, e) => if e.Read? then Returned(b) + e.bytes else Returned(b)
  }

  /** `h` can have left `pending` in a queue of PIPESIZE bytes. */
  ghost predicate Leaves(h: History, pending: seq<byte>) {
    && |pending| <= PIPESIZE
    && match h
       case Opened => pending == []
       case Then(b, e) =>
         exists before :: Leaves(b, before) && if e.Wrote? then pending == before + e.bytes else before == e.bytes + pending
  }

  /** Every byte is read once, in the order of acceptance, and at most PIPESIZE are pending. */
  lemma {:induction false} Fifo(h: History, pending: seq<byte>)
    requires Leaves(h, pending)
    ensures Accepted(h) == Returned(h) + pending && Returned(h) <= Accepted(h)
    ensures |Accepted(h)| - |Returned(h)| == |pending| <= PIPESIZE
  {
    match h
    case Opened =>
    case Then(b, e) =>
      var before :| Leaves(b, before) && if e.Wrote? then pending == before + e.bytes else before == e.bytes + pending;
      Fifo(b, before);
      if e.Wrote? {
        assert Returned(b) + before + e.bytes == Returned(b) + pending;
      } else {
        assert Returned(b) + (e.bytes + pending) == Returned(b) + e.bytes + pending;
      }
  }

  class Pipe {
    const data: array<byte>
    var nread: word
    var nwrite: word
    var readopen: bool
    var writeopen: bool
    ghost var r: nat    // bytes ever read
    ghost var w: nat    // bytes ever written
    ghost var hist: History

    ghost predicate RingOk()
      reads this
    {
      && data.Length == PIPESIZE && r <= w <= r + PIPESIZE
      && nread == r % WRAP && nwrite == w % WRAP
    }

    /** The ring holds what its history of stretches has left in a queue. */
    ghost predicate Valid()
      reads this, data
    {
      RingOk() && Leaves(hist, Pending())
    }

    /** The bytes written and not yet read. */
    ghost function Pending(): seq<byte>
      requires RingOk()
      reads this, data
    {
      Ring(data[..], r, w - r)
    }

    constructor ()
      ensures Valid() && Pending() == [] && hist == Opened && readopen && writeopen && fresh(data)
    {
      data := new byte[PIPESIZE](_ => 0);
      readopen, writeopen := true, true;
      nwrite, nread := 0, 0;
      w, r, hist := 0, 0, Opened;
    }

    /** Append one byte to a pipe that is not full. */
    method Put(x: byte)
      requires RingOk() && w < r + PIPESIZE
      modifies this`nwrite, this`w, data
      ensures RingOk() && w == old(w) + 1 && Pending() == old(Pending()) + [x]
    {
      SlotExact(w);
      WrapSum(w, 1);
      RingPut(data[..], r, w - r, x);
      data[nwrite % PIPESIZE] := x;
      assert data[..] == old(data[..])[w % PIPESIZE := x];
      nwrite := (nwrite + 1) % WRAP;
      w := w + 1;
    }

    /** The stretch of pipewrite from byte `i` to where it sleeps, fails or is done. Then `j` bytes of
        `addr` have been accepted in all. */
    method WriteStretch(addr: seq<byte>, i: nat, killed: bool) returns (j: nat, failed: bool, sleeps: bool)
      requires Valid() && i <= |addr|
      modifies this`nwrite, this`w, this`hist, data
      ensures Valid() && i <= j <= |addr| && Pending() == old(Pending()) + addr[i..j]
      ensures hist == Then(old(hist), Wrote(addr[i..j]))
      ensures j == |addr| <==> !failed && !sleeps
      ensures j < |addr| ==> |Pending()| == PIPESIZE && failed == (!readopen || killed) && sleeps == !failed
    {
      j, failed, sleeps := i, false, false;
      while j < |addr|
        invariant RingOk() && i <= j <= |addr| && Pending() == old(Pending()) + addr[i..j] && hist == old(hist)
        invariant !failed && !sleeps
      {
        CountersExact(r, w);
        if nwrite == (nread + PIPESIZE) % WRAP {
          failed, sleeps := !readopen || killed, readopen && !killed;
          break;
        }
        Put(addr[j]);
        assert addr[i..j + 1] == addr[i..j] + [addr[j]];
        j := j + 1;
      }
      hist := Then(hist, Wrote(addr[i..j]));
    }

    /** Remove the first byte of a pipe that is not empty. */
    method Get() returns (x: byte)
      requires RingOk() && r < w
      modifies this`nread, this`r
      ensures RingOk() && r == old(r) + 1 && old(Pending()) == [x] + Pending()
    {
      SlotExact(r);
      WrapSum(r, 1);
      RingGet(data[..], r, w - r);
      x := data[nread % PIPESIZE];
      nread := (nread + 1) % WRAP;
      r := r + 1;
    }

    /** One round of piperead's loop, `all` being what was pending when it began. */
    method GetMore(taken: seq<byte>, ghost all: seq<byte>) returns (got: seq<byte>)
      requires RingOk() && r < w && all == taken + Pending()
      modifies this`nread, this`r
      ensures RingOk() && |got| == |taken| + 1 && all == got + Pending()
    {
      var x := Get();
      got := taken + [x];
      Shift(taken, x, Pending());
    }

    /** piperead's test before it copies: whether it must sleep. */
    method MustSleep() returns (b: bool)
      requires Valid()
      ensures b <==> Pending() == [] && writeopen
    {
      CountersExact(r, w);
      b := nread == nwrite && writeopen;
    }

    /** piperead's copy: as many bytes as there are, up to `n`. */
    method ReadStretch(n: nat) returns (got: seq<byte>)
      requires Valid()
      modifies this`nread, this`r, this`hist
      ensures Valid() && old(Pending()) == got + Pending()
      ensures hist == Then(old(hist), Read(got))
      ensures |got| == if |old(Pending())| < n then |old(Pending())| else n
    {
      got := [];
      var i := 0;
      while i < n
        invariant RingOk() && 0 <= i <= n && |got| == i && old(Pending()) == got + Pending() && hist == old(hist)
      {
        CountersExact(r, w);
        if nread == nwrite {
          break;
        }
        got := GetMore(got, old(Pending()));
        i := i + 1;
      }
      hist := Then(hist, Read(got));
    }

    /** pipeclose: an end is closed; the page is freed exactly when both are. */
    method Close(writable: bool) returns (freed: bool)
      requires Valid()
      modifies this`readopen, this`writeopen
      ensures Valid() && Pending() == old(Pending()) && hist == old(hist)
      ensures writeopen == (old(writeopen) && !writable) && readopen == (old(readopen) && writable)
      ensures freed <==> !readopen && !writeopen
    {
      if writable {
        writeopen := false;
      } else {
        readopen := false;
      }
      freed := !readopen && !writeopen;
    }
  }

  /** In every pipe, whatever its readers and writers have done, the bytes returned are a prefix of the
      bytes accepted, and what is pending is the rest, `nwrite - nread` bytes as the counters tell. */
  lemma PrefixReturned(p: Pipe)
    requires p.Valid()
    ensures Returned(p.hist) <= Accepted(p.hist) && Accepted(p.hist) == Returned(p.hist) + p.Pending()
    ensures |p.Pending()| == (p.nwrite - p.nread) % WRAP <= PIPESIZE
  {
    Fifo(p.hist, p.Pending());
    PendingCount(p.r, p.w);
  }

  lemma PendingCount(r: nat, w: nat)
    requires r <= w <= r + PIPESIZE
    ensures (w % WRAP - r % WRAP) % WRAP == w - r
  {
  }
}
