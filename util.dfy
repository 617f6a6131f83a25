/**
 * The helpers of mstream and pflatency that carry logic: the integer part
 * of `getElapsed` with the time units it divides by, and the preallocation
 * rule of `openFile`, over an abstract file system.
 */
module Util {
  import opened Common
  import Arith

  // ---------------------------------------------------------------------
  // Elapsed time
  // ---------------------------------------------------------------------

  const NSEC_PER_SEC: nat := 1_000_000_000

  /** A `struct timespec`: seconds and nanoseconds, both signed. */
  datatype Timespec = Timespec(sec: int, nsec: int)

  /** A timestamp as `clock_gettime` produces it: nsec within one second. */
  predicate Normalized(t: Timespec)
  {
    0 <= t.nsec < NSEC_PER_SEC
  }

  /** The time stamp on one nanosecond axis. */
  function Nanos(t: Timespec): int
  {
    t.sec * NSEC_PER_SEC + t.nsec
  }

  /** The numerator of `getElapsed`: the seconds difference is multiplied by
      an unsigned 64-bit 10^9, so the whole sum is taken modulo 2^64. */
  function ElapsedNanos(start: Timespec, stop: Timespec): (r: uint64)
    ensures (r - (Nanos(stop) - Nanos(start))) % TWO_64 == 0
    ensures start == stop ==> r == 0
  {
    Wrap64((stop.sec - start.sec) * NSEC_PER_SEC + (stop.nsec - start.nsec))
  }

  /** With normalised, ordered time stamps less than 2^64 ns apart, the
      numerator is the exact non-negative difference. */
  lemma ElapsedIsExact(start: Timespec, stop: Timespec)
    requires Normalized(start) && Normalized(stop)
    requires start.sec < stop.sec || (start.sec == stop.sec && start.nsec <= stop.nsec)
    requires Nanos(stop) - Nanos(start) < TWO_64
    ensures 0 <= Nanos(stop) - Nanos(start)
    ensures ElapsedNanos(start, stop) == Nanos(stop) - Nanos(start)
  {
    if start.sec < stop.sec {
      Arith.MulAtLeast(stop.sec - start.sec, NSEC_PER_SEC);
    }
    assert Nanos(stop) - Nanos(start) == (stop.sec - start.sec) * NSEC_PER_SEC + (stop.nsec - start.nsec);
  }

  /** Consecutive intervals add up modulo 2^64, whatever the time stamps. */
  lemma ElapsedAddsModulo(a: Timespec, b: Timespec, c: Timespec)
    ensures (ElapsedNanos(a, b) + ElapsedNanos(b, c)) % TWO_64 == ElapsedNanos(a, c)
  {
    var x, y := ElapsedNanos(a, b), ElapsedNanos(b, c);
    var dx, dy := Nanos(b) - Nanos(a), Nanos(c) - Nanos(b);
    var p, q := (x - dx) / TWO_64, (y - dy) / TWO_64;
    assert x - dx == p * TWO_64;
    assert y - dy == q * TWO_64;
    var s := ElapsedNanos(a, c);
    var t := (s - (dx + dy)) / TWO_64;
    assert s - (dx + dy) == t * TWO_64;
    assert x + y == (p + q - t) * TWO_64 + s;
    Arith.ModUnique(x + y, p + q - t, s, TWO_64);
  }

  /** For ordered time stamps a <= b <= c, exactly: elapsed(a, b) +
      elapsed(b, c) == elapsed(a, c). */
  lemma ElapsedAdds(a: Timespec, b: Timespec, c: Timespec)
    requires Normalized(a) && Normalized(b) && Normalized(c)
    requires Nanos(a) <= Nanos(b) <= Nanos(c) && Nanos(c) - Nanos(a) < TWO_64
    ensures ElapsedNanos(a, b) + ElapsedNanos(b, c) == ElapsedNanos(a, c)
  {
    OrderedByNanos(a, b);
    OrderedByNanos(b, c);
    OrderedByNanos(a, c);
    ElapsedIsExact(a, b);
    ElapsedIsExact(b, c);
    ElapsedIsExact(a, c);
  }

  /** On normalised stamps the nanosecond order is the (sec, nsec) order. */
  lemma OrderedByNanos(s: Timespec, t: Timespec)
    requires Normalized(s) && Normalized(t) && Nanos(s) <= Nanos(t)
    ensures s.sec < t.sec || (s.sec == t.sec && s.nsec <= t.nsec)
  {
    if s.sec > t.sec {
      Arith.MulAtLeast(s.sec - t.sec, NSEC_PER_SEC);
    }
  }

  /** The `tsunit_t` units. */
  datatype TimeUnit = NSec | USec | MSec | Sec

  /** The enumerator value of each unit: nanoseconds per unit. */
  function UnitDivisor(u: TimeUnit): (d: nat)
    ensures d >= 1
  {
    match u
    case NSec => 1
    case USec => 1000
    case MSec => 1000000
    case Sec => 1000000000
  }

  /** Each unit is 1000 times the previous one, and a second is NSEC_PER_SEC
      nanoseconds. */
  lemma UnitsScaleByThousand()
    ensures UnitDivisor(USec) == 1000 * UnitDivisor(NSec)
    ensures UnitDivisor(MSec) == 1000 * UnitDivisor(USec)
    ensures UnitDivisor(Sec) == 1000 * UnitDivisor(MSec)
    ensures UnitDivisor(Sec) == NSEC_PER_SEC
  {
  }

  /** `getElapsed` with exact division in place of the `double` one. */
  function GetElapsed(start: Timespec, stop: Timespec, u: TimeUnit): (r: real)
    ensures r >= 0.0
    ensures r * UnitDivisor(u) as real == ElapsedNanos(start, stop) as real
  {
    ElapsedNanos(start, stop) as real / UnitDivisor(u) as real
  }

  /** The same interval in seconds times 10^9 is the interval in nanoseconds. */
  lemma SecondsToNanos(start: Timespec, stop: Timespec)
    ensures GetElapsed(start, stop, Sec) * 1000000000.0 == GetElapsed(start, stop, NSec)
  {
    var n := ElapsedNanos(start, stop) as real;
    assert GetElapsed(start, stop, Sec) * 1000000000.0 == n;
  }

  // ---------------------------------------------------------------------
  // openFile
  // ---------------------------------------------------------------------

  /** What `openFile` returns: success, EIO when the open or the `fstat`
      fails, or the `ftruncate` failure passed on. */
  datatype OpenStatus = Opened | Eio | TruncateFailed

  /** The effect of one `openFile` call on the file sizes.  The results of
      the system calls are inputs: the descriptor `open` returns, whether
      `fstat` fails and whether `ftruncate` fails. */
  datatype OpenOutcome = OpenOutcome(sizes: map<string, nat>, status: OpenStatus, truncated: bool)

  /** A failed open or `fstat` is EIO and truncates nothing; the call fails
      otherwise only when the `ftruncate` it needed fails; a successful call
      with preallocation leaves the file exactly `size` bytes long and
      truncates only if it had another size; without preallocation no
      existing file changes size; no other file is ever touched.  The `flags`
      argument is not a parameter: every caller passes O_CREAT | O_RDWR,
      so a missing file is created empty. */
  function OpenEffect(sizes: map<string, nat>, path: string, preallocate: bool, size: uint64,
                      openFd: int, fstatFails: bool, truncateFails: bool): (o: OpenOutcome)
    ensures o.status == Eio <==> openFd < 0 || fstatFails
    ensures o.status == Eio ==> !o.truncated
    ensures o.status == TruncateFailed <==> o.truncated && truncateFails
    ensures openFd >= 0 && !fstatFails && !truncateFails ==> o.status == Opened
    ensures o.status == Opened && preallocate ==> path in o.sizes && o.sizes[path] == size
    ensures o.truncated <==> openFd >= 0 && !fstatFails && preallocate &&
                             (if path in sizes then sizes[path] else 0) != size
    ensures !preallocate ==> !o.truncated && o.status != TruncateFailed
    ensures !preallocate ==> forall f :: f in sizes ==> f in o.sizes && o.sizes[f] == sizes[f]
    ensures forall f :: f != path ==> (f in o.sizes <==> f in sizes)
    ensures forall f :: f != path && f in sizes ==> o.sizes[f] == sizes[f]
  {
    // A successful open with O_CREAT creates a missing file, empty.
    var created := if openFd >= 0 && path !in sizes then sizes[path := 0] else sizes;
    if openFd < 0 || fstatFails then OpenOutcome(created, Eio, false)
    else if preallocate && created[path] != size then
      if truncateFails then OpenOutcome(created, TruncateFailed, true)
      else OpenOutcome(created[path := size], Opened, true)
    else OpenOutcome(created, Opened, false)
  }

  /** Opening with preallocation a second time finds the size already right
      and does nothing more. */
  lemma PreallocateIsIdempotent(sizes: map<string, nat>, path: string, size: uint64, fd: int)
    requires fd >= 0
    ensures var o := OpenEffect(sizes, path, true, size, fd, false, false);
            var o2 := OpenEffect(o.sizes, path, true, size, fd, false, false);
            o2.sizes == o.sizes && !o2.truncated && o2.status == Opened
  {
  }

  /** The files the benchmarks open: name to size in bytes, and the number
      of `ftruncate` calls made so far. */
  class FileSystem {
    var sizes: map<string, nat>
    var truncations: nat

    constructor(initial: map<string, nat>)
      ensures sizes == initial && truncations == 0
    {
      sizes := initial;
      truncations := 0;
    }

    /** `openFile(filename, flags, preallocate, size, &fd)`. */
    method OpenFile(path: string, preallocate: bool, size: uint64,
                    openFd: int, fstatFails: bool, truncateFails: bool)
      returns (fd: int, status: OpenStatus)
      modifies this
      ensures fd == openFd
      ensures var o := OpenEffect(old(sizes), path, preallocate, size, openFd, fstatFails, truncateFails);
              sizes == o.sizes && status == o.status &&
              truncations == old(truncations) + (if o.truncated then 1 else 0)
    {
      fd := openFd;
      if fd >= 0 && path !in sizes {
        sizes := sizes[path := 0];
      }
      if fd < 0 || fstatFails {
        status := Eio;
        return;
      }
      if preallocate && sizes[path] != size {
        truncations := truncations + 1;
        if truncateFails {
          status := TruncateFailed;
          return;
        }
        sizes := sizes[path := size];
      }
      status := Opened;
    }
  }
}
