/**
 * Machine-level types shared by the benchmark model: fixed-width unsigned
 * integers, bytes, the abstract `rand_r` generator, and small wrappers.
 */
module Common {

  const TWO_32: nat := 0x1_0000_0000
  const TWO_64: nat := 0x1_0000_0000_0000_0000

  /** C's `uint32_t`. */
  type uint32 = x: nat | x < 0x1_0000_0000

  /** C's `size_t` / `uint64_t` on a 64-bit target. */
  type uint64 = x: nat | x < 0x1_0000_0000_0000_0000

  /** C's `int`. */
  type int32 = x: int | -0x8000_0000 <= x < 0x8000_0000

  /** One byte of a buffer (`char` as stored by `memcpy` and `memset`). */
  type uint8 = x: int | 0 <= x < 256

  /** Conversion of a mathematical integer to a 64-bit unsigned value, as the
      usual arithmetic conversions of C do (reduction modulo 2^64). */
  function Wrap64(x: int): (r: uint64)
    ensures 0 <= x < TWO_64 ==> r == x
    ensures (r - x) % TWO_64 == 0
  {
    x % TWO_64
  }

  /** Conversion to `uint32_t` (reduction modulo 2^32). */
  function Wrap32(x: int): (r: uint32)
    ensures 0 <= x < TWO_32 ==> r == x
  {
    x % TWO_32
  }

  /** Largest value `rand_r` returns (glibc). */
  const RAND_MAX: nat := 0x7FFF_FFFF

  /** A value `rand_r` may return. */
  type Draw = x: nat | x <= 0x7FFF_FFFF

  /** One call of `rand_r(&seed)`: the value drawn and the seed it leaves. */
  datatype RandResult = RandResult(value: Draw, next: uint32)

  /** `rand_r` as a deterministic function of the seed; its internals belong
      to the C library and are not modelled. */
  type RandR = uint32 -> RandResult

  datatype Option<T> = None | Some(value: T)

  datatype Result<T, E> = Ok(value: T) | Err(error: E)
}

/** Facts about Euclidean division used by the offset proofs. */
module Arith {

  /** Division is determined by any decomposition x == k*m + r with 0 <= r < m. */
  lemma ModUnique(x: int, k: int, r: int, m: int)
    requires m > 0 && 0 <= r < m && x == k * m + r
    ensures x % m == r && x / m == k
  {
    var q, s := x / m, x % m;
    assert x == q * m + s;
    assert (k - q) * m == s - r;
    if k > q {
      MulAtLeast(k - q, m);
    } else if k < q {
      MulAtLeast(q - k, m);
    }
  }

  lemma MulAtLeast(d: int, m: int)
    requires d >= 1 && m >= 0
    ensures d * m >= m
  {
    assert d * m - m == (d - 1) * m;
  }

  /** The quotient brackets the dividend. */
  lemma DivBounds(x: nat, d: nat)
    requires d > 0
    ensures (x / d) * d <= x < (x / d + 1) * d
  {
    assert x == (x / d) * d + x % d;
    assert (x / d + 1) * d == (x / d) * d + d;
  }

  /** The quotient is at most the dividend, and at most 1 when the divisor
      exceeds half the dividend. */
  lemma QuotientBounds(x: nat, d: nat)
    requires d > 0
    ensures x / d <= x
    ensures 2 * d > x ==> x / d <= 1
  {
    var q := x / d;
    assert x == q * d + x % d;
    MulAtLeast(d, q);
    assert d * q == q * d;
    if 2 * d > x {
      if x >= d {
        ModUnique(x, 1, x - d, d);
      } else {
        ModUnique(x, 0, x, d);
      }
    }
  }

  /** Exact division multiplies back. */
  lemma ExactDiv(x: nat, d: nat)
    requires d > 0 && x % d == 0
    ensures (x / d) * d == x
  {
    assert x == (x / d) * d + x % d;
  }

  /** The only multiple of m in [k*m, k*m + m) is k*m. */
  lemma OnlyMultipleInSlot(x: nat, k: nat, m: nat)
    requires m > 0 && x % m == 0 && k * m <= x < k * m + m
    ensures x == k * m
  {
    ModUnique(x, k, x - k * m, m);
  }

  /** (j*c) mod (m*c) == c * (j mod m). */
  lemma ScaledMod(j: nat, m: nat, c: nat)
    requires m > 0 && c > 0
    ensures (j * c) % (m * c) == (j % m) * c
  {
    var q, r := j / m, j % m;
    assert j == q * m + r;
    assert j * c == q * (m * c) + r * c;
    assert r * c < m * c;
    ModUnique(j * c, q, r * c, m * c);
  }

  /** Reducing the left summand first does not change the sum's residue. */
  lemma ModAddLeft(a: nat, b: nat, m: nat)
    requires m > 0
    ensures (a % m + b) % m == (a + b) % m
  {
    var q := a / m;
    assert a == q * m + a % m;
    var t := (a % m + b) / m;
    var s := (a % m + b) % m;
    assert a % m + b == t * m + s;
    assert a + b == (q + t) * m + s;
    ModUnique(a + b, q + t, s, m);
  }

  /** An aligned offset below an aligned size leaves room for a whole chunk. */
  lemma AlignedFits(o: nat, c: nat, size: nat)
    requires c > 0 && o % c == 0 && size % c == 0 && o < size
    ensures o + c <= size
  {
    var k, n := o / c, size / c;
    assert o == k * c;
    assert size == n * c;
    assert k < n;
    MulAtLeast(n - k, c);
    assert (n - k) * c == n * c - k * c;
  }

  /** The sum of two multiples of c is a multiple of c. */
  lemma AlignedSum(a: nat, b: nat, c: nat)
    requires c > 0 && a % c == 0 && b % c == 0
    ensures (a + b) % c == 0
  {
    var x, y := a / c, b / c;
    assert a == x * c && b == y * c;
    assert a + b == (x + y) * c;
    ModUnique(a + b, x + y, 0, c);
  }

  /** The residue of a multiple of c modulo a multiple of c is a multiple of c. */
  lemma AlignedMod(x: nat, c: nat, size: nat)
    requires c > 0 && size > 0 && x % c == 0 && size % c == 0
    ensures (x % size) % c == 0
  {
    var j, m := x / c, size / c;
    assert x == j * c && size == m * c;
    ScaledMod(j, m, c);
    assert x % size == (j % m) * c;
    ModUnique((j % m) * c, j % m, 0, c);
  }
}
