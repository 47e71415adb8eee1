/** C integer widths, written out: the arithmetic of the modelled code is unbounded in Dafny. */
module CInt {
  const INT_MAX: int := 0x7FFF_FFFF
  const INT_MIN: int := -0x8000_0000
  const TWO_32: int := 0x1_0000_0000
  const TWO_64: int := 0x1_0000_0000_0000_0000

  type Byte = b: int | 0 <= b < 256

  predicate IsInt(x: int) { INT_MIN <= x <= INT_MAX }

  /** Two's complement truncation to a 32-bit `int`. */
  function ToInt(x: int): int {
    var low := x % TWO_32;
    if low > INT_MAX then low - TWO_32 else low
  }

  /** Truncation to `unsigned int`. */
  function ToUInt(x: int): int { x % TWO_32 }

  lemma WrapIsIdentityOnInts(x: int)
    requires IsInt(x)
    ensures ToInt(x) == x && ToInt(ToUInt(x)) == x
  {
    if x < 0 { assert ToUInt(x) == x + TWO_32; }
  }

  lemma UnsignedIsKept(u: int)
    requires 0 <= u < TWO_32
    ensures ToUInt(ToInt(u)) == u
  {
    if u > INT_MAX { assert ToInt(u) == u - TWO_32; }
  }

  /** Truncation to a 64-bit `unsigned long`. */
  function ToULong(x: int): int { x % TWO_64 }

  lemma ULongValue(x: int)
    requires -TWO_64 <= x < TWO_64
    ensures ToULong(x) == if x < 0 then x + TWO_64 else x
  {
  }

  /** C's division: truncation toward zero. */
  function CDiv(a: int, b: int): int
    requires b != 0
  {
    if a >= 0 then a / b else -((-a) / b)
  }

  /** n * m, by repeated addition: keeps the arithmetic of loop counters linear. */
  function Times(n: nat, m: int): int { if n == 0 then 0 else Times(n - 1, m) + m }

  lemma {:induction false} TimesIsProduct(n: nat, m: int)
    ensures Times(n, m) == n * m
  {
    if n > 0 { TimesIsProduct(n - 1, m); }
  }

  lemma QuotientIs(x: int, d: int, q: int, r: int)
    requires d > 0 && 0 <= r < d && x == d * q + r
    ensures x / d == q && x % d == r
  {
    var k := x / d;
    assert x == d * k + x % d && -d < r - x % d < d;
    assert d * (k - q) == r - x % d;
    NoSmallMultiple(d, k - q);
  }

  lemma NoSmallMultiple(d: int, k: int)
    requires d > 0 && -d < d * k < d
    ensures k == 0
  {
    ProductNonNegative(d, k - 1);
    ProductNonNegative(d, -k - 1);
  }

  lemma ProductNonNegative(a: int, b: int)
    ensures a >= 0 && b >= 0 ==> a * b >= 0
  {
  }

  /** Counting up by one moves the quotient exactly at the multiples. */
  lemma NextQuotient(c: int, d: int)
    requires d > 0
    ensures c / d == if c % d == 0 then (c - 1) / d + 1 else (c - 1) / d
  {
    var q, r := (c - 1) / d, (c - 1) % d;
    if r + 1 == d { QuotientIs(c, d, q + 1, 0); } else { QuotientIs(c, d, q, r + 1); }
  }

  /** c / d, counted up from 0: keeps division out of loops that count. */
  function Quotient(c: nat, d: int): nat
    requires d > 0
  {
    if c == 0 then 0 else Quotient(c - 1, d) + if c % d == 0 then 1 else 0
  }

  lemma {:induction false} QuotientIsDivision(c: nat, d: int)
    requires d > 0
    ensures Quotient(c, d) == c / d
  {
    if c > 0 {
      QuotientIsDivision(c - 1, d);
      NextQuotient(c, d);
    }
  }

  lemma QuotientInside(c: nat, d: int, q: nat)
    requires d > 0 && Times(q, d) <= c < Times(q + 1, d)
    ensures Quotient(c, d) == q
  {
    TimesIsProduct(q, d);
    QuotientIs(c, d, q, c - Times(q, d));
    QuotientIsDivision(c, d);
  }

  function Max(a: int, b: int): int { if a < b then b else a }

  function Min(a: int, b: int): int { if a < b then a else b }
}
