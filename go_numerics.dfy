/**
 * Go's fixed-width integers and its numeric conversions, written out over
 * Dafny's unbounded integers and exact reals.
 */
module GoNumerics {

  /** Go's `byte`, the unit of a Go string. */
  type byte = bv8

  /** Go's `uint8` taken as a number: the type of a colour channel. */
  type Uint8 = x: int | 0 <= x < 256

  /** Go's `int` and `int64` on a 64-bit platform. */
  type Int64 = x: int | -0x8000_0000_0000_0000 <= x < 0x8000_0000_0000_0000

  predicate IsInt64(x: int) {
    -0x8000_0000_0000_0000 <= x < 0x8000_0000_0000_0000
  }

  /** Two's-complement wrap-around of a 64-bit integer operation's exact result. */
  function Wrap64(x: int): (r: Int64)
    ensures (x - r) % 0x1_0000_0000_0000_0000 == 0
    ensures IsInt64(x) ==> r == x
  {
    (x + 0x8000_0000_0000_0000) % 0x1_0000_0000_0000_0000 - 0x8000_0000_0000_0000
  }

  /**
   * Go's `%` on integers: the quotient is truncated toward zero, so the
   * remainder takes the sign of the dividend (Dafny's `%` never is negative).
   */
  function Rem(a: int, b: int): (r: int)
    requires b > 0
    ensures a >= 0 ==> 0 <= r < b
    ensures a < 0 ==> -b < r <= 0
    ensures a == Quot(a, b) * b + r
  {
    DivMod(if a >= 0 then a else -a, b);
    if a >= 0 then a % b else -((-a) % b)
  }

  /** Go's `/` on integers: the quotient truncated toward zero. */
  function Quot(a: int, b: int): int
    requires b > 0
  {
    if a >= 0 then a / b else -((-a) / b)
  }

  /** Euclidean division of a natural number, spelled out for a divisor that is not a literal. */
  lemma DivMod(n: nat, b: int)
    requires b > 0
    ensures n == (n / b) * b + n % b
    ensures 0 <= n % b < b
    ensures 0 <= n / b
    ensures n >= b ==> 1 <= n / b
    ensures n >= b && b >= 2 ==> n / b < n
  {
    var q, r := n / b, n % b;
    assert n == q * b + r;
    if n >= b && q < 1 {
      assert false;
    }
    if n >= b && b >= 2 {
      assert q * b >= q * 2;
    }
  }

  /**
   * Go's conversion of a floating-point value to an integer type: the
   * fraction is discarded, rounding toward zero.
   */
  function Trunc(x: real): (n: int)
    ensures 0.0 <= x ==> 0 <= n && n as real <= x < n as real + 1.0
    ensures x < 0.0 ==> n <= 0 && n as real - 1.0 < x <= n as real
  {
    if x >= 0.0 then x.Floor else -((-x).Floor)
  }

  /** Truncation of a value that is already whole gives it back. */
  lemma TruncOfInt(n: int)
    ensures Trunc(n as real) == n
  {
  }

  /** A value between two whole numbers, the lower not negative, truncates to a number between them. */
  lemma TruncWithin(x: real, lo: int, hi: int)
    requires 0 <= lo && lo as real <= x <= hi as real
    ensures lo <= Trunc(x) <= hi
  {
  }

  /** On values not below zero truncation is monotonic. */
  lemma TruncMonotonic(x: real, y: real)
    requires 0.0 <= x <= y
    ensures Trunc(x) <= Trunc(y)
  {
  }
}
