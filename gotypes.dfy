/**
 * Go's fixed-width integers and the arithmetic the model needs from them.
 * Dafny's integers are unbounded and its `/` is Euclidean; Go wraps on
 * overflow and truncates its quotient toward zero, so both are written out.
 */
module GoTypes {

  const TWO_TO_THE_8: int := 0x100
  const TWO_TO_THE_63: int := 0x8000_0000_0000_0000
  const TWO_TO_THE_64: int := 0x1_0000_0000_0000_0000

  type byte = x: int | 0 <= x < 0x100
  type uint64 = x: int | 0 <= x < 0x1_0000_0000_0000_0000
  /** Go's `int` on a 64-bit platform. */
  type int64 = x: int | -0x8000_0000_0000_0000 <= x < 0x8000_0000_0000_0000

  /** Two's-complement wrap-around of an exact product or sum into int64. */
  function Wrap64(x: int): (r: int64)
    ensures (r - x) % TWO_TO_THE_64 == 0
    ensures -TWO_TO_THE_63 <= x < TWO_TO_THE_63 ==> r == x
  {
    var m := (x + TWO_TO_THE_63) % TWO_TO_THE_64;
    assert x + TWO_TO_THE_63 == TWO_TO_THE_64 * ((x + TWO_TO_THE_63) / TWO_TO_THE_64) + m;
    m - TWO_TO_THE_63
  }

  /**
   * Go's integer quotient: `a == q * b + rem` with `|rem| < b` and the
   * remainder carrying the sign of `a` (truncation toward zero).
   */
  function TruncDiv(a: int, b: int): (q: int)
    requires b > 0
    ensures -b < a - q * b < b
    ensures a >= 0 ==> 0 <= a - q * b
    ensures a <= 0 ==> a - q * b <= 0
    ensures a >= 0 ==> 0 <= q <= a
    ensures a <= 0 ==> a <= q <= 0
  {
    if a >= 0 then
      NatDivBounds(a, b);
      a / b
    else
      NatDivBounds(-a, b);
      -((-a) / b)
  }

  /** Euclidean quotient of naturals, as Dafny defines it, stated without `%`. */
  lemma NatDivBounds(n: int, b: int)
    requires n >= 0 && b > 0
    ensures 0 <= n - n / b * b < b
    ensures 0 <= n / b <= n
  {
    var q, r := n / b, n % b;
    assert n == q * b + r && 0 <= r < b;
    if q < 0 {
      MulNonNegative(-q, b - 1);
      assert false;
    }
    if q > n {
      assert q * b == q * (b - 1) + q;
      MulNonNegative(q, b - 1);
      assert false;
    }
  }

  lemma MulNonNegative(x: int, y: int)
    requires x >= 0 && y >= 0
    ensures x * y >= 0
  {}
}
