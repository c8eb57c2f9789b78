/** Fixed-point decimals as scaled integers, and the one rounding rule the
    backend uses: `Decimal.quantize(..., rounding=ROUND_HALF_UP)`, which rounds
    to the nearest representable value and sends an exact half away from zero. */
module FixedPoint {

  /** `r` is the integer nearest to `n / d`; an exact half goes away from zero.
      This is the reference meaning of ROUND_HALF_UP, stated without division. */
  ghost predicate IsHalfUp(n: int, d: int, r: int)
    requires d > 0
  {
    if n >= 0 then 2 * d * r - d <= 2 * n < 2 * d * r + d
    else 2 * d * r - d < 2 * n <= 2 * d * r + d
  }

  lemma DivModBounds(a: int, b: int)
    requires b > 0
    ensures b * (a / b) <= a < b * (a / b) + b
  {
    assert a == b * (a / b) + a % b;
  }

  /** `n / d` rounded half-up to an integer: for `n >= 0` this is `(2n + d) / (2d)`,
      and a negative `n` is rounded as its magnitude and negated. */
  function RoundHalfUp(n: int, d: int): (r: int)
    requires d > 0
    ensures IsHalfUp(n, d, r)
    ensures n >= 0 ==> r >= 0
    ensures n <= 0 ==> r <= 0
  {
    if n >= 0 then
      var q := (2 * n + d) / (2 * d);
      DivModBounds(2 * n + d, 2 * d);
      q
    else
      var q := (2 * -n + d) / (2 * d);
      DivModBounds(2 * -n + d, 2 * d);
      -q
  }

  lemma {:induction false} ProductBelow(d: int, k: int)
    requires d > 0
    requires d * k < d
    ensures k < 1
  {
  }

  /** The reference meaning admits exactly one integer, so `RoundHalfUp` is
      THE half-up rounding and not merely one of several candidates. */
  lemma {:induction false} HalfUpUnique(n: int, d: int, r1: int, r2: int)
    requires d > 0
    requires IsHalfUp(n, d, r1) && IsHalfUp(n, d, r2)
    ensures r1 == r2
  {
    assert 2 * d * r1 - 2 * d * r2 < 2 * d;
    assert 2 * d * r2 - 2 * d * r1 < 2 * d;
    assert 2 * d * r1 - 2 * d * r2 == (2 * d) * (r1 - r2);
    assert 2 * d * r2 - 2 * d * r1 == (2 * d) * (r2 - r1);
    ProductBelow(2 * d, r1 - r2);
    ProductBelow(2 * d, r2 - r1);
  }

  /** A value already on the target grid is left alone by rounding. */
  lemma {:induction false} RoundExact(k: int, d: int)
    requires d > 0
    ensures RoundHalfUp(k * d, d) == k
  {
    var r := RoundHalfUp(k * d, d);
    assert IsHalfUp(k * d, d, k) by {
      assert 2 * d * k == 2 * (k * d);
    }
    HalfUpUnique(k * d, d, r, k);
  }

  /** Rounding is monotone: a larger quantity never rounds to a smaller value. */
  lemma {:induction false} RoundMonotone(a: int, b: int, d: int)
    requires d > 0
    requires a <= b
    ensures RoundHalfUp(a, d) <= RoundHalfUp(b, d)
  {
    var ra := RoundHalfUp(a, d);
    var rb := RoundHalfUp(b, d);
    assert 2 * d * ra - d < 2 * d * rb + d;
    assert 2 * d * ra - 2 * d * rb == (2 * d) * (ra - rb);
    ProductBelow(2 * d, ra - rb);
  }

  /** Multiplying by a non-negative factor preserves order. */
  lemma MulMonotone(a: int, b: int, c: int)
    requires a <= b && c >= 0
    ensures a * c <= b * c
  {
    assert b * c - a * c == (b - a) * c;
  }
}
