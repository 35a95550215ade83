/**
 * Exact decimal money and quantities. The source stores `quantidade` and `valor_unit` as
 * `DecimalField`s with two decimal places; here they are exact `real`s, and a stored value is a
 * whole number of hundredths.
 */
module Decimals {
  import opened PyText

  /** `x` has at most two decimal places. */
  predicate IsCents(x: real) {
    (x * 100.0).Floor as real == x * 100.0
  }

  /**
   * A value a `DecimalField(max_digits, decimal_places=2)` column can hold: two decimal places
   * and at most `maxDigits - 2` digits before the point.
   */
  predicate FitsDecimal(x: real, maxDigits: nat)
    requires maxDigits >= 2
  {
    IsCents(x) && -(Pow10(maxDigits - 2) as real) < x < Pow10(maxDigits - 2) as real
  }

  /** `Transacao.quantidade`: `max_digits=20, decimal_places=2`. */
  predicate IsQuantity(x: real) { FitsDecimal(x, 20) }

  /** `Transacao.valor_unit`: `max_digits=12, decimal_places=2`. */
  predicate IsUnitValue(x: real) { FitsDecimal(x, 12) }

  function Abs(x: real): real { if x < 0.0 then -x else x }

  /**
   * Python's `round(d, 2)` on a `Decimal`: the nearest whole number of hundredths, ties going to
   * the even neighbour (the default `ROUND_HALF_EVEN` context).
   */
  function Round2(x: real): (r: real)
    ensures IsCents(r)
    ensures Abs(r - x) <= 0.005
    ensures IsCents(x) ==> r == x
    ensures Abs(r - x) == 0.005 ==> (r * 100.0).Floor % 2 == 0
  {
    var n := RoundHalfEven(x * 100.0);
    var r := n as real / 100.0;
    assert r * 100.0 == n as real && (r - x) * 100.0 == n as real - x * 100.0;
    assert Abs(r - x) * 100.0 == Abs(n as real - x * 100.0);
    r
  }

  /** The whole number nearest to `y`, ties going to the even one. */
  function RoundHalfEven(y: real): (n: int)
    ensures Abs(n as real - y) <= 0.5
    ensures y.Floor as real == y ==> n as real == y
    ensures Abs(n as real - y) == 0.5 ==> n % 2 == 0
  {
    var f := y.Floor;
    var frac := y - f as real;
    if frac < 0.5 then f else if frac > 0.5 then f + 1 else if f % 2 == 0 then f else f + 1
  }

  /** Whole numbers are exact to the cent, so rounding leaves them alone. */
  lemma WholeIsCents(n: int)
    ensures IsCents(n as real)
    ensures Round2(n as real) == n as real
  {
    assert n as real * 100.0 == (n * 100) as real;
  }

  /** No value with two decimal places is strictly closer to `x` than `Round2(x)`. */
  lemma Round2IsNearest(x: real, c: real)
    requires IsCents(c)
    ensures Abs(Round2(x) - x) <= Abs(c - x)
  {
    var r := Round2(x);
    var y := x * 100.0;
    var m := (c * 100.0).Floor;
    var n := (r * 100.0).Floor;
    assert c * 100.0 == m as real;
    assert r * 100.0 == n as real;
    assert Abs(n as real - y) <= 0.5;
    // Any other whole number of hundredths is at least 1 away from `n`, hence at least 1/2 from `y`.
    if m < n {
      assert m as real <= n as real - 1.0;
      assert y - m as real >= 0.5;
    } else if m > n {
      assert m as real >= n as real + 1.0;
      assert m as real - y >= 0.5;
    }
    assert Abs(c - x) * 100.0 == Abs(m as real - y);
    assert Abs(r - x) * 100.0 == Abs(n as real - y);
  }
}
