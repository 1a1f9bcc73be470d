/** Two-decimal display rounding, as `Number.prototype.toFixed(2)` rounds an exact value. */
module Decimal {

  function Abs(x: real): (r: real)
    ensures r >= 0.0 && (r == x || r == -x)
  {
    if x < 0.0 then -x else x
  }

  /** True when `x` is a whole number of cents. */
  predicate IsCents(x: real) {
    (x * 100.0).Floor as real == x * 100.0
  }

  /** Nearest cent to a non-negative `x`, a tie going to the larger cent. */
  function RoundHalfUp(x: real): (r: real)
    requires x >= 0.0
    ensures r >= 0.0 && IsCents(r)
    ensures x - 0.005 < r <= x + 0.005
  {
    var n := (x * 100.0 + 0.5).Floor;
    assert n as real <= x * 100.0 + 0.5 < n as real + 1.0;
    assert (n as real / 100.0) * 100.0 == n as real;
    n as real / 100.0
  }

  /**
   * `toFixed(2)` on an exact real: the sign is set aside, the magnitude goes to the
   * nearest cent with ties to the larger one, and the sign is put back, so a tie
   * rounds away from zero.
   */
  function ToFixed2(x: real): (r: real)
    ensures IsCents(r)
    ensures -0.005 <= r - x <= 0.005
    ensures x >= 0.0 ==> r >= 0.0
  {
    if x < 0.0 then
      var m := RoundHalfUp(-x);
      CentsNegate(m);
      -m
    else RoundHalfUp(x)
  }

  /** A value that already is a whole number of cents is left as it is. */
  lemma ToFixed2OfCents(x: real)
    requires IsCents(x)
    ensures ToFixed2(x) == x
  {
    var k := (x * 100.0).Floor;
    if x >= 0.0 {
      assert (x * 100.0 + 0.5).Floor == k;
    } else {
      assert (-x) * 100.0 == -(k as real);
      assert ((-x) * 100.0 + 0.5).Floor == -k;
    }
  }

  /** The negation of a whole number of cents is a whole number of cents. */
  lemma CentsNegate(a: real)
    requires IsCents(a)
    ensures IsCents(-a)
  {
    var k := (a * 100.0).Floor;
    assert a * 100.0 == k as real;
    assert (-a) * 100.0 == (-k) as real;
    assert ((-k) as real).Floor == -k;
  }

  /** The difference of two whole numbers of cents is a whole number of cents. */
  lemma CentsDifference(a: real, b: real)
    requires IsCents(a) && IsCents(b)
    ensures IsCents(a - b)
  {
    var i, j := (a * 100.0).Floor, (b * 100.0).Floor;
    assert a * 100.0 == i as real && b * 100.0 == j as real;
    assert (a - b) * 100.0 == (i - j) as real;
    assert ((i - j) as real).Floor == i - j;
  }

  /** A rounding that moves no value by more than half a cent. */
  ghost predicate WithinHalfCent(round: real -> real) {
    forall x: real :: -0.005 <= round(x) - x <= 0.005
  }

  /** A rounding that lands on whole cents and leaves a whole number of cents as it is. */
  ghost predicate LandsOnCents(round: real -> real) {
    forall x: real :: IsCents(round(x)) && (IsCents(x) ==> round(x) == x)
  }

  /** What the rounding lemmas rely on. */
  ghost predicate RoundsToCents(round: real -> real) {
    WithinHalfCent(round) && LandsOnCents(round)
  }

  /** `toFixed(2)` is such a rounding. */
  lemma ToFixed2RoundsToCents()
    ensures RoundsToCents(ToFixed2)
  {
    forall x: real
      ensures IsCents(x) ==> ToFixed2(x) == x
    {
      if IsCents(x) {
        ToFixed2OfCents(x);
      }
    }
  }
}
