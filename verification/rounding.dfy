/**
 Decimal rounding and the percentage metric of math.go, over the reals.

 The Go code works on float64; here every value is an exact `real`, so the laws
 below hold of the arithmetic the code means, not of its floating-point image.
 */
module Rounding {

  /** 10 raised to a number of decimal places: `math.Pow(10, float64(precision))`, and the bound of a field of that width. */
  function Pow10(p: nat): (r: nat)
    ensures r >= 1
    ensures p > 0 ==> r >= 10
  {
    if p == 0 then 1 else 10 * Pow10(p - 1)
  }

  function Abs(x: real): (r: real)
    ensures r >= 0.0
    ensures r == x || r == -x
  {
    if x < 0.0 then -x else x
  }

  /** Go's conversion `int(f)` of a float: truncation toward zero. */
  function Trunc(x: real): (n: int)
    ensures Abs(n as real) <= Abs(x) < Abs(n as real) + 1.0
    ensures 0.0 <= x ==> 0 <= n
    ensures x <= 0.0 ==> n <= 0
  {
    if x < 0.0 then -((-x).Floor) else x.Floor
  }

  /** `math.Copysign(m, x)` for a magnitude m: m carrying the sign of x. */
  function Copysign(m: real, x: real): (r: real)
    requires m >= 0.0
    ensures Abs(r) == m
    ensures x < 0.0 ==> r <= 0.0
    ensures 0.0 <= x ==> 0.0 <= r
  {
    if x < 0.0 then -m else m
  }

  /**
   `round`: add one half carrying the sign of the input, then truncate.
   The two interval clauses pin the result down uniquely: the nearest integer,
   with halves rounded away from zero.
   */
  function Round(x: real): (n: int)
    ensures 0.0 <= x ==> x - 0.5 < n as real <= x + 0.5
    ensures x < 0.0 ==> x - 0.5 <= n as real < x + 0.5
  {
    Trunc(x + Copysign(0.5, x))
  }

  /** Rounding commutes with negation (half away from zero is symmetric). */
  lemma RoundNegate(x: real)
    ensures Round(-x) == -Round(x)
  {
  }

  /** The rounding error never exceeds one half. */
  lemma RoundError(x: real)
    ensures Abs(Round(x) as real - x) <= 0.5
  {
  }

  /** Integers are fixed points of rounding. */
  lemma RoundInteger(k: int)
    ensures Round(k as real) == k
  {
  }

  /** Rounding is monotone. */
  lemma RoundMonotone(x: real, y: real)
    requires x <= y
    ensures Round(x) <= Round(y)
  {
  }

  /** Halves go away from zero: k + 1/2 rounds to k + 1, and its negation to -(k + 1). */
  lemma RoundHalfAwayFromZero(k: nat)
    ensures Round(k as real + 0.5) == k + 1
    ensures Round(-(k as real + 0.5)) == -(k + 1)
  {
    RoundNegate(k as real + 0.5);
  }

  /**
   x shifted p decimal places to the left, one factor of ten at a time.
   ScaleProduct shows this is x * Pow10(p); keeping the product out of the
   definition keeps the rounding proofs in linear arithmetic.
   */
  function ScaleUp(x: real, p: nat): real
  {
    if p == 0 then x else 10.0 * ScaleUp(x, p - 1)
  }

  /** x shifted p decimal places to the right: x / Pow10(p). */
  function ScaleDown(x: real, p: nat): real
  {
    if p == 0 then x else ScaleDown(x, p - 1) / 10.0
  }

  /** The shifts are the multiplication and division by `math.Pow(10, precision)` of the source. */
  lemma {:induction false} ScaleProduct(x: real, p: nat)
    ensures ScaleUp(x, p) == x * Pow10(p) as real
    ensures ScaleDown(x, p) == x / Pow10(p) as real
  {
    if p > 0 {
      ScaleProduct(x, p - 1);
    }
  }

  /** Multiplying and dividing by the same non-zero factor cancel. */
  lemma Cancel(x: real, f: real)
    requires f != 0.0
    ensures x * f / f == x
    ensures x / f * f == x
  {
  }

  /** Shifting left and right are inverse. */
  lemma ScaleInverse(x: real, p: nat)
    ensures ScaleDown(ScaleUp(x, p), p) == x
    ensures ScaleUp(ScaleDown(x, p), p) == x
  {
    var f := Pow10(p) as real;
    assert ScaleDown(ScaleUp(x, p), p) == x by {
      ScaleProduct(x, p);
      ScaleProduct(x * f, p);
      Cancel(x, f);
    }
    assert ScaleUp(ScaleDown(x, p), p) == x by {
      ScaleProduct(x, p);
      ScaleProduct(x / f, p);
      Cancel(x, f);
    }
  }

  /** Both shifts are additive and monotone. */
  lemma {:induction false} ScaleLinear(x: real, y: real, p: nat)
    ensures ScaleUp(x - y, p) == ScaleUp(x, p) - ScaleUp(y, p)
    ensures ScaleDown(x - y, p) == ScaleDown(x, p) - ScaleDown(y, p)
    ensures x <= y ==> ScaleUp(x, p) <= ScaleUp(y, p)
    ensures x <= y ==> ScaleDown(x, p) <= ScaleDown(y, p)
  {
    if p > 0 {
      ScaleLinear(x, y, p - 1);
    }
  }

  /**
   `toFixed`: round a value to p decimal places. The result is a whole number
   of units of the p-th decimal place: the nearest whole number to x in those
   units, which is x shifted left by p places and rounded.
   */
  function ToFixed(x: real, p: nat): (r: real)
    ensures ScaleUp(r, p) == Round(ScaleUp(x, p)) as real
  {
    var n := Round(ScaleUp(x, p));
    ScaleInverse(n as real, p);
    ScaleDown(n as real, p)
  }

  /** Rounding zero gives zero at every precision. */
  lemma ToFixedZero(p: nat)
    ensures ToFixed(0.0, p) == 0.0
  {
    ScaleLinear(0.0, 0.0, p);
    RoundInteger(0);
  }

  /** A value already at precision p is left alone: ToFixed is idempotent. */
  lemma ToFixedIdempotent(x: real, p: nat)
    ensures ToFixed(ToFixed(x, p), p) == ToFixed(x, p)
  {
    var n := Round(ScaleUp(x, p));
    ScaleInverse(n as real, p);
    RoundInteger(n);
  }

  /** ToFixed commutes with negation. */
  lemma ToFixedNegate(x: real, p: nat)
    ensures ToFixed(-x, p) == -ToFixed(x, p)
  {
    var n := Round(ScaleUp(x, p));
    ScaleLinear(0.0, x, p);
    ScaleLinear(0.0, 0.0, p);
    RoundNegate(ScaleUp(x, p));
    ScaleLinear(0.0, n as real, p);
  }

  /** ToFixed is within half a unit of the last kept decimal place, 0.5 / Pow10(p). */
  lemma ToFixedError(x: real, p: nat)
    ensures Abs(ToFixed(x, p) - x) <= ScaleDown(0.5, p)
  {
    var up := ScaleUp(x, p);
    var n := Round(up);
    RoundError(up);
    ScaleInverse(x, p);
    ScaleLinear(n as real, up, p);
    var e := n as real - up;
    if e < 0.0 {
      ScaleLinear(0.0, e, p);
      ScaleLinear(0.0, 0.0, p);
      ScaleLinear(-e, 0.5, p);
    } else {
      ScaleLinear(0.0, e, p);
      ScaleLinear(0.0, 0.0, p);
      ScaleLinear(e, 0.5, p);
    }
  }

  /** The error bound of ToFixedError is half of the p-th decimal unit. */
  lemma HalfUnit(p: nat)
    ensures ScaleDown(0.5, p) == 0.5 / Pow10(p) as real
  {
    ScaleProduct(0.5, p);
  }

  /** ToFixed is monotone. */
  lemma ToFixedMonotone(x: real, y: real, p: nat)
    requires x <= y
    ensures ToFixed(x, p) <= ToFixed(y, p)
  {
    ScaleLinear(x, y, p);
    RoundMonotone(ScaleUp(x, p), ScaleUp(y, p));
    ScaleLinear(Round(ScaleUp(x, p)) as real, Round(ScaleUp(y, p)) as real, p);
  }

  /** A reference value that does not round to zero is not zero: the division it guards is defined. */
  lemma GuardedDivision(y: real, p: nat)
    requires ToFixed(y, p) != 0.0
    ensures y != 0.0
  {
    if y == 0.0 {
      ToFixedZero(p);
    }
  }

  /**
   `PercentDiff`: the difference of x from the reference y, as a percentage of y,
   rounded to p places; 0 when y itself rounds to 0 at p places.
   */
  function PercentDiff(x: real, y: real, p: nat): (r: real)
    ensures ToFixed(y, p) == 0.0 ==> r == 0.0
    ensures x == y ==> r == 0.0
  {
    var value :=
      if ToFixed(y, p) == 0.0 then 0.0
      else (GuardedDivision(y, p); (x - y) / y);
    ToFixedZero(p);
    assert value * 100.0 == 0.0 ==> ToFixed(value * 100.0, p) == 0.0;
    ToFixed(value * 100.0, p)
  }

  /** When the guard passes, PercentDiff is the exact relative difference up to rounding. */
  lemma PercentDiffError(x: real, y: real, p: nat)
    requires ToFixed(y, p) != 0.0
    ensures y != 0.0
    ensures Abs(PercentDiff(x, y, p) - (x - y) / y * 100.0) <= ScaleDown(0.5, p)
  {
    GuardedDivision(y, p);
    ToFixedError((x - y) / y * 100.0, p);
  }

  /** A measured value at or above a positive reference never gives a negative percentage. */
  lemma PercentDiffSign(x: real, y: real, p: nat)
    requires 0.0 < y <= x
    ensures PercentDiff(x, y, p) >= 0.0
  {
    ToFixedZero(p);
    if ToFixed(y, p) != 0.0 {
      assert (x - y) / y >= 0.0;
      ToFixedMonotone(0.0, (x - y) / y * 100.0, p);
    }
  }

  /** `toKm`: metres to kilometres, rounded to p places. */
  function ToKm(metres: real, p: nat): (r: real)
    ensures metres == 0.0 ==> r == 0.0
  {
    ToFixedZero(p);
    ToFixed(metres / 1000.0, p)
  }

  /** ToKm is the kilometre value up to half a unit in the last place. */
  lemma ToKmError(metres: real, p: nat)
    ensures Abs(ToKm(metres, p) - metres / 1000.0) <= ScaleDown(0.5, p)
  {
    ToFixedError(metres / 1000.0, p);
  }
}
