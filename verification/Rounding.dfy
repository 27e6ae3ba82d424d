/** metric/math.go: rounding to a fixed number of decimal places, over the reals. */
module Rounding {
  import opened RealArithmetic

  const DEFAULT_DECIMAL_PLACES: int := 4

  /** math.Pow(10, precision). */
  function Pow10(precision: int): real
    decreases if precision < 0 then -precision else precision
  {
    if precision == 0 then 1.0
    else if precision > 0 then 10.0 * Pow10(precision - 1)
    else Pow10(precision + 1) / 10.0
  }

  /** x shifted by the given number of decimal places, pow * x in the source;
      shifting by -precision is the division by pow (lemma ShiftIsPow10). */
  function Shift(x: real, precision: int): real
    decreases if precision < 0 then -precision else precision
  {
    if precision == 0 then x
    else if precision > 0 then 10.0 * Shift(x, precision - 1)
    else Shift(x, precision + 1) / 10.0
  }

  function Ceil(x: real): int {
    -((-x).Floor)
  }

  /** The fractional part math.Modf returns; it carries the sign of its argument. */
  function ModfFraction(x: real): real {
    if x >= 0.0 then x - x.Floor as real else x - Ceil(x) as real
  }

  function RoundDigits(digit: real): int {
    if ModfFraction(digit) >= 0.5 then Ceil(digit) else digit.Floor
  }

  function RoundWithPrecision(val: real, precision: int): real {
    Shift(RoundDigits(Shift(val, precision)) as real, -precision)
  }

  function Round(val: real): real {
    RoundWithPrecision(val, DEFAULT_DECIMAL_PLACES)
  }

  // ---------- decimal shifts ----------

  lemma {:induction false} ShiftTimes(x: real, precision: int)
    ensures Pow10(precision) > 0.0
    ensures Shift(x, precision) == Pow10(precision) * x
    decreases if precision < 0 then -precision else precision
  {
    if precision > 0 {
      ShiftTimes(x, precision - 1);
      ScaledProduct(Pow10(precision - 1), x, 10.0);
    } else if precision < 0 {
      ShiftTimes(x, precision + 1);
      ScaledProduct(Pow10(precision + 1), x, 0.1);
    }
  }

  lemma {:induction false} ShiftOrder(x: real, y: real, precision: int)
    ensures x <= y <==> Shift(x, precision) <= Shift(y, precision)
    decreases if precision < 0 then -precision else precision
  {
    if precision > 0 {
      ShiftOrder(x, y, precision - 1);
    } else if precision < 0 {
      ShiftOrder(x, y, precision + 1);
    }
  }

  lemma {:induction false} ShiftDifference(x: real, y: real, precision: int)
    ensures Shift(x - y, precision) == Shift(x, precision) - Shift(y, precision)
    decreases if precision < 0 then -precision else precision
  {
    if precision > 0 {
      ShiftDifference(x, y, precision - 1);
    } else if precision < 0 {
      ShiftDifference(x, y, precision + 1);
    }
  }

  lemma {:induction false} ShiftBack(x: real, precision: int)
    ensures Shift(Shift(x, precision), -precision) == x
    decreases if precision < 0 then -precision else precision
  {
    if precision > 0 {
      ShiftInside(Shift(x, precision - 1), -precision + 1);
      ShiftBack(x, precision - 1);
      assert Shift(Shift(x, precision - 1), -(precision - 1)) == x;
    } else if precision < 0 {
      ShiftInside(Shift(x, precision + 1) / 10.0, -precision - 1);
      ShiftBack(x, precision + 1);
      assert Shift(Shift(x, precision + 1), -(precision + 1)) == x;
    }
  }

  /** A factor of ten moves through a shift. */
  lemma {:induction false} ShiftInside(x: real, precision: int)
    ensures Shift(10.0 * x, precision) == 10.0 * Shift(x, precision)
    decreases if precision < 0 then -precision else precision
  {
    if precision > 0 {
      ShiftInside(x, precision - 1);
    } else if precision < 0 {
      ShiftInside(x, precision + 1);
    }
  }

  lemma ShiftIsPow10(x: real, precision: int)
    ensures Pow10(precision) > 0.0
    ensures Shift(x, precision) == Pow10(precision) * x
    ensures Shift(x, -precision) == x / Pow10(precision)
  {
    hide Shift;
    hide Pow10;
    ShiftTimes(x, precision);
    ShiftTimes(Shift(x, -precision), precision);
    ShiftBack(x, -precision);
    QuotientOf(Pow10(precision), Shift(x, -precision), x);
  }

  // ---------- one grid unit ----------

  /** Half up on the non-negative side, floor on the negative side. */
  lemma RoundDigitsError(d: real)
    ensures d >= 0.0 ==> d - 0.5 < RoundDigits(d) as real <= d + 0.5
    ensures d < 0.0 ==> RoundDigits(d) == d.Floor
  {
  }

  lemma RoundDigitsMonotone(a: real, b: real)
    requires a <= b
    ensures RoundDigits(a) <= RoundDigits(b)
  {
    RoundDigitsError(a);
    RoundDigitsError(b);
    assert a.Floor <= b.Floor;
    if a >= 0.0 && a.Floor == b.Floor {
      assert ModfFraction(a) <= ModfFraction(b);
    }
  }

  lemma RoundDigitsInteger(k: int)
    ensures RoundDigits(k as real) == k
  {
    assert (k as real).Floor == k;
    assert (-(k as real)) == (-k) as real;
  }

  // ---------- every precision ----------

  /** Larger inputs never round to smaller outputs, whatever their signs. */
  lemma RoundWithPrecisionMonotone(a: real, b: real, precision: int)
    requires a <= b
    ensures RoundWithPrecision(a, precision) <= RoundWithPrecision(b, precision)
  {
    var da, db := Shift(a, precision), Shift(b, precision);
    ShiftOrder(a, b, precision);
    RoundDigitsMonotone(da, db);
    ShiftOrder(RoundDigits(da) as real, RoundDigits(db) as real, -precision);
  }

  /** A rounded value is a fixed point: it already lies on the grid. */
  lemma RoundWithPrecisionIdempotent(val: real, precision: int)
    ensures RoundWithPrecision(RoundWithPrecision(val, precision), precision) == RoundWithPrecision(val, precision)
  {
    var k := RoundDigits(Shift(val, precision));
    ShiftBack(k as real, -precision);
    RoundDigitsInteger(k);
  }

  /** What rounding adds, in units of the grid. */
  function DigitError(val: real, precision: int): real {
    RoundDigits(Shift(val, precision)) as real - Shift(val, precision)
  }

  lemma ErrorIsShifted(val: real, precision: int)
    ensures RoundWithPrecision(val, precision) - val == Shift(DigitError(val, precision), -precision)
  {
    hide Shift;
    hide RoundDigits;
    ShiftDifference(RoundDigits(Shift(val, precision)) as real, Shift(val, precision), -precision);
    ShiftBack(val, precision);
  }

  lemma DigitErrorNearest(val: real, precision: int)
    ensures var d := Shift(val, precision);
      -0.5 <= DigitError(val, precision) <= 0.5 <==> val >= 0.0 || d - d.Floor as real <= 0.5
  {
    hide RoundDigits;
    var d := Shift(val, precision);
    RoundDigitsError(d);
    ShiftDifference(0.0, 0.0, precision);
    ShiftOrder(0.0, val, precision);
    hide Shift;
  }

  /** Rounding is to the nearest grid point, except exactly for negative inputs lying
      more than half a grid unit above the grid point below them. */
  lemma NearestExactlyWhen(val: real, precision: int)
    ensures var unit := Pow10(-precision);
      var d := Shift(val, precision);
      (-0.5 * unit <= RoundWithPrecision(val, precision) - val <= 0.5 * unit) <==>
        (val >= 0.0 || d - d.Floor as real <= 0.5)
  {
    hide Shift;
    hide Pow10;
    hide RoundWithPrecision;
    hide DigitError;
    var e := DigitError(val, precision);
    ErrorIsShifted(val, precision);
    DigitErrorNearest(val, precision);
    ShiftOrder(e, 0.5, -precision);
    ShiftOrder(-0.5, e, -precision);
    ShiftTimes(0.5, -precision);
    ShiftTimes(-0.5, -precision);
  }

  /** A negative input that is not rounded to the nearest grid point. */
  lemma NegativeRoundsAway()
    ensures Round(-0.00001) == -0.0001
  {
    FourPlaces(-0.00001);
    assert (-0.1).Floor == -1;
    FourPlaces(-1.0);
  }

  // ---------- the four decimals every caller uses ----------

  lemma FourPlaces(x: real)
    ensures Shift(x, DEFAULT_DECIMAL_PLACES) == 10000.0 * x
    ensures Shift(x, -DEFAULT_DECIMAL_PLACES) == x / 10000.0
  {
    assert Shift(x, 2) == 100.0 * x;
    assert Shift(x, -2) == x / 100.0;
  }

  /** Four-decimal results are whole numbers of ten-thousandths. */
  lemma RoundOnGrid(val: real)
    ensures Round(val) == RoundDigits(10000.0 * val) as real / 10000.0
  {
    FourPlaces(val);
    FourPlaces(RoundDigits(10000.0 * val) as real);
  }

  lemma RoundGrid(k: int)
    ensures Round(k as real / 10000.0) == k as real / 10000.0
  {
    RoundOnGrid(k as real / 10000.0);
    RoundDigitsInteger(k);
  }

  lemma RoundMonotone(a: real, b: real)
    requires a <= b
    ensures Round(a) <= Round(b)
  {
    RoundWithPrecisionMonotone(a, b, DEFAULT_DECIMAL_PLACES);
  }

  lemma RoundNear(val: real)
    requires val >= 0.0
    ensures val - 0.00005 <= Round(val) <= val + 0.00005
    ensures Round(val) >= 0.0
  {
    RoundOnGrid(val);
    RoundDigitsError(10000.0 * val);
  }

  lemma RoundNegative(val: real)
    requires val < 0.0
    ensures val - 0.0001 < Round(val) <= val
  {
    RoundOnGrid(val);
    RoundDigitsError(10000.0 * val);
  }

  /** A rounded non-negative quotient times its divisor is within the rounding of the dividend. */
  lemma RoundQuotient(n: real, d: real)
    requires n >= 0.0 && d > 0.0
    ensures Round(n / d) >= 0.0
    ensures n - 0.00005 * d <= Round(n / d) * d <= n + 0.00005 * d
  {
    var q := Quotient(n, d);
    RoundNear(q);
    NearQuotient(n, d, q, Round(q), 0.00005);
  }

  lemma NearQuotient(n: real, d: real, q: real, r: real, e: real)
    requires d > 0.0 && q * d == n && q - e <= r <= q + e
    ensures n - e * d <= r * d <= n + e * d
  {
    ProductOrder(q - e, r, d);
    ProductOrder(r, q + e, d);
    Distributes(q, e, d);
    Distributes(q, -e, d);
  }
}
