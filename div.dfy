/** Division of decimals: truncating, rounding up, on 192-bit magnitudes, and
    through a 192-bit intermediate. */
module DecimalDiv {
  import opened Bounded
  import opened DecimalBase
  import opened DecimalMul

  /** `div` panics when the power of ten of the divisor's scale leaves u128,
      when the scaled dividend overflows, or when the divisor is zero. */
  predicate DivDefined(a: Decimal, b: Decimal)
  {
    Pow10Fits(b.scale) && a.value * Pow10(b.scale) < U128_LIMIT && b.value != 0
  }

  /** `a / b` at the scale of `a`: the dividend's magnitude times
      `10^b.scale`, divided (truncating) by the divisor's magnitude; the sign
      is the exclusive or of the flags. */
  function Div(a: Decimal, b: Decimal): (r: Decimal)
    requires DivDefined(a, b)
    ensures r.scale == a.scale && r.negative == (a.negative != b.negative)
    ensures r.value * b.value <= a.value * Pow10(b.scale) < (r.value + 1) * b.value
  {
    FloorDivBracket(a.value * Denominator(b), b.value);
    Decimal(FloorDiv(a.value * Denominator(b), b.value), a.scale, a.negative != b.negative)
  }

  lemma DivExamples()
    ensures Div(Decimal(2, 8, false), Decimal(2, 3, false)) == Decimal(1000, 8, false)
    ensures Div(Decimal(2, 8, false), Decimal(3, 3, false)) == Decimal(666, 8, false)
    ensures Div(Decimal(12, 0, true), Decimal(3, 0, true)) == Decimal(4, 0, false)
    ensures Div(Decimal(12, 0, true), Decimal(3, 0, false)) == Decimal(4, 0, true)
    ensures Div(Decimal(12, 0, false), Decimal(3, 0, true)) == Decimal(4, 0, true)
    ensures Div(Decimal(12, 0, false), Decimal(3, 0, false)) == Decimal(4, 0, false)
    ensures !DivDefined(Decimal(10, 3, false), Decimal(0, 1, false))
  {
    assert Pow10(3) == 1000;
    DivUnique(2000, 2, 1000);
    DivUnique(2000, 3, 666);
    DivUnique(12, 3, 4);
  }

  /** Dividing by one (a magnitude equal to its power of ten) keeps the
      magnitude, and so does multiplying by one. */
  lemma DivByOne(a: Decimal, b: Decimal)
    requires Pow10Fits(b.scale) && b.value == Pow10(b.scale)
    requires a.value * b.value < U128_LIMIT
    ensures DivDefined(a, b) && Div(a, b).value == a.value
    ensures MulDefined(a, b) && Mul(a, b).value == a.value
  {
    var v: nat, p: nat := a.value, b.value;
    MulDivCancel(v, p);
    assert DivDefined(a, b);
    assert MulDefined(a, b);
  }

  /** Multiplying by `b` after dividing by it never exceeds the dividend, and
      misses it by less than one unit of `b`'s magnitude. */
  lemma DivThenMul(a: Decimal, b: Decimal)
    requires DivDefined(a, b)
    ensures MulDefined(Div(a, b), b)
    ensures Mul(Div(a, b), b).value <= a.value
    ensures a.value * Pow10(b.scale) < Div(a, b).value * b.value + b.value
  {
    var d := Div(a, b);
    var q: nat, v: nat, w: nat, den: nat := d.value, a.value, b.value, Pow10(b.scale);
    assert q * w <= v * den < (q + 1) * w;
    assert (q + 1) * w == q * w + w;
    var m: nat := Mul(d, b).value;
    assert m * den <= q * w;
    FloorAtMost(v, den, q * w, m);
  }

  /** A quotient of something at most v * den by den is at most v. */
  lemma FloorAtMost(v: nat, den: nat, x: nat, m: nat)
    requires den > 0 && x <= v * den && m * den <= x
    ensures m <= v
  {
    if m > v {
      MulMonotone(v + 1, m, den);
    }
  }

  /** `div_up` panics where `div` does, and also when adding the divisor's
      magnitude minus one overflows. */
  predicate DivUpDefined(a: Decimal, b: Decimal)
  {
    Pow10Fits(b.scale) && b.value != 0 && a.value * Pow10(b.scale) + b.value - 1 < U128_LIMIT
  }

  /** `div_up`: like `div`, rounding the magnitude up instead of down. */
  function DivUp(a: Decimal, b: Decimal): (r: Decimal)
    requires DivUpDefined(a, b)
    ensures r.scale == a.scale && r.negative == (a.negative != b.negative)
    ensures (r.value - 1) * b.value < a.value * Pow10(b.scale) <= r.value * b.value
  {
    var n := a.value * Denominator(b);
    var q := CeilDiv(n, b.value);
    assert q <= n + b.value - 1 by {
      DivAtMost(n + b.value - 1, b.value);
    }
    Decimal(q, a.scale, a.negative != b.negative)
  }

  /** Rounding up gives the truncated quotient, plus one exactly when the
      division is inexact. */
  lemma DivUpVersusDiv(a: Decimal, b: Decimal)
    requires DivUpDefined(a, b)
    ensures DivDefined(a, b)
    ensures DivUp(a, b).value == Div(a, b).value + (if a.value * Pow10(b.scale) % b.value == 0 then 0 else 1)
  {
    var n := a.value * Pow10(b.scale);
    CeilDivFloor(n, b.value);
    DivUnique(n, b.value, Div(a, b).value);
  }

  lemma DivUpExamples()
    ensures DivUp(Decimal(0, 0, false), Decimal(1, 0, false)) == Decimal(0, 0, false)
    ensures DivUp(Decimal(1, 0, false), Decimal(2, 0, false)) == Decimal(1, 0, false)
    ensures DivUp(Decimal(42, 2, false), Decimal(10, 0, false)) == Decimal(5, 2, false)
    ensures DivUp(Decimal(200_000_000_001, 6, false), Decimal(2_000, 3, false)).value >= 100_000_000_001
    ensures Div(Decimal(2, 0, false), Decimal(3, 6, false)) == Decimal(666666, 0, false)
    ensures DivUp(Decimal(2, 0, false), Decimal(3, 6, false)) == Decimal(666667, 0, false)
  {
    assert Pow10(0) == 1;
    assert Pow10(3) == 1000;
    assert Pow10(6) == 1000000;
    DivUnique(2, 2, 1);
    DivUnique(51, 10, 5);
    DivUnique(2000000, 3, 666666);
    DivUnique(2000002, 3, 666667);
  }

  /** Two and three rescaled to six places: `div_up` rounds the quotient up where `div` truncates. */
  lemma DivUpSixPlaces()
    ensures ToScale(FromU128(2), 6) == Decimal(2_000_000, 6, false)
    ensures ToScale(FromU128(3), 6) == Decimal(3_000_000, 6, false)
    ensures Div(Decimal(2_000_000, 6, false), Decimal(3_000_000, 6, false)) == Decimal(666666, 6, false)
    ensures DivUp(Decimal(2_000_000, 6, false), Decimal(3_000_000, 6, false)) == Decimal(666667, 6, false)
  {
    assert Pow10(0) == 1;
    assert Pow10(6) == 1000000;
    DivUnique(2_000_000 * 1_000_000, 3_000_000, 666666);
    DivUnique(2_000_000 * 1_000_000 + 3_000_000 - 1, 3_000_000, 666667);
  }

  /** `Div<BigDecimal>`: the `div` formula on 192-bit magnitudes. */
  predicate DivBigDefined(a: BigDecimal, b: BigDecimal)
  {
    BigDenominatorFits(b) && a.value * Pow10(b.scale) < U192_LIMIT && b.value != 0
  }

  function DivBig(a: BigDecimal, b: BigDecimal): (r: BigDecimal)
    requires DivBigDefined(a, b)
    ensures r.scale == a.scale && r.negative == (a.negative != b.negative)
    ensures r.value * b.value <= a.value * Pow10(b.scale) < (r.value + 1) * b.value
  {
    FloorDivBracket(a.value * BigDenominator(b), b.value);
    BigDecimal(FloorDiv(a.value * BigDenominator(b), b.value), a.scale, a.negative != b.negative)
  }

  /** On values that fit in a `Decimal`, the 192-bit quotient agrees with
      `div`. */
  lemma DivBigAgreesWithDiv(a: Decimal, b: Decimal)
    requires DivDefined(a, b)
    ensures DivBigDefined(Widen(a), Widen(b))
    ensures DivBig(Widen(a), Widen(b)) == Widen(Div(a, b))
  {
    Pow10FitsU128(b.scale);
  }

  lemma DivBigExample()
    ensures DivBigDefined(BigDecimal(0xFFFF_FFFF_FFFF_FFFE_0000_0000_0000_0001, 0, false),
                          BigDecimal(0xFFFF_FFFF_FFFF_FFFF, 0, false))
    ensures DivBig(BigDecimal(0xFFFF_FFFF_FFFF_FFFE_0000_0000_0000_0001, 0, false),
                   BigDecimal(0xFFFF_FFFF_FFFF_FFFF, 0, false))
      == BigDecimal(0xFFFF_FFFF_FFFF_FFFF, 0, false)
  {
    assert Pow10(0) == 1;
    DivUnique(0xFFFF_FFFF_FFFF_FFFE_0000_0000_0000_0001, 0xFFFF_FFFF_FFFF_FFFF, 0xFFFF_FFFF_FFFF_FFFF);
  }

  /** `big_div` panics only when the scaled dividend leaves 192 bits, the
      divisor is zero, or the quotient leaves u128. */
  predicate BigDivDefined(a: Decimal, b: Decimal)
  {
    Pow10Fits(b.scale) && a.value * Pow10(b.scale) < U192_LIMIT && b.value != 0
    && (a.value * Pow10(b.scale)) / b.value < U128_LIMIT
  }

  /** `big_div`: the `div` formula with a 192-bit intermediate. */
  function BigDiv(a: Decimal, b: Decimal): (r: Decimal)
    requires BigDivDefined(a, b)
    ensures r.scale == a.scale && r.negative == (a.negative != b.negative)
    ensures r.value * b.value <= a.value * Pow10(b.scale) < (r.value + 1) * b.value
  {
    var n := a.value * Denominator(b);
    var q := FloorDiv(n, b.value);
    FloorDivBracket(n, b.value);
    Decimal(q, a.scale, a.negative != b.negative)
  }

  /** Wherever `div` succeeds, `big_div` succeeds with the same result. */
  lemma BigDivExtendsDiv(a: Decimal, b: Decimal)
    requires DivDefined(a, b)
    ensures BigDivDefined(a, b) && BigDiv(a, b) == Div(a, b)
  {
    assert Div(a, b).value == (a.value * Pow10(b.scale)) / b.value;
  }

  lemma BigDivExample()
    ensures BigDivDefined(Decimal(U128_LIMIT - 1, 0, false), Decimal(1, 0, false))
    ensures BigDiv(Decimal(U128_LIMIT - 1, 0, false), Decimal(1, 0, false)) == Decimal(U128_LIMIT - 1, 0, false)
  {
    assert Pow10(0) == 1;
    Pow2Values();
    DivUnique(U128_LIMIT - 1, 1, U128_LIMIT - 1);
  }
}
