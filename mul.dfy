/** Multiplication of decimals: truncating, rounding up, by an integer, on
    192-bit magnitudes, and through a 192-bit intermediate. */
module DecimalMul {
  import opened Bounded
  import opened DecimalBase

  /** `mul` panics when the power of ten of the right operand's scale or the
      product of the magnitudes leaves u128. */
  predicate MulDefined(a: Decimal, b: Decimal)
  {
    Pow10Fits(b.scale) && a.value * b.value < U128_LIMIT
  }

  /** `a * b` at the scale of `a`: the product of the magnitudes divided,
      truncating, by `10^b.scale`; the sign is the exclusive or of the flags,
      even for a zero product. */
  function Mul(a: Decimal, b: Decimal): (r: Decimal)
    requires MulDefined(a, b)
    ensures r.scale == a.scale && r.negative == (a.negative != b.negative)
    ensures r.value * Pow10(b.scale) <= a.value * b.value < (r.value + 1) * Pow10(b.scale)
  {
    FloorDivBracket(a.value * b.value, Denominator(b));
    Decimal(FloorDiv(a.value * b.value, Denominator(b)), a.scale, a.negative != b.negative)
  }

  lemma MulExamples()
    ensures Mul(Decimal(1234, 3, false), Decimal(4321, 5, false)) == Decimal(53, 3, false)
    ensures Mul(Decimal(4, 0, true), Decimal(3, 0, true)) == Decimal(12, 0, false)
    ensures Mul(Decimal(4, 0, true), Decimal(3, 0, false)) == Decimal(12, 0, true)
    ensures Mul(Decimal(4, 0, false), Decimal(3, 0, true)) == Decimal(12, 0, true)
    ensures Mul(Decimal(4, 0, false), Decimal(3, 0, false)) == Decimal(12, 0, false)
    ensures !MulDefined(Decimal(U128_LIMIT - 2, 3, false), Decimal(2, 3, false))
  {
    assert Pow10(3) == 1000 && Pow10(5) == 100000;
    var m := Mul(Decimal(1234, 3, false), Decimal(4321, 5, false));
    DivUnique(1234 * 4321, 100000, 53);
    DivUnique(1234 * 4321, 100000, m.value);
  }

  /** `Mul<u128>`: the magnitude times an integer, scale and sign kept. */
  function MulU128(a: Decimal, n: u128): (r: Decimal)
    requires a.value * n < U128_LIMIT
    ensures r.scale == a.scale && r.negative == a.negative
    ensures SignedValue(r) == SignedValue(a) * n
  {
    Decimal(a.value * n, a.scale, a.negative)
  }

  /** Multiplying by an integer is multiplying by that integer as an unsigned
      decimal of scale zero. */
  lemma MulU128IsMul(a: Decimal, n: u128)
    requires a.value * n < U128_LIMIT
    ensures MulDefined(a, Decimal(n, 0, false))
    ensures MulU128(a, n) == Mul(a, Decimal(n, 0, false))
  {
    var m := Mul(a, Decimal(n, 0, false));
    assert Pow10(0) == 1;
    DivUnique(a.value * n, 1, m.value);
    DivUnique(a.value * n, 1, a.value * n);
  }

  lemma MulU128Example()
    ensures MulU128(Decimal(9876, 2, false), 555) == Decimal(5481180, 2, false)
  {
  }

  /** `mul_up` panics where `mul` does, and also when adding
      `10^b.scale - 1` to the product overflows. */
  predicate MulUpDefined(a: Decimal, b: Decimal)
  {
    Pow10Fits(b.scale) && a.value * b.value + Pow10(b.scale) - 1 < U128_LIMIT
  }

  /** `mul_up`: like `mul`, rounding the magnitude up instead of down. */
  function MulUp(a: Decimal, b: Decimal): (r: Decimal)
    requires MulUpDefined(a, b)
    ensures r.scale == a.scale && r.negative == (a.negative != b.negative)
    ensures (r.value - 1) * Pow10(b.scale) < a.value * b.value <= r.value * Pow10(b.scale)
  {
    var den := Denominator(b);
    var q := CeilDiv(a.value * b.value, den);
    assert q <= a.value * b.value + den - 1 by {
      DivAtMost(a.value * b.value + den - 1, den);
    }
    Decimal(q, a.scale, a.negative != b.negative)
  }

  /** Rounding up gives the truncated product, plus one exactly when the
      division is inexact. */
  lemma MulUpVersusMul(a: Decimal, b: Decimal)
    requires MulUpDefined(a, b)
    ensures MulDefined(a, b)
    ensures MulUp(a, b).value == Mul(a, b).value + (if a.value * b.value % Pow10(b.scale) == 0 then 0 else 1)
  {
    var p, den := a.value * b.value, Pow10(b.scale);
    CeilDivFloor(p, den);
    DivUnique(p, den, Mul(a, b).value);
  }

  lemma MulUpExamples()
    ensures MulUp(Decimal(1, 12, false), Decimal(1, 12, false)) == Decimal(1, 12, false)
    ensures MulUp(Decimal(1000000, 6, false), Decimal(300000, 6, false)) == Decimal(300000, 6, false)
    ensures MulUp(Decimal(100, 2, false), Decimal(0, 0, false)) == Decimal(0, 2, false)
    ensures MulUp(Decimal(1_000_000_000, 9, false), Decimal(3, 6, false)) == Decimal(3000, 9, false)
  {
    Pow10Twelve();
    var den6 := Pow10(6);
    var den12 := Pow10(12);
    var r1 := MulUp(Decimal(1, 12, false), Decimal(1, 12, false));
    DivUnique(1 + den12 - 1, den12, 1);
    var r2 := MulUp(Decimal(1000000, 6, false), Decimal(300000, 6, false));
    DivUnique(1000000 * 300000 + den6 - 1, den6, 300000);
    var r4 := MulUp(Decimal(1_000_000_000, 9, false), Decimal(3, 6, false));
    DivUnique(1_000_000_000 * 3 + den6 - 1, den6, 3000);
  }

  /** `Mul<BigDecimal>`: 192-bit magnitudes; the product is divided by the
      LEFT operand's power of ten. */
  predicate MulBigDefined(a: BigDecimal, b: BigDecimal)
  {
    BigDenominatorFits(a) && a.value * b.value < U192_LIMIT
  }

  function MulBig(a: BigDecimal, b: BigDecimal): (r: BigDecimal)
    requires MulBigDefined(a, b)
    ensures r.scale == a.scale && r.negative == (a.negative != b.negative)
    ensures r.value * Pow10(a.scale) <= a.value * b.value < (r.value + 1) * Pow10(a.scale)
  {
    FloorDivBracket(a.value * b.value, BigDenominator(a));
    BigDecimal(FloorDiv(a.value * b.value, BigDenominator(a)), a.scale, a.negative != b.negative)
  }

  /** For operands of one scale the 192-bit product agrees with `mul`. */
  lemma MulBigAgreesWithMul(a: Decimal, b: Decimal)
    requires a.scale == b.scale && MulDefined(a, b)
    ensures MulBigDefined(Widen(a), Widen(b))
    ensures MulBig(Widen(a), Widen(b)) == Widen(Mul(a, b))
  {
    Pow10FitsU128(b.scale);
  }

  /** `big_mul` panics only when the product leaves 192 bits or the truncated
      quotient leaves u128. */
  predicate BigMulDefined(a: Decimal, b: Decimal)
  {
    Pow10Fits(b.scale) && a.value * b.value < U192_LIMIT
    && (a.value * b.value) / Pow10(b.scale) < U128_LIMIT
  }

  /** `big_mul`: the `mul` formula with a 192-bit intermediate product. */
  function BigMul(a: Decimal, b: Decimal): (r: Decimal)
    requires BigMulDefined(a, b)
    ensures r.scale == a.scale && r.negative == (a.negative != b.negative)
    ensures r.value * Pow10(b.scale) <= a.value * b.value < (r.value + 1) * Pow10(b.scale)
  {
    var p := a.value * b.value;
    var q := FloorDiv(p, Denominator(b));
    FloorDivBracket(p, Denominator(b));
    Decimal(q, a.scale, a.negative != b.negative)
  }

  /** Wherever `mul` succeeds, `big_mul` succeeds with the same result. */
  lemma BigMulExtendsMul(a: Decimal, b: Decimal)
    requires MulDefined(a, b)
    ensures BigMulDefined(a, b) && BigMul(a, b) == Mul(a, b)
  {
    assert Mul(a, b).value == (a.value * b.value) / Pow10(b.scale);
  }

  /** A product that `mul` cannot form but `big_mul` can. */
  lemma BigMulExample()
    ensures !MulDefined(Decimal(U128_LIMIT - 2, 12, false), Decimal(2, 12, false))
    ensures BigMulDefined(Decimal(U128_LIMIT - 2, 12, false), Decimal(2, 12, false))
    ensures BigMul(Decimal(U128_LIMIT - 2, 12, false), Decimal(2, 12, false))
      == Decimal(680_564_733_841_876_926_926_749_214, 12, false)
  {
    Pow10Twelve();
    Pow2Values();
    var p := (U128_LIMIT - 2) * 2;
    DivUnique(p, Pow10(12), 680_564_733_841_876_926_926_749_214);
  }
}
