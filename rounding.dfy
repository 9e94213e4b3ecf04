/** Rounding conversions of `Decimal`: the ceiling rescale, the floor and
    ceiling narrowing to a u64 amount, and the integer test. */
module DecimalRounding {
  import opened Bounded
  import opened Errors
  import opened DecimalBase
  import opened DecimalAdd
  import opened DecimalMul
  import opened DecimalDiv

  /** The operand `to_scale_up` divides or multiplies by: `10^delta` at scale
      zero, carrying the operand's own sign flag. */
  function Shift(d: Decimal, scale: u8): (r: Decimal)
    requires Pow10Fits(if d.scale >= scale then d.scale - scale else scale - d.scale)
    ensures r.scale == 0 && r.negative == d.negative
  {
    var delta := if d.scale >= scale then d.scale - scale else scale - d.scale;
    Pow10FitsU128(delta);
    Decimal(Pow10(delta), 0, d.negative)
  }

  /** `to_scale_up` panics when the power of ten leaves u128, when the ceiling
      division's `value + 10^delta - 1` overflows, or when raising overflows. */
  predicate ToScaleUpDefined(d: Decimal, scale: u8)
  {
    if d.scale >= scale then
      Pow10Fits(d.scale - scale) && d.value + Pow10(d.scale - scale) - 1 < U128_LIMIT
    else
      Pow10Fits(scale - d.scale) && d.value * Pow10(scale - d.scale) < U128_LIMIT
  }

  /** `to_scale_up`: `div_up` by the shift when the scale is lowered or kept,
      `mul_up` by it when raised. Both operands carry the same flag, so the
      result's flag is always clear. */
  function ToScaleUp(d: Decimal, scale: u8): (r: Decimal)
    requires ToScaleUpDefined(d, scale)
    ensures r.scale == scale && !r.negative
    ensures scale <= d.scale ==>
      (r.value - 1) * Pow10(d.scale - scale) < d.value <= r.value * Pow10(d.scale - scale)
    ensures d.scale <= scale ==> r.value == d.value * Pow10(scale - d.scale)
  {
    var shift := Shift(d, scale);
    assert Pow10(0) == 1;
    if d.scale >= scale then
      DivUp(Decimal(d.value, scale, d.negative), shift)
    else
      var m := MulUp(Decimal(d.value, scale, d.negative), shift);
      assert m.value == d.value * Pow10(scale - d.scale);
      m
  }

  /** The ceiling rescale is the truncating one, plus one exactly when digits
      are dropped that are not all zero; only the flag differs. */
  lemma ToScaleUpVersusToScale(d: Decimal, scale: u8)
    requires ToScaleUpDefined(d, scale)
    ensures ToScaleDefined(d, scale)
    ensures ToScaleUp(d, scale).value == ToScale(d, scale).value
      + (if scale < d.scale && d.value % Pow10(d.scale - scale) != 0 then 1 else 0)
    ensures ToScaleUp(d, scale).scale == ToScale(d, scale).scale
  {
    if scale < d.scale {
      DroppedPlacesUp(d, scale);
    } else if scale == d.scale {
      assert Pow10(0) == 1;
    }
  }

  /** Places dropped: the ceiling exceeds the floor by one exactly when the
      dropped digits are not all zero. */
  lemma DroppedPlacesUp(d: Decimal, scale: u8)
    requires ToScaleUpDefined(d, scale) && scale < d.scale
    ensures ToScaleDefined(d, scale)
    ensures ToScaleUp(d, scale).value == ToScale(d, scale).value
      + (if d.value % Pow10(d.scale - scale) != 0 then 1 else 0)
  {
    var p := Pow10(d.scale - scale);
    var up := ToScaleUp(d, scale).value;
    var down := ToScale(d, scale).value;
    DivUnique(d.value, p, down);
    CeilDivFloor(d.value, p);
    CeilDivUnique(d.value, p, up);
  }

  /** Any value meeting the ceiling bracket is the ceiling. */
  lemma CeilDivUnique(a: nat, b: nat, r: nat)
    requires b > 0 && (r - 1) * b < a <= r * b
    ensures CeilDiv(a, b) == r
  {
    var c := CeilDiv(a, b);
    if c < r {
      MulMonotone(c, r - 1, b);
    } else if c > r {
      MulMonotone(r, c - 1, b);
    }
  }

  lemma ToScaleUpExamples()
    ensures ToScaleUp(Decimal(42, 2, false), 3) == Decimal(420, 3, false)
    ensures ToScaleUp(Decimal(42, 2, false), 1) == Decimal(5, 1, false)
    ensures ToScaleUp(Decimal(123, 4, false), 0) == Decimal(1, 0, false)
    ensures ToScaleUp(Decimal(15, 1, true), 0) == Decimal(2, 0, false)
  {
    assert Pow10(1) == 10 && Pow10(4) == 10000;
    CeilDivUnique(42, 10, 5);
    CeilDivUnique(123, 10000, 1);
    CeilDivUnique(15, 10, 2);
  }

  lemma ToScaleExamples()
    ensures ToScale(Decimal(42, 2, false), 3) == Decimal(420, 3, false)
    ensures ToScale(Decimal(42, 2, false), 1) == Decimal(4, 1, false)
    ensures ToScale(Decimal(123, 4, false), 0) == Decimal(0, 0, false)
  {
    assert Pow10(1) == 10 && Pow10(4) == 10000;
    DivUnique(42, 10, 4);
    DivUnique(123, 10000, 0);
  }

  /** `to_scaled_amount`: the truncating rescale narrowed to u64. */
  function ToScaledAmount(d: Decimal, scale: u8): (r: Run<u64>)
    ensures r.Returns? <==> ToScaleDefined(d, scale) && ToScale(d, scale).value < U64_LIMIT
    ensures r.Returns? ==> r.value == Rescale(d.value, d.scale, scale)
  {
    if ToScaleDefined(d, scale) then ToU64(ToScale(d, scale)) else Panics
  }

  /** `to_scaled_amount_up`: the ceiling rescale narrowed to u64. */
  function ToScaledAmountUp(d: Decimal, scale: u8): (r: Run<u64>)
    ensures r.Returns? <==> ToScaleUpDefined(d, scale) && ToScaleUp(d, scale).value < U64_LIMIT
    ensures r.Returns? ==> r.value == ToScaleUp(d, scale).value
  {
    if ToScaleUpDefined(d, scale) then ToU64(ToScaleUp(d, scale)) else Panics
  }

  /** `abs`: the magnitude truncated to an integer, whatever the sign. */
  function Abs(d: Decimal): (r: Run<u64>)
    ensures r.Returns? ==> r.value * Pow10(d.scale) <= d.value < (r.value + 1) * Pow10(d.scale)
    ensures r.Returns? <==> Pow10Fits(d.scale) && d.value / Pow10(d.scale) < U64_LIMIT
  {
    var r := ToScaledAmount(d, 0);
    if Pow10Fits(d.scale) then
      DivUnique(d.value, Pow10(d.scale), Rescale(d.value, d.scale, 0));
      r
    else
      r
  }

  /** `abs_up`: the magnitude rounded up to an integer, whatever the sign. */
  function AbsUp(d: Decimal): (r: Run<u64>)
    ensures r.Returns? ==> (r.value - 1) * Pow10(d.scale) < d.value <= r.value * Pow10(d.scale)
    ensures r.Returns? ==> Pow10Fits(d.scale)
    ensures r.Returns? <==>
      Pow10Fits(d.scale) && d.value + Pow10(d.scale) - 1 < U128_LIMIT && CeilDiv(d.value, Pow10(d.scale)) < U64_LIMIT
  {
    var r := ToScaledAmountUp(d, 0);
    if ToScaleUpDefined(d, 0) then
      CeilDivUnique(d.value, Pow10(d.scale), ToScaleUp(d, 0).value);
      r
    else
      r
  }

  /** The truncated and the rounded-up integer parts differ by one exactly
      when the magnitude has a nonzero fraction. */
  lemma AbsUpVersusAbs(d: Decimal)
    requires AbsUp(d).Returns?
    ensures Abs(d).Returns?
    ensures AbsUp(d).value == Abs(d).value + (if d.value % Pow10(d.scale) == 0 then 0 else 1)
  {
    ToScaleUpVersusToScale(d, 0);
    var p := Pow10(d.scale);
    DivUnique(d.value, p, Rescale(d.value, d.scale, 0));
  }

  lemma AbsExamples()
    ensures Abs(Decimal(0, 0, false)) == Returns(0)
    ensures Abs(Decimal(42, 0, false)) == Returns(42)
    ensures Abs(Decimal(4269420, 5, false)) == Returns(42)
    ensures Abs(Decimal(4269420, 5, true)) == Returns(42)
    ensures AbsUp(Decimal(4269420, 5, false)) == Returns(43)
    ensures AbsUp(Decimal(4269420, 5, true)) == Returns(43)
    ensures ToU64(Decimal(U128_LIMIT - 2, 15, false)) == Panics
  {
    assert Pow10(0) == 1 && Pow10(5) == 100000;
    DivUnique(4269420, 100000, 42);
    CeilDivUnique(4269420, 100000, 43);
  }

  /** `is_integer`: subtracting the value truncated to an integer (and
      brought back to the original scale) leaves zero. Computing the
      truncation panics for a scale above 38. */
  function IsInteger(d: Decimal): (r: Run<bool>)
    ensures r.Returns? <==> Pow10Fits(d.scale)
  {
    if !Pow10Fits(d.scale) then Panics
    else
      var whole := ToScale(d, 0);
      assert ToScaleDefined(whole, d.scale) by {
        MulMonotone(whole.value, d.value / Pow10(d.scale), Pow10(d.scale));
        DivBracket(d.value, Pow10(d.scale));
      }
      var integer := ToScale(whole, d.scale);
      match Sub(d, integer)
      case Ok(diff) => Returns(IsZero(diff))
      case Err(_) => Panics
  }

  /** A decimal is an integer exactly when its magnitude is a multiple of
      `10^scale`. */
  lemma IsIntegerIffDivisible(d: Decimal)
    requires Pow10Fits(d.scale)
    ensures IsInteger(d) == Returns(d.value % Pow10(d.scale) == 0)
  {
    var p := Pow10(d.scale);
    var whole := ToScale(d, 0);
    DivUnique(d.value, p, whole.value);
    assert whole.value * p + d.value % p == d.value;
  }

  lemma IsIntegerExamples()
    ensures IsInteger(Decimal(0, 0, false)) == Returns(true)
    ensures IsInteger(Decimal(42, 0, true)) == Returns(true)
    ensures IsInteger(Decimal(42420, 3, false)) == Returns(false)
    ensures IsInteger(Decimal(42420, 3, true)) == Returns(false)
  {
    assert Pow10(0) == 1 && Pow10(3) == 1000;
    IsIntegerIffDivisible(Decimal(0, 0, false));
    IsIntegerIffDivisible(Decimal(42, 0, true));
    IsIntegerIffDivisible(Decimal(42420, 3, false));
    IsIntegerIffDivisible(Decimal(42420, 3, true));
  }

  /** `zero`, `one` and `two` are the integers 0, 1 and 2 rescaled to the
      compute scale. */
  lemma NamedConstantsRescaled()
    ensures ToScaleDefined(FromU128(1), COMPUTE_SCALE) && ToScale(FromU128(1), COMPUTE_SCALE) == One()
    ensures ToScaleDefined(FromU128(2), COMPUTE_SCALE) && ToScale(FromU128(2), COMPUTE_SCALE) == Two()
    ensures ToScaleDefined(FromU128(0), COMPUTE_SCALE) && ToScale(FromU128(0), COMPUTE_SCALE) == Zero()
  {
    Pow10Twelve();
  }
}
