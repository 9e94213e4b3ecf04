/** `Pow<BigDecimal> for BigDecimal`: the same closed table of exponents on
    192-bit magnitudes, with structural equality for the guards, no arm for
    other integers and no final rescaling: the result stays at the big
    compute scale. */
module BigDecimalPow {
  import opened Bounded
  import opened Errors
  import opened DecimalBase
  import opened DecimalMul
  import opened DecimalDiv
  import opened DecimalAdd
  import opened DecimalSqrt
  import opened DecimalPow

  /** The guards, tried in order. `minusTwo` is the constant the arm meant
      for `-2` compares with: `+2` as written, `-2` once corrected. */
  function BigSelectArm(positive: bool, x: BigDecimal, minusTwo: BigDecimal): (a: Arm)
    ensures a.ZeroPower? <==> x.value == 0
    ensures IsInverse(a) ==> !positive
    ensures !a.Integer? && !a.InverseInteger?
  {
    if x.value == 0 then ZeroPower
    else if positive && x == BigZeroPointTwoFive() then Quarter
    else if positive && x == BigZeroPointFive() then Half
    else if positive && x == BigOne() then Identity
    else if positive && x == BigOnePointTwoFive() then OneAndQuarter
    else if positive && x == BigOnePointFive() then OneAndHalf
    else if positive && x == BigTwo() then Square
    else if !positive && x == BigNeg(BigZeroPointTwoFive()) then InverseQuarter
    else if !positive && x == BigNeg(BigZeroPointFive()) then InverseHalf
    else if !positive && x == BigNeg(BigOne()) then Inverse
    else if !positive && x == BigNeg(BigOnePointTwoFive()) then InverseOneAndQuarter
    else if !positive && x == BigNeg(BigOnePointFive()) then InverseOneAndHalf
    else if !positive && x == minusTwo then InverseSquare
    else Unsupported
  }

  /** `sqrt().expect("sqrt")` on a `BigDecimal`. */
  function BigRoot(x: BigDecimal): (r: Run<BigDecimal>)
    ensures r.Returns? ==> r.value.scale == x.scale && r.value.negative == x.negative
    ensures r.Returns? ==> RootBracket(r.value.value, x.value * Pow10(x.scale))
  {
    match SqrtBig(x)
    case Panics => Panics
    case Returns(Err(_)) => Panics
    case Returns(Ok(y)) => Returns(y)
  }

  function BigFourthRoot(x: BigDecimal): (r: Run<BigDecimal>)
    ensures r.Returns? ==> r.value.scale == x.scale && r.value.negative == x.negative
  {
    match BigRoot(x)
    case Panics => Panics
    case Returns(y) => BigRoot(y)
  }

  /** `base.mul(y)` once `y` has been computed; the product is divided by
      the power of ten of `base`'s scale. */
  function BigMulBy(base: BigDecimal, y: Run<BigDecimal>): (r: Run<BigDecimal>)
    ensures r.Returns? ==> y.Returns? && MulBigDefined(base, y.value)
    ensures r.Returns? ==> r.value == MulBig(base, y.value)
  {
    match y
    case Panics => Panics
    case Returns(v) => if MulBigDefined(base, v) then Returns(MulBig(base, v)) else Panics
  }

  /** `BigDecimal::one().div(y)` once `y` has been computed. */
  function BigReciprocal(y: Run<BigDecimal>): (r: Run<BigDecimal>)
    ensures r.Returns? ==> y.Returns? && DivBigDefined(BigOne(), y.value)
    ensures r.Returns? ==> r.value == DivBig(BigOne(), y.value)
  {
    match y
    case Panics => Panics
    case Returns(v) => if DivBigDefined(BigOne(), v) then Returns(DivBig(BigOne(), v)) else Panics
  }

  /** The table, as written (`asWritten`) or corrected. As written, the
      square arm multiplies the compute-scale base by the original `self`,
      whose scale `mul` does not divide out, and the `-2` arm compares with
      `+2`. Corrected, the square is `base.mul(base)` and the `-2` arm
      compares with `-2`. */
  function PowBigArms(d: BigDecimal, exp: BigDecimal, asWritten: bool): (r: Run<BigDecimal>)
    ensures r.Returns? ==> r.value.scale == BIG_COMPUTE_SCALE
    ensures r.Returns? ==> BigToScaleDefined(d, BIG_COMPUTE_SCALE) && BigToScaleDefined(exp, BIG_COMPUTE_SCALE)
    decreases if exp.negative then 1 else 0, 1
  {
    if !BigToScaleDefined(d, BIG_COMPUTE_SCALE) || !BigToScaleDefined(exp, BIG_COMPUTE_SCALE) then Panics
    else
      var base := BigToScale(d, BIG_COMPUTE_SCALE);
      var minusTwo := if asWritten then BigTwo() else BigNeg(BigTwo());
      var arm := BigSelectArm(!exp.negative, BigToScale(exp, BIG_COMPUTE_SCALE), minusTwo);
      BigArmResult(arm, d, base, asWritten)
  }

  /** What each arm computes from the original base `d` and the base
      `base` at the big compute scale. */
  function BigArmResult(arm: Arm, d: BigDecimal, base: BigDecimal, asWritten: bool): (r: Run<BigDecimal>)
    requires base.scale == BIG_COMPUTE_SCALE
    ensures r.Returns? ==> r.value.scale == BIG_COMPUTE_SCALE
    decreases if IsInverse(arm) then 1 else 0, 0
  {
    match arm
    case ZeroPower => Returns(BigOne())
    case Quarter => BigFourthRoot(base)
    case Half => BigRoot(base)
    case Identity => Returns(base)
    case OneAndQuarter => BigMulBy(base, BigFourthRoot(base))
    case OneAndHalf => BigMulBy(base, BigRoot(base))
    case Square => BigMulBy(base, Returns(if asWritten then d else base))
    case InverseQuarter => BigReciprocal(PowBigArms(base, BigZeroPointTwoFive(), asWritten))
    case InverseHalf => BigReciprocal(BigRoot(base))
    case Inverse => BigReciprocal(Returns(base))
    case InverseOneAndQuarter => BigReciprocal(PowBigArms(base, BigOnePointTwoFive(), asWritten))
    case InverseOneAndHalf => BigReciprocal(PowBigArms(base, BigOnePointFive(), asWritten))
    case InverseSquare => BigReciprocal(PowBigArms(base, BigTwo(), asWritten))
    case Integer | InverseInteger | Unsupported => Panics
  }

  /** `pow` as the original writes it. */
  function PowBigAsWritten(d: BigDecimal, exp: BigDecimal): Run<BigDecimal>
  {
    PowBigArms(d, exp, true)
  }

  /** `pow` with the square arm squaring the base and the `-2` arm reachable. */
  function PowBig(d: BigDecimal, exp: BigDecimal): Run<BigDecimal>
  {
    PowBigArms(d, exp, false)
  }

  // ---------------------------------------------------------------------
  // Properties

  /** A zero exponent gives one at the big compute scale. */
  lemma PowBigZeroExponent(d: BigDecimal, exp: BigDecimal)
    requires BigToScaleDefined(d, BIG_COMPUTE_SCALE) && BigToScaleDefined(exp, BIG_COMPUTE_SCALE)
    requires BigToScale(exp, BIG_COMPUTE_SCALE).value == 0
    ensures PowBig(d, exp) == Returns(BigOne())
    ensures PowBigAsWritten(d, exp) == Returns(BigOne())
  {
    var x := BigToScale(exp, BIG_COMPUTE_SCALE);
    var base := BigToScale(d, BIG_COMPUTE_SCALE);
    assert BigSelectArm(!exp.negative, x, BigTwo()) == ZeroPower;
    assert BigSelectArm(!exp.negative, x, BigNeg(BigTwo())) == ZeroPower;
    assert BigArmResult(ZeroPower, d, base, true) == Returns(BigOne());
    assert BigArmResult(ZeroPower, d, base, false) == Returns(BigOne());
    assert PowBigArms(d, exp, true) == BigArmResult(ZeroPower, d, base, true);
    assert PowBigArms(d, exp, false) == BigArmResult(ZeroPower, d, base, false);
  }

  /** `x^1` is `x` brought to the big compute scale. */
  lemma PowBigOfOne(d: BigDecimal)
    requires BigToScaleDefined(d, BIG_COMPUTE_SCALE)
    ensures PowBig(d, BigOne()) == Returns(BigToScale(d, BIG_COMPUTE_SCALE))
  {
    BigToScaleSame(BigOne());
    assert BigSelectArm(true, BigOne(), BigNeg(BigTwo())) == Identity;
  }

  /** Off `2` and `-2` the guards pick the same arm whichever constant the
      `-2` arm compares with, and neither square arm. */
  lemma BigArmsAgreeOffTwo(positive: bool, x: BigDecimal)
    requires x != BigTwo() && x != BigNeg(BigTwo())
    ensures BigSelectArm(positive, x, BigTwo()) == BigSelectArm(positive, x, BigNeg(BigTwo()))
    ensures !BigSelectArm(positive, x, BigTwo()).Square?
    ensures !BigSelectArm(positive, x, BigTwo()).InverseSquare?
  {
  }

  /** The positive constants the inverse arms raise the base to are
      computed alike as written and corrected. */
  lemma BigConstantPowersAgree(base: BigDecimal)
    requires base.scale == BIG_COMPUTE_SCALE
    ensures PowBigArms(base, BigZeroPointTwoFive(), true) == PowBigArms(base, BigZeroPointTwoFive(), false)
    ensures PowBigArms(base, BigOnePointTwoFive(), true) == PowBigArms(base, BigOnePointTwoFive(), false)
    ensures PowBigArms(base, BigOnePointFive(), true) == PowBigArms(base, BigOnePointFive(), false)
  {
    BigConstantPowerAgrees(base, BigZeroPointTwoFive());
    BigConstantPowerAgrees(base, BigOnePointTwoFive());
    BigConstantPowerAgrees(base, BigOnePointFive());
  }

  /** A positive exponent other than `2`, already at the big compute
      scale, picks the same arm as written and corrected. */
  lemma BigConstantPowerAgrees(base: BigDecimal, c: BigDecimal)
    requires base.scale == BIG_COMPUTE_SCALE && c.scale == BIG_COMPUTE_SCALE
    requires !c.negative && c != BigTwo()
    ensures PowBigArms(base, c, true) == PowBigArms(base, c, false)
  {
    BigToScaleSame(base);
    BigToScaleSame(c);
    BigArmsAgreeOffTwo(true, c);
  }

  /** Rescaling to the scale a number already has changes nothing. */
  lemma BigToScaleSame(d: BigDecimal)
    requires d.scale == BIG_COMPUTE_SCALE
    ensures BigToScaleDefined(d, BIG_COMPUTE_SCALE) && BigToScale(d, BIG_COMPUTE_SCALE) == d
  {
  }

  /** The corrections change nothing outside the exponents `2` and `-2`. */
  lemma PowBigAgreesOffTwo(d: BigDecimal, exp: BigDecimal)
    requires BigToScaleDefined(exp, BIG_COMPUTE_SCALE)
    requires BigToScale(exp, BIG_COMPUTE_SCALE) != BigTwo()
    requires BigToScale(exp, BIG_COMPUTE_SCALE) != BigNeg(BigTwo())
    ensures PowBig(d, exp) == PowBigAsWritten(d, exp)
  {
    var x := BigToScale(exp, BIG_COMPUTE_SCALE);
    BigArmsAgreeOffTwo(!exp.negative, x);
    if BigToScaleDefined(d, BIG_COMPUTE_SCALE) {
      var base := BigToScale(d, BIG_COMPUTE_SCALE);
      BigArmResultsAgree(BigSelectArm(!exp.negative, x, BigTwo()), d, base);
    }
  }

  /** Every arm but the two square arms computes alike as written and
      corrected. */
  lemma BigArmResultsAgree(arm: Arm, d: BigDecimal, base: BigDecimal)
    requires base.scale == BIG_COMPUTE_SCALE && !arm.Square? && !arm.InverseSquare?
    ensures BigArmResult(arm, d, base, true) == BigArmResult(arm, d, base, false)
  {
    match arm
    case InverseQuarter => BigConstantPowerAgrees(base, BigZeroPointTwoFive());
    case InverseOneAndQuarter => BigConstantPowerAgrees(base, BigOnePointTwoFive());
    case InverseOneAndHalf => BigConstantPowerAgrees(base, BigOnePointFive());
    case _ =>
  }

  /** As written, `x^-2` panics for every base: the exponent carries the
      sign flag and `+2` does not, and no later arm takes it. */
  lemma PowBigAsWrittenMinusTwoPanics(d: BigDecimal)
    ensures PowBigAsWritten(d, BigNeg(BigTwo())) == Panics
  {
    BigToScaleSame(BigNeg(BigTwo()));
    assert BigSelectArm(false, BigNeg(BigTwo()), BigTwo()) == Unsupported;
  }

  /** Corrected, `x^-2` is one over the square of the base. */
  lemma PowBigMinusTwo(d: BigDecimal)
    requires BigToScaleDefined(d, BIG_COMPUTE_SCALE)
    ensures var base := BigToScale(d, BIG_COMPUTE_SCALE);
      PowBig(d, BigNeg(BigTwo())) == BigReciprocal(BigMulBy(base, Returns(base)))
  {
    var base := BigToScale(d, BIG_COMPUTE_SCALE);
    BigSquareOfBase(base);
    MinusTwoSelectsInverseSquare();
    assert BigArmResult(InverseSquare, d, base, false) == BigReciprocal(PowBigArms(base, BigTwo(), false));
  }

  /** Corrected, the square of a base already at the big compute scale is
      the base times itself. */
  lemma BigSquareOfBase(base: BigDecimal)
    requires base.scale == BIG_COMPUTE_SCALE
    ensures PowBigArms(base, BigTwo(), false) == BigMulBy(base, Returns(base))
  {
    BigToScaleSame(base);
    BigToScaleSame(BigTwo());
    assert BigSelectArm(true, BigTwo(), BigNeg(BigTwo())) == Square;
  }

  /** Corrected, `-2` at the big compute scale selects the inverse square
      arm. */
  lemma MinusTwoSelectsInverseSquare()
    ensures BigToScaleDefined(BigNeg(BigTwo()), BIG_COMPUTE_SCALE)
    ensures BigToScale(BigNeg(BigTwo()), BIG_COMPUTE_SCALE) == BigNeg(BigTwo())
    ensures BigSelectArm(false, BigNeg(BigTwo()), BigNeg(BigTwo())) == InverseSquare
  {
    BigToScaleSame(BigNeg(BigTwo()));
  }

  /** The square arm: as written it multiplies the compute-scale base by
      the original operand, corrected by the base itself. */
  lemma PowBigSquare(d: BigDecimal)
    requires BigToScaleDefined(d, BIG_COMPUTE_SCALE)
    ensures var base := BigToScale(d, BIG_COMPUTE_SCALE);
      PowBig(d, BigTwo()) == BigMulBy(base, Returns(base))
    ensures var base := BigToScale(d, BIG_COMPUTE_SCALE);
      PowBigAsWritten(d, BigTwo()) == BigMulBy(base, Returns(d))
  {
    BigToScaleSame(BigTwo());
    assert BigSelectArm(true, BigTwo(), BigTwo()) == Square;
    assert BigSelectArm(true, BigTwo(), BigNeg(BigTwo())) == Square;
  }

  /** As written, `x^2` divides the product by `10^18` although the
      original operand has its own scale: the square comes out right only
      for a base already at the big compute scale. */
  lemma PowBigAsWrittenSquare(d: BigDecimal)
    requires d.scale == BIG_COMPUTE_SCALE
    ensures PowBigAsWritten(d, BigTwo()) == PowBig(d, BigTwo())
  {
    BigToScaleSame(d);
    BigToScaleSame(BigTwo());
    assert BigSelectArm(true, BigTwo(), BigTwo()) == Square;
    assert BigSelectArm(true, BigTwo(), BigNeg(BigTwo())) == Square;
  }

  /** `42^2` from a base of twelve places: `0.001764` as written, `1764`
      corrected. */
  lemma PowBigSquareExample()
    ensures PowBigAsWritten(BigDecimal(42_000000000000, 12, false), BigTwo()) ==
      Returns(BigDecimal(1764_000000000000, 18, false))
    ensures PowBig(BigDecimal(42_000000000000, 12, false), BigTwo()) ==
      Returns(BigDecimal(1764_000000000000000000, 18, false))
  {
    var d := BigDecimal(42_000000000000, 12, false);
    var base := BigDecimal(42_000000000000000000, 18, false);
    SquareExampleArithmetic(d, base);
    BigToScaleSame(BigTwo());
    assert BigSelectArm(true, BigTwo(), BigTwo()) == Square;
    assert BigSelectArm(true, BigTwo(), BigNeg(BigTwo())) == Square;
    assert PowBigAsWritten(d, BigTwo()) == BigMulBy(base, Returns(d));
    assert PowBig(d, BigTwo()) == BigMulBy(base, Returns(base));
  }

  lemma SquareExampleArithmetic(d: BigDecimal, base: BigDecimal)
    requires d == BigDecimal(42_000000000000, 12, false)
    requires base == BigDecimal(42_000000000000000000, 18, false)
    ensures BigToScaleDefined(d, 18) && BigToScale(d, 18) == base
    ensures MulBigDefined(base, d) && MulBig(base, d) == BigDecimal(1764_000000000000, 18, false)
    ensures MulBigDefined(base, base) && MulBig(base, base) == BigDecimal(1764_000000000000000000, 18, false)
  {
    Pow10Twelve();
    Pow10Table();
    var den := Pow10(18);
    DivUnique(base.value * 42_000000000000, den, 1764_000000000000);
    DivUnique(base.value * base.value, den, 1764_000000000000000000);
  }

  /** `249383740734.349125162518^-1 = 0.000000000004009884` at eighteen
      places, as written and corrected. */
  lemma PowBigReciprocalExample()
    ensures PowBigAsWritten(BigDecimal(249383740734_349125162518, 12, false), BigNeg(BigOne())) ==
      Returns(BigDecimal(4009884, 18, false))
    ensures PowBig(BigDecimal(249383740734_349125162518, 12, false), BigNeg(BigOne())) ==
      Returns(BigDecimal(4009884, 18, false))
  {
    var d := BigDecimal(249383740734_349125162518, 12, false);
    var base := BigDecimal(249383740734_349125162518_000000, 18, false);
    ReciprocalExampleArithmetic(d, base);
    BigToScaleSame(BigNeg(BigOne()));
    assert BigSelectArm(false, BigNeg(BigOne()), BigTwo()) == Inverse;
    assert PowBigAsWritten(d, BigNeg(BigOne())) == BigReciprocal(Returns(base));
    PowBigAgreesOffTwo(d, BigNeg(BigOne()));
  }

  lemma ReciprocalExampleArithmetic(d: BigDecimal, base: BigDecimal)
    requires d == BigDecimal(249383740734_349125162518, 12, false)
    requires base == BigDecimal(249383740734_349125162518_000000, 18, false)
    ensures BigToScaleDefined(d, 18) && BigToScale(d, 18) == base
    ensures DivBigDefined(BigOne(), base) && DivBig(BigOne(), base) == BigDecimal(4009884, 18, false)
  {
    Pow10Twelve();
    Pow10Table();
    var den := Pow10(18);
    DivUnique(den * den, base.value, 4009884);
  }
}
