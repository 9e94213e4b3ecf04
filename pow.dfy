/** `Pow<Decimal> for Decimal`: the exponent, brought to the compute scale,
    selects one arm of a closed table (zero, the quarters and halves up to
    two, integers, and their negatives); any other exponent panics. The
    result is brought back to the base's scale. */
module DecimalPow {
  import opened Bounded
  import opened Errors
  import opened DecimalBase
  import opened DecimalMul
  import opened DecimalDiv
  import opened DecimalAdd
  import opened DecimalCompare
  import opened DecimalRounding
  import opened DecimalSqrt
  import opened DecimalIntegerPow

  /** The arms of the match, in the order their guards are tried. */
  datatype Arm =
    | ZeroPower
    | Quarter | Half | Identity | OneAndQuarter | OneAndHalf | Square | Integer
    | InverseQuarter | InverseHalf | Inverse | InverseOneAndQuarter | InverseOneAndHalf
    | InverseSquare | InverseInteger
    | Unsupported

  predicate IsInverse(a: Arm)
  {
    a.InverseQuarter? || a.InverseHalf? || a.Inverse? || a.InverseOneAndQuarter?
    || a.InverseOneAndHalf? || a.InverseSquare? || a.InverseInteger?
  }

  /** `x.eq(c).unwrap()` for an exponent and a constant of the compute
      scale: the comparison cannot fail at one scale. */
  predicate Matches(x: Decimal, c: Decimal)
  {
    Eq(x, c) == Ok(true)
  }

  /** The guards, tried in order. Every guard but the first also tests the
      sign of the exponent, so the positive and the non-positive guards are
      tried as two groups, each in its own order. */
  function SelectArm(positive: bool, x: Decimal): (a: Arm)
    requires x.scale == COMPUTE_SCALE
    ensures a.ZeroPower? <==> x.value == 0
    ensures IsInverse(a) ==> !positive
    ensures a.Integer? || a.InverseInteger? ==> x.value % Pow10(COMPUTE_SCALE as nat) == 0
  {
    IntegerTest(x);
    if IsZero(x) then ZeroPower
    else if positive then PositiveArm(x)
    else NegativeArm(x)
  }

  /** The guards for a positive exponent. */
  function PositiveArm(x: Decimal): (a: Arm)
    requires x.scale == COMPUTE_SCALE && x.value != 0
    ensures !a.ZeroPower? && !IsInverse(a)
    ensures a.Integer? ==> IsInteger(x) == Returns(true)
  {
    if Matches(x, ZeroPointTwoFive()) then Quarter
    else if Matches(x, ZeroPointFive()) then Half
    else if Matches(x, One()) then Identity
    else if Matches(x, OnePointTwoFive()) then OneAndQuarter
    else if Matches(x, OnePointFive()) then OneAndHalf
    else if Matches(x, Two()) then Square
    else if IsInteger(x) == Returns(true) then Integer
    else Unsupported
  }

  /** The guards for a non-positive exponent. The arm meant for `-2`
      compares with `+2`, which a non-positive exponent never equals. */
  function NegativeArm(x: Decimal): (a: Arm)
    requires x.scale == COMPUTE_SCALE && x.value != 0
    ensures !a.ZeroPower? && (IsInverse(a) || a.Unsupported?)
    ensures a.InverseInteger? ==> IsInteger(x) == Returns(true)
  {
    if Matches(x, Neg(ZeroPointTwoFive())) then InverseQuarter
    else if Matches(x, Neg(ZeroPointFive())) then InverseHalf
    else if Matches(x, Neg(One())) then Inverse
    else if Matches(x, Neg(OnePointTwoFive())) then InverseOneAndQuarter
    else if Matches(x, Neg(OnePointFive())) then InverseOneAndHalf
    else if Matches(x, Two()) then InverseSquare
    else if IsInteger(x) == Returns(true) then InverseInteger
    else Unsupported
  }

  /** A positive whole exponent of 3 or more passes every constant of the
      positive group and reaches the integer arm. */
  lemma PositiveWholeArm(x: Decimal)
    requires x.scale == COMPUTE_SCALE && x.value % Pow10(COMPUTE_SCALE as nat) == 0
    requires x.value >= 3 * Pow10(COMPUTE_SCALE as nat)
    ensures PositiveArm(x) == Integer
  {
    Pow10Twelve();
    IntegerTest(x);
  }

  /** A negative whole exponent of magnitude 2 or more passes every constant
      of the non-positive group and reaches the inverse integer arm. */
  lemma NegativeWholeArm(x: Decimal)
    requires x.scale == COMPUTE_SCALE && x.negative && x.value % Pow10(COMPUTE_SCALE as nat) == 0
    requires x.value >= 2 * Pow10(COMPUTE_SCALE as nat)
    ensures NegativeArm(x) == InverseInteger
  {
    Pow10Twelve();
    IntegerTest(x);
  }

  /** A fraction that is none of the listed quarters and halves reaches the
      last arm in both groups. */
  lemma OffTableArms(x: Decimal)
    requires x.scale == COMPUTE_SCALE && x.value % Pow10(COMPUTE_SCALE as nat) != 0
    requires x.value !in {250_000_000_000, 500_000_000_000, 1_250_000_000_000, 1_500_000_000_000}
    ensures x.value != 0
    ensures PositiveArm(x) == Unsupported && NegativeArm(x) == Unsupported
  {
    Pow10Twelve();
    IntegerTest(x);
    OffTablePositive(x);
    OffTableNegative(x);
  }

  /** The positive half of `OffTableArms`. */
  lemma OffTablePositive(x: Decimal)
    requires x.scale == COMPUTE_SCALE && x.value % 1_000_000_000_000 != 0
    requires x.value !in {250_000_000_000, 500_000_000_000, 1_250_000_000_000, 1_500_000_000_000}
    requires IsInteger(x) == Returns(false)
    ensures x.value != 0 && PositiveArm(x) == Unsupported
  {
  }

  /** The non-positive half of `OffTableArms`. */
  lemma OffTableNegative(x: Decimal)
    requires x.scale == COMPUTE_SCALE && x.value % 1_000_000_000_000 != 0
    requires x.value !in {250_000_000_000, 500_000_000_000, 1_250_000_000_000, 1_500_000_000_000}
    requires IsInteger(x) == Returns(false)
    ensures x.value != 0 && NegativeArm(x) == Unsupported
  {
  }

  /** At the compute scale `is_integer` answers and means divisibility by
      `10^12`. */
  lemma IntegerTest(x: Decimal)
    requires x.scale == COMPUTE_SCALE
    ensures IsInteger(x) == Returns(x.value % Pow10(COMPUTE_SCALE as nat) == 0)
  {
    IsIntegerIffDivisible(x);
  }

  /** `sqrt().expect("sqrt").to_compute_scale()` on a compute-scale value. */
  function Root(x: Decimal): (r: Run<Decimal>)
    requires x.scale == COMPUTE_SCALE
    ensures r.Returns? ==> r.value.scale == COMPUTE_SCALE && r.value.negative == x.negative
    ensures r.Returns? ==> RootBracket(r.value.value, x.value * Pow10(COMPUTE_SCALE as nat))
  {
    match Sqrt(x)
    case Panics => Panics
    case Returns(Err(_)) => Panics
    case Returns(Ok(y)) => Returns(ToScale(y, COMPUTE_SCALE))
  }

  /** Two square roots in a row. */
  function FourthRoot(x: Decimal): (r: Run<Decimal>)
    requires x.scale == COMPUTE_SCALE
    ensures r.Returns? ==> r.value.scale == COMPUTE_SCALE && r.value.negative == x.negative
  {
    match Root(x)
    case Panics => Panics
    case Returns(y) => Root(y)
  }

  /** `base.mul(y)` once `y` has been computed. */
  function MulBy(base: Decimal, y: Run<Decimal>): (r: Run<Decimal>)
    ensures r.Returns? ==> y.Returns? && MulDefined(base, y.value)
    ensures r.Returns? ==> r.value == Mul(base, y.value)
  {
    match y
    case Panics => Panics
    case Returns(v) => if MulDefined(base, v) then Returns(Mul(base, v)) else Panics
  }

  /** `Decimal::one().div(y.to_compute_scale())` once `y` has been
      computed: it panics on a zero `y`. */
  function Reciprocal(y: Run<Decimal>): (r: Run<Decimal>)
    ensures r.Returns? ==> y.Returns? && r.value.scale == COMPUTE_SCALE
    ensures r.Returns? ==> r.value.negative == y.value.negative && y.value.value != 0
  {
    match y
    case Panics => Panics
    case Returns(v) =>
      if !ToScaleDefined(v, COMPUTE_SCALE) then Panics
      else
        var w := ToScale(v, COMPUTE_SCALE);
        if DivDefined(One(), w) then Returns(Div(One(), w)) else Panics
  }

  /** The whole-number part of the exponent, `x.abs() as u128`. */
  function Exponent(x: Decimal): Run<u128>
  {
    match Abs(x)
    case Panics => Panics
    case Returns(n) => Returns(n)
  }

  /** `x^exp`: both brought to the compute scale, the arm chosen by the
      exponent, and the result brought back to the base's scale. */
  function Pow(d: Decimal, exp: Decimal): (r: Run<Decimal>)
    ensures r.Returns? ==> r.value.scale == d.scale
    ensures r.Returns? ==> ToScaleDefined(d, COMPUTE_SCALE) && ToScaleDefined(exp, COMPUTE_SCALE)
    decreases if IsPositive(exp) then 0 else 1, 1
  {
    if !ToScaleDefined(d, COMPUTE_SCALE) || !ToScaleDefined(exp, COMPUTE_SCALE) then Panics
    else
      var base := ToScale(d, COMPUTE_SCALE);
      var x := ToScale(exp, COMPUTE_SCALE);
      BackToScale(ArmResult(SelectArm(IsPositive(exp), x), d, base, x), d.scale)
  }

  /** The arm's result brought back to the base's scale, panicking when it
      does not fit. */
  function BackToScale(y: Run<Decimal>, scale: u8): (r: Run<Decimal>)
    ensures r.Returns? ==> y.Returns? && ToScaleDefined(y.value, scale)
    ensures r.Returns? ==> r.value == ToScale(y.value, scale) && r.value.scale == scale
  {
    match y
    case Panics => Panics
    case Returns(v) => if ToScaleDefined(v, scale) then Returns(ToScale(v, scale)) else Panics
  }

  /** `pow` taken one stage at a time: the arm the exponent selects, what
      that arm computes, and the rescaling of its result. */
  lemma PowByArm(d: Decimal, exp: Decimal, arm: Arm, y: Run<Decimal>)
    requires ToScaleDefined(d, COMPUTE_SCALE) && ToScaleDefined(exp, COMPUTE_SCALE)
    requires SelectArm(IsPositive(exp), ToScale(exp, COMPUTE_SCALE)) == arm
    requires ArmResult(arm, d, ToScale(d, COMPUTE_SCALE), ToScale(exp, COMPUTE_SCALE)) == y
    ensures Pow(d, exp) == BackToScale(y, d.scale)
  {
  }

  /** What each arm computes from the original base `d`, the base `base`
      and the exponent `x` at the compute scale. The arms for negative
      fractions call `pow` again with a positive constant. */
  function ArmResult(arm: Arm, d: Decimal, base: Decimal, x: Decimal): (r: Run<Decimal>)
    requires base.scale == COMPUTE_SCALE && x.scale == COMPUTE_SCALE
    decreases if IsInverse(arm) then 1 else 0, 0
  {
    match arm
    case ZeroPower => Returns(One())
    case Quarter => FourthRoot(base)
    case Half => Root(base)
    case Identity => Returns(base)
    case OneAndQuarter => MulBy(base, FourthRoot(base))
    case OneAndHalf => MulBy(base, Root(base))
    case Square => MulBy(base, Returns(d))
    case Integer =>
      (match Exponent(x)
       case Panics => Panics
       case Returns(n) => PowU128AsWritten(base, n))
    case InverseQuarter => Reciprocal(Pow(base, ZeroPointTwoFive()))
    case InverseHalf => Reciprocal(Root(base))
    case Inverse => Reciprocal(Returns(base))
    case InverseOneAndQuarter => Reciprocal(Pow(base, OnePointTwoFive()))
    case InverseOneAndHalf => Reciprocal(Pow(base, OnePointFive()))
    case InverseSquare => Reciprocal(Pow(base, Two()))
    case InverseInteger =>
      (match Exponent(x)
       case Panics => Panics
       case Returns(n) => Reciprocal(PowU128AsWritten(base, n)))
    case Unsupported => Panics
  }

  // ---------------------------------------------------------------------
  // What the table computes

  /** One at any scale that can hold it. */
  lemma OneFits(scale: u8)
    requires Pow10Fits(scale)
    ensures ToScaleDefined(One(), scale)
  {
    Pow10Twelve();
    if scale > COMPUTE_SCALE {
      Pow10Add(12, scale - 12);
      Pow10FitsU128(scale);
    }
  }

  /** A zero exponent gives one at the base's scale, whatever the base. */
  lemma PowZeroExponent(d: Decimal, exp: Decimal)
    requires ToScaleDefined(d, COMPUTE_SCALE) && ToScaleDefined(exp, COMPUTE_SCALE)
    requires ToScale(exp, COMPUTE_SCALE).value == 0 && Pow10Fits(d.scale)
    ensures ToScaleDefined(One(), d.scale)
    ensures Pow(d, exp) == Returns(ToScale(One(), d.scale))
  {
    OneFits(d.scale);
  }

  /** `x^1` is `x` for a base of at most twelve places: raised to the
      compute scale and truncated back unchanged. */
  lemma PowOfOne(d: Decimal)
    requires d.scale <= COMPUTE_SCALE && ToScaleDefined(d, COMPUTE_SCALE)
    ensures Pow(d, One()) == Returns(d)
  {
    Pow10Twelve();
    ToScaleRoundTrip(d, COMPUTE_SCALE);
    assert SelectArm(true, One()) == Identity;
    var base := ToScale(d, COMPUTE_SCALE);
    PowByArm(d, One(), Identity, Returns(base));
  }

  /** `x^-1` at the compute scale is `one / x`. */
  lemma PowOfMinusOne(d: Decimal)
    requires d.scale == COMPUTE_SCALE && d.value != 0
    ensures DivDefined(One(), d)
    ensures Pow(d, Neg(One())) == Returns(Div(One(), d))
  {
    var x := Neg(One());
    SameScale(d);
    SameScale(x);
    MinusOneSelectsInverse();
    ReciprocalAtComputeScale(d);
    PowByArm(d, x, Inverse, Returns(Div(One(), d)));
    BackToSameScale(Div(One(), d));
  }

  /** A result already at the base's scale comes back unchanged. */
  lemma BackToSameScale(v: Decimal)
    ensures BackToScale(Returns(v), v.scale) == Returns(v)
  {
    SameScale(v);
  }

  /** Rescaling to the scale a number already has changes nothing. */
  lemma SameScale(v: Decimal)
    ensures ToScaleDefined(v, v.scale) && ToScale(v, v.scale) == v
  {
    assert Rescale(v.value, v.scale as nat, v.scale as nat) == v.value;
  }

  /** The reciprocal of a non-zero value of the compute scale is `one / x`,
      with nothing to rescale. */
  lemma ReciprocalAtComputeScale(d: Decimal)
    requires d.scale == COMPUTE_SCALE && d.value != 0
    ensures DivDefined(One(), d)
    ensures Reciprocal(Returns(d)) == Returns(Div(One(), d))
  {
    Pow10Twelve();
    assert ToScale(d, COMPUTE_SCALE) == d;
  }

  /** `-1` passes the quarter and the half and stops at the reciprocal. */
  lemma MinusOneSelectsInverse()
    ensures Neg(One()).scale == COMPUTE_SCALE && !IsPositive(Neg(One()))
    ensures SelectArm(false, Neg(One())) == Inverse
  {
    var x := Neg(One());
    assert !Matches(x, Neg(ZeroPointTwoFive()));
    assert !Matches(x, Neg(ZeroPointFive()));
    assert Matches(x, Neg(One()));
  }

  /** An integer exponent of 3 or more (with a clear flag) goes to the
      square-and-multiply loop on the base at the compute scale. */
  lemma PowOfInteger(d: Decimal, n: nat)
    requires 3 <= n < U64_LIMIT && ToScaleDefined(d, COMPUTE_SCALE)
    ensures n * Pow10(COMPUTE_SCALE as nat) < U128_LIMIT
    ensures Pow(d, Decimal(n * Pow10(COMPUTE_SCALE as nat), COMPUTE_SCALE, false)) ==
      BackToScale(PowU128AsWritten(ToScale(d, COMPUTE_SCALE), n), d.scale)
  {
    WholeExponent(n, false);
    var x := Decimal(n * Pow10(COMPUTE_SCALE as nat), COMPUTE_SCALE, false);
    var base := ToScale(d, COMPUTE_SCALE);
    IntegerArmResults(d, base, x, n);
    PowByArm(d, x, Integer, PowU128AsWritten(base, n));
  }

  /** The exponent `n * 10^12` at the compute scale needs no rescaling,
      has magnitude `n` and selects an integer arm. */
  lemma WholeExponent(n: nat, negative: bool)
    requires (if negative then 2 else 3) <= n < U64_LIMIT
    ensures n * Pow10(COMPUTE_SCALE as nat) < U128_LIMIT
    ensures var x := Decimal(n * Pow10(COMPUTE_SCALE as nat), COMPUTE_SCALE, negative);
      ToScaleDefined(x, COMPUTE_SCALE) && ToScale(x, COMPUTE_SCALE) == x && Exponent(x) == Returns(n)
      && SelectArm(IsPositive(x), x) == if negative then InverseInteger else Integer
  {
    Pow10Twelve();
    var x := Decimal(n * Pow10(12), COMPUTE_SCALE, negative);
    IntegerAbs(x, n);
    if negative { NegativeWholeArm(x); } else { PositiveWholeArm(x); }
    assert ToScale(x, COMPUTE_SCALE) == x;
  }

  /** At the compute scale, the exponent `n * 10^12` denotes the whole
      number `n`. */
  lemma IntegerAbs(x: Decimal, n: nat)
    requires n < U64_LIMIT && x.scale == COMPUTE_SCALE
    requires x.value == n * Pow10(COMPUTE_SCALE as nat)
    ensures x.value % Pow10(COMPUTE_SCALE as nat) == 0
    ensures Exponent(x) == Returns(n)
  {
    Pow10Twelve();
    var p := Pow10(12);
    DivUnique(x.value, p, n);
    assert x.value == n * p + 0;
    var a := Abs(x);
    assert a.Returns?;
    DivUnique(x.value, p, a.value);
  }

  /** The integer arms raise the base to the exponent's magnitude. */
  lemma IntegerArmResults(d: Decimal, base: Decimal, x: Decimal, n: u128)
    requires base.scale == COMPUTE_SCALE && x.scale == COMPUTE_SCALE && Exponent(x) == Returns(n)
    ensures ArmResult(Integer, d, base, x) == PowU128AsWritten(base, n)
    ensures ArmResult(InverseInteger, d, base, x) == Reciprocal(PowU128AsWritten(base, n))
  {
  }

  /** A negative integer exponent of magnitude 2 or more goes to the
      reciprocal of the square-and-multiply loop; `-2` is among them, since
      the arm written for it compares with `+2`. */
  lemma PowOfNegativeInteger(d: Decimal, n: nat)
    requires 2 <= n < U64_LIMIT && ToScaleDefined(d, COMPUTE_SCALE)
    ensures n * Pow10(COMPUTE_SCALE as nat) < U128_LIMIT
    ensures Pow(d, Decimal(n * Pow10(COMPUTE_SCALE as nat), COMPUTE_SCALE, true)) ==
      BackToScale(Reciprocal(PowU128AsWritten(ToScale(d, COMPUTE_SCALE), n)), d.scale)
  {
    WholeExponent(n, true);
    var x := Decimal(n * Pow10(COMPUTE_SCALE as nat), COMPUTE_SCALE, true);
    var base := ToScale(d, COMPUTE_SCALE);
    IntegerArmResults(d, base, x, n);
    PowByArm(d, x, InverseInteger, Reciprocal(PowU128AsWritten(base, n)));
  }

  /** The arm written for `-2` is never taken: a non-positive exponent that
      is not zero at the compute scale carries the sign flag, and `+2`
      does not. */
  lemma InverseSquareUnreachable(exp: Decimal)
    requires ToScaleDefined(exp, COMPUTE_SCALE)
    ensures SelectArm(IsPositive(exp), ToScale(exp, COMPUTE_SCALE)) != InverseSquare
  {
    var x := ToScale(exp, COMPUTE_SCALE);
    if !IsPositive(exp) && x.value != 0 {
      assert exp.value != 0;
      assert x.negative;
    }
  }

  /** The unreachable `-2` arm would have inverted `pow(two)`, which is
      `base.mul(base)`. */
  lemma PowOfTwoIsSquare(base: Decimal)
    requires base.scale == COMPUTE_SCALE && MulDefined(base, base)
    ensures Pow(base, Two()) == Returns(Mul(base, base))
  {
    SameScale(base);
    SameScale(Two());
    TwoSelectsSquare();
    var m := Mul(base, base);
    assert ArmResult(Square, base, base, Two()) == Returns(m);
    PowByArm(base, Two(), Square, Returns(m));
    BackToSameScale(m);
  }

  /** `2` passes the quarter to the one and a half and stops at the
      square. */
  lemma TwoSelectsSquare()
    ensures Two().scale == COMPUTE_SCALE && IsPositive(Two())
    ensures SelectArm(true, Two()) == Square
  {
    var x := Two();
    assert !Matches(x, ZeroPointTwoFive()) && !Matches(x, ZeroPointFive()) && !Matches(x, One());
    assert !Matches(x, OnePointTwoFive()) && !Matches(x, OnePointFive()) && Matches(x, Two());
  }

  /** The loop's `x^2` at the compute scale is `big_mul` of the base by
      itself: multiplying one by the square changes nothing. */
  lemma LoopSquare(base: Decimal)
    requires base.scale == COMPUTE_SCALE && BigMulDefined(base, base)
    ensures PowU128(base, 2) == Returns(BigMul(base, base))
  {
    Pow10Twelve();
    var sq := BigMul(base, base);
    var one := ToScale(One(), COMPUTE_SCALE);
    assert one == One();
    var p := Pow10(12);
    MulDivCancel(sq.value, p);
    assert one.value * sq.value == sq.value * p;
    assert BigMulDefined(one, sq);
    assert BigMul(one, sq) == sq;
    assert SquareAndMultiply(one, sq, 1) == Returns(sq);
  }

  /** So where `mul` can square the base, `x^-2` through the integer arm
      inverts the same square the `-2` arm was written to invert: always
      with the loop that stops squaring after the top bit, and with the
      loop as written wherever its extra squaring of the square fits. */
  lemma SquareByLoopAgrees(base: Decimal)
    requires base.scale == COMPUTE_SCALE && MulDefined(base, base)
    ensures PowU128(base, 2) == Pow(base, Two())
    ensures PowU128AsWritten(base, 2).Returns? ==> PowU128AsWritten(base, 2) == Pow(base, Two())
  {
    PowOfTwoIsSquare(base);
    BigMulExtendsMul(base, base);
    LoopSquare(base);
    if PowU128AsWritten(base, 2).Returns? {
      PowU128ExtendsAsWritten(base, 2);
    }
  }

  /** The extra squaring can fail where the square itself fits: 10^7 at
      the compute scale squares to 10^14 through the `x^2` arm, but the
      loop as written goes on to square 10^14 and overflows. */
  lemma SquareByLoopAsWrittenPanics()
    ensures var base := Decimal(10_000_000_000_000_000_000, COMPUTE_SCALE, false);
      Pow(base, Two()) == Returns(Decimal(100_000_000_000_000_000_000_000_000, COMPUTE_SCALE, false))
      && PowU128AsWritten(base, 2) == Panics
  {
    var base := Decimal(10_000_000_000_000_000_000, COMPUTE_SCALE, false);
    var sq := Decimal(100_000_000_000_000_000_000_000_000, COMPUTE_SCALE, false);
    Pow10Twelve();
    var p := Pow10(12);
    DivUnique(base.value * base.value, p, sq.value);
    assert MulDefined(base, base) && Mul(base, base) == sq;
    PowOfTwoIsSquare(base);
    SameScale(One());
    assert BigMulDefined(base, base) && BigMul(base, base) == sq;
    DivUnique(One().value * sq.value, p, sq.value);
    assert Times(One(), sq) == Returns(sq);
    DivUnique(sq.value * sq.value, p, 10_000_000_000_000_000_000_000_000_000_000_000_000_000);
    assert !BigMulDefined(sq, sq);
    assert SquareAndMultiplyAsWritten(One(), sq, 1) == Panics;
  }

  /** Exponents off the table panic: a fraction other than the quarters
      and halves listed, of either sign. */
  lemma PowOffTablePanics(d: Decimal, exp: Decimal)
    requires exp.scale == COMPUTE_SCALE
    requires exp.value % Pow10(COMPUTE_SCALE as nat) != 0
    requires exp.value !in {250_000_000_000, 500_000_000_000, 1_250_000_000_000, 1_500_000_000_000}
    ensures Pow(d, exp) == Panics
  {
    OffTableArms(exp);
    assert ToScale(exp, COMPUTE_SCALE) == exp;
  }

  // ---------------------------------------------------------------------
  // The library's examples

  /** `42^0 = 1` at six places. */
  lemma PowZeroExample()
    ensures Pow(Decimal(42000000, 6, false), Decimal(0, 6, false)) == Returns(Decimal(1000000, 6, false))
  {
    Pow10Table();
    PowZeroExponent(Decimal(42000000, 6, false), Decimal(0, 6, false));
    DivUnique(Pow10(12), Pow10(6), Pow10(6));
  }

  /** `42^-1 = 0.023809` at six places: one over 42 at twelve places,
      truncated. */
  lemma PowMinusOneExample()
    ensures Pow(Decimal(42000000, 6, false), Decimal(1000000, 6, true)) == Returns(Decimal(23809, 6, false))
  {
    Pow10Table();
    var d := Decimal(42000000, 6, false);
    var exp := Decimal(1000000, 6, true);
    var base := Decimal(42000000000000, 12, false);
    assert ToScale(d, 12) == base;
    assert ToScale(exp, 12) == Neg(One());
    assert SelectArm(false, Neg(One())) == Inverse;
    DivUnique(Pow10(12) * Pow10(12), 42000000000000, 23809523809);
    var inv := Decimal(23809523809, 12, false);
    assert ArmResult(Inverse, d, base, Neg(One())) == Returns(inv);
    DivUnique(23809523809, Pow10(6), 23809);
    assert ToScale(inv, 6) == Decimal(23809, 6, false);
    PowByArm(d, exp, Inverse, Returns(inv));
  }

  /** `42^1 = 42` and `42^2 = 1764` at twelve places. */
  lemma PowWholeExamples()
    ensures Pow(Decimal(42000000000000, 12, false), One()) == Returns(Decimal(42000000000000, 12, false))
    ensures Pow(Decimal(42000000000000, 12, false), Two()) == Returns(Decimal(1764000000000000, 12, false))
  {
    var d := Decimal(42000000000000, 12, false);
    PowOfOne(d);
    Pow10Twelve();
    DivUnique(42000000000000 * 42000000000000, Pow10(12), 1764000000000000);
    PowOfTwoIsSquare(d);
  }

  // ---------------------------------------------------------------------
  // Arithmetic steps of the examples

  /** A product at twelve places, pinned by its truncation bracket. */
  lemma MulAtTwelve(a: Decimal, b: Decimal, c: u128)
    requires a.scale == COMPUTE_SCALE && b.scale == COMPUTE_SCALE && !a.negative && !b.negative
    requires a.value * b.value < U128_LIMIT
    requires c * 1_000_000_000_000 <= a.value * b.value < (c + 1) * 1_000_000_000_000
    ensures MulBy(a, Returns(b)) == Returns(Decimal(c, COMPUTE_SCALE, false))
  {
    Pow10Twelve();
    DivUnique(a.value * b.value, Pow10(12), c);
  }

  /** A reciprocal at twelve places, pinned by its truncation bracket. */
  lemma ReciprocalAtTwelve(y: Decimal, c: u128)
    requires y.scale == COMPUTE_SCALE && !y.negative && y.value > 0
    requires c * y.value <= 1_000_000_000_000_000_000_000_000 < (c + 1) * y.value
    ensures Reciprocal(Returns(y)) == Returns(Decimal(c, COMPUTE_SCALE, false))
  {
    Pow10Twelve();
    assert ToScale(y, COMPUTE_SCALE) == y;
    DivUnique(1_000_000_000_000 * Pow10(12), y.value, c);
  }

  /** A square root at twelve places, pinned by the bracket of its
      root. */
  lemma RootAtTwelve(x: Decimal, k: u128)
    requires x.scale == COMPUTE_SCALE && !x.negative && x.value < 1_000_000_000_000_000_000
    requires k * k <= x.value * 1_000_000_000_000 < (k + 1) * (k + 1) - 1
    ensures Root(x) == Returns(Decimal(k, COMPUTE_SCALE, false))
  {
    Pow10Twelve();
    SqrtPinned(x, k);
  }

  /** Twelve places truncated to six. */
  lemma TruncateToSix(v: u128, c: u128)
    requires c * 1_000_000 <= v < (c + 1) * 1_000_000
    ensures ToScaleDefined(Decimal(v, 12, false), 6)
    ensures ToScale(Decimal(v, 12, false), 6) == Decimal(c, 6, false)
  {
    Pow10Table();
    DivUnique(v, Pow10(6), c);
  }

  /** Six places raised to twelve. */
  lemma RaiseToTwelve(v: u128, negative: bool)
    requires v < 1_000_000_000_000
    ensures ToScaleDefined(Decimal(v, 6, negative), 12)
    ensures ToScale(Decimal(v, 6, negative), 12) == Decimal(v * 1_000_000, 12, negative)
  {
    Pow10Table();
  }

  /** The arms the table's own constants select. */
  lemma ConstantArms()
    ensures SelectArm(true, ZeroPointTwoFive()) == Quarter
    ensures SelectArm(true, ZeroPointFive()) == Half
    ensures SelectArm(true, OnePointTwoFive()) == OneAndQuarter
    ensures SelectArm(true, OnePointFive()) == OneAndHalf
    ensures SelectArm(false, Neg(ZeroPointTwoFive())) == InverseQuarter
  {
  }

  /** `sqrt(42) = 6.480740698407` at twelve places. */
  lemma RootOfFortyTwo()
    ensures Root(Decimal(42000000000000, 12, false)) == Returns(Decimal(6480740698407, 12, false))
  {
    RootAtTwelve(Decimal(42000000000000, 12, false), 6480740698407);
  }

  /** `sqrt(sqrt(42)) = 2.545729895021` at twelve places. */
  lemma FourthRootOfFortyTwo()
    ensures FourthRoot(Decimal(42000000000000, 12, false)) == Returns(Decimal(2545729895021, 12, false))
  {
    RootAtTwelve(Decimal(6480740698407, 12, false), 2545729895021);
    RootOfFortyTwo();
  }

  /** `42^0.25 = 2.545729895021` at twelve places. */
  lemma PowQuarterExample()
    ensures Pow(Decimal(42000000000000, 12, false), ZeroPointTwoFive()) ==
      Returns(Decimal(2545729895021, 12, false))
  {
    var d := Decimal(42000000000000, 12, false);
    var r := Decimal(2545729895021, 12, false);
    FourthRootOfFortyTwo();
    assert ToScale(d, 12) == d && ToScale(ZeroPointTwoFive(), 12) == ZeroPointTwoFive();
    ConstantArms();
    assert ToScale(r, 12) == r;
    PowByArm(d, ZeroPointTwoFive(), Quarter, Returns(r));
  }

  /** `42^0.5 = 6.480740698407` at twelve places. */
  lemma PowHalfExample()
    ensures Pow(Decimal(42000000000000, 12, false), ZeroPointFive()) ==
      Returns(Decimal(6480740698407, 12, false))
  {
    var d := Decimal(42000000000000, 12, false);
    var r := Decimal(6480740698407, 12, false);
    RootOfFortyTwo();
    assert ToScale(d, 12) == d && ToScale(ZeroPointFive(), 12) == ZeroPointFive();
    ConstantArms();
    assert ToScale(r, 12) == r;
    PowByArm(d, ZeroPointFive(), Half, Returns(r));
  }

  /** `42^1.25 = 106.920655590882` at twelve places: the base times its
      fourth root. */
  lemma PowOneAndQuarterExample()
    ensures Pow(Decimal(42000000000000, 12, false), OnePointTwoFive()) ==
      Returns(Decimal(106920655590882, 12, false))
  {
    var d := Decimal(42000000000000, 12, false);
    var r := Decimal(106920655590882, 12, false);
    MulAtTwelve(d, Decimal(2545729895021, 12, false), 106920655590882);
    FourthRootOfFortyTwo();
    assert ToScale(d, 12) == d && ToScale(OnePointTwoFive(), 12) == OnePointTwoFive();
    ConstantArms();
    assert ToScale(r, 12) == r;
    PowByArm(d, OnePointTwoFive(), OneAndQuarter, Returns(r));
  }

  /** `42^1.5 = 272.191109333094` at twelve places: the base times its
      square root. */
  lemma PowOneAndHalfExample()
    ensures Pow(Decimal(42000000000000, 12, false), OnePointFive()) ==
      Returns(Decimal(272191109333094, 12, false))
  {
    var d := Decimal(42000000000000, 12, false);
    var r := Decimal(272191109333094, 12, false);
    MulAtTwelve(d, Decimal(6480740698407, 12, false), 272191109333094);
    RootOfFortyTwo();
    assert ToScale(d, 12) == d && ToScale(OnePointFive(), 12) == OnePointFive();
    ConstantArms();
    assert ToScale(r, 12) == r;
    PowByArm(d, OnePointFive(), OneAndHalf, Returns(r));
  }

  /** `42^-0.25 = 0.392814` at six places: one over the fourth root at
      twelve places, truncated. */
  lemma PowInverseRootExample()
    ensures Pow(Decimal(42000000, 6, false), Decimal(250000, 6, true)) ==
      Returns(Decimal(392814, 6, false))
  {
    var d := Decimal(42000000, 6, false);
    var exp := Decimal(250000, 6, true);
    var base := Decimal(42000000000000, 12, false);
    var x := Neg(ZeroPointTwoFive());
    var inv := Decimal(392814650900, 12, false);
    ReciprocalAtTwelve(Decimal(2545729895021, 12, false), 392814650900);
    TruncateToSix(392814650900, 392814);
    RaiseToTwelve(42000000, false);
    RaiseToTwelve(250000, true);
    PowQuarterExample();
    ConstantArms();
    assert ArmResult(InverseQuarter, d, base, x) == Returns(inv);
    PowByArm(d, exp, InverseQuarter, Returns(inv));
  }
}
