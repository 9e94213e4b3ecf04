/** The runtime-scale `Decimal`: a u128 magnitude, a u8 number of decimal
    places and a sign flag. Its numeric value is
    `(negative ? -1 : 1) * value / 10^scale`. The 192-bit `BigDecimal` has the
    same shape with a wider magnitude. */
module DecimalBase {
  import opened Bounded

  /** Scale of the intermediate results of log2, ln, log10 and pow. */
  const COMPUTE_SCALE: u8 := 12

  /** Scale `BigDecimal` computations are carried out at. */
  const BIG_COMPUTE_SCALE: u8 := 18

  datatype Decimal = Decimal(value: u128, scale: u8, negative: bool)

  datatype BigDecimal = BigDecimal(value: u192, scale: u8, negative: bool)

  /** The exact number a `Decimal` denotes, multiplied by `10^scale`. */
  function SignedValue(d: Decimal): int
  {
    if d.negative then -(d.value as int) else d.value as int
  }

  function BigSignedValue(d: BigDecimal): int
  {
    if d.negative then -(d.value as int) else d.value as int
  }

  /** `10^scale`; `10u128.pow` panics for a scale above 38. */
  function Denominator(d: Decimal): (r: u128)
    requires Pow10Fits(d.scale)
    ensures r == Pow10(d.scale) && r >= 1
  {
    Pow10FitsU128(d.scale);
    Pow10(d.scale)
  }

  /** `10^scale` computed on 192 bits. */
  predicate BigDenominatorFits(d: BigDecimal)
  {
    Pow10(d.scale) < U192_LIMIT
  }

  function BigDenominator(d: BigDecimal): (r: u192)
    requires BigDenominatorFits(d)
    ensures r == Pow10(d.scale) && r >= 1
  {
    Pow10(d.scale)
  }

  predicate IsZero(d: Decimal)
  {
    d.value == 0
  }

  /** Positive: flag clear and magnitude nonzero. */
  predicate IsPositive(d: Decimal)
  {
    !d.negative && !IsZero(d)
  }

  /** Negative: flag set and magnitude nonzero. A zero is neither, whatever
      its flag. */
  predicate IsNegative(d: Decimal)
  {
    d.negative && !IsZero(d)
  }

  predicate BigIsZero(d: BigDecimal)
  {
    d.value == 0
  }

  predicate BigIsPositive(d: BigDecimal)
  {
    !d.negative && !BigIsZero(d)
  }

  predicate BigIsNegative(d: BigDecimal)
  {
    d.negative && !BigIsZero(d)
  }

  /** The three sign predicates partition the decimals and agree with the
      sign of the number denoted. */
  lemma SignPredicates(d: Decimal)
    ensures IsZero(d) <==> SignedValue(d) == 0
    ensures IsPositive(d) <==> SignedValue(d) > 0
    ensures IsNegative(d) <==> SignedValue(d) < 0
    ensures IsZero(d) || IsPositive(d) || IsNegative(d)
    ensures !(IsPositive(d) && IsNegative(d))
  {
  }

  /** Rescaling panics when the power of ten exceeds u128 (a difference of
      scales above 38) or when raising the scale overflows the magnitude. */
  predicate ToScaleDefined(d: Decimal, scale: u8)
  {
    if d.scale > scale then Pow10Fits(d.scale - scale)
    else if d.scale < scale then
      Pow10Fits(scale - d.scale) && d.value * Pow10(scale - d.scale) < U128_LIMIT
    else true
  }

  /** A magnitude written with `from` decimal places, rewritten with `to`:
      multiplied by a power of ten when places are added, divided (truncating)
      when they are dropped. */
  function Rescale(v: nat, from: nat, to: nat): (r: nat)
    ensures to <= from ==> r * Pow10(from - to) <= v < (r + 1) * Pow10(from - to)
    ensures to <= from ==> r <= v
    ensures from <= to ==> r == v * Pow10(to - from)
  {
    if from == to then
      assert Pow10(0) == 1;
      v
    else if from > to then
      FloorDiv(v, Pow10(from - to))
    else
      v * Pow10(to - from)
  }

  /** Change the number of decimal places, truncating when it is lowered. */
  function ToScale(d: Decimal, scale: u8): (r: Decimal)
    requires ToScaleDefined(d, scale)
    ensures r.scale == scale && r.negative == d.negative
    ensures r.value == Rescale(d.value, d.scale, scale)
  {
    Decimal(Rescale(d.value, d.scale, scale), scale, d.negative)
  }

  /** Raising the scale and lowering it back is the identity. */
  lemma ToScaleRoundTrip(d: Decimal, scale: u8)
    requires d.scale <= scale && ToScaleDefined(d, scale)
    ensures ToScaleDefined(ToScale(d, scale), d.scale)
    ensures ToScale(ToScale(d, scale), d.scale) == d
  {
    var p := Pow10(scale - d.scale);
    var up := ToScale(d, scale);
    if d.scale < scale {
      MulDivCancel(d.value, p);
      DivUnique(up.value, p, d.value);
    }
  }

  /** Lowering the scale in two steps truncates exactly like lowering it in
      one. */
  lemma ToScaleLowerTwice(d: Decimal, mid: u8, scale: u8)
    requires scale <= mid <= d.scale && Pow10Fits(d.scale - scale)
    ensures ToScaleDefined(d, mid)
    ensures ToScaleDefined(ToScale(d, mid), scale)
    ensures ToScale(ToScale(d, mid), scale) == ToScale(d, scale)
  {
    RescaleLowerTwice(d.value, d.scale, mid, scale);
  }

  lemma RescaleLowerTwice(v: nat, from: nat, mid: nat, to: nat)
    requires to <= mid <= from
    ensures Rescale(Rescale(v, from, mid), mid, to) == Rescale(v, from, to)
  {
    assert Pow10(0) == 1;
    if to < mid < from {
      var p, q := Pow10(from - mid), Pow10(mid - to);
      Pow10Add(from - mid, mid - to);
      DivDiv(v, p, q);
    }
  }

  /** `From<Decimal> for u64`: the magnitude, or a panic when it does not fit
      in 64 bits. Scale and sign are ignored. */
  function ToU64(d: Decimal): (r: Run<u64>)
    ensures r.Panics? <==> d.value >= U64_LIMIT
    ensures r.Returns? ==> r.value == d.value
  {
    if d.value < U64_LIMIT then Returns(d.value) else Panics
  }

  /** `Decimal::new`, and the named constants at the compute scale. */
  function FromU128(n: u128): Decimal
  {
    Decimal(n, 0, false)
  }

  function Zero(): Decimal
  {
    Decimal(0, COMPUTE_SCALE, false)
  }

  function One(): Decimal
  {
    Decimal(1_000_000_000_000, COMPUTE_SCALE, false)
  }

  function Two(): Decimal
  {
    Decimal(2_000_000_000_000, COMPUTE_SCALE, false)
  }

  function ZeroPointTwoFive(): Decimal
  {
    Decimal(250_000_000_000, COMPUTE_SCALE, false)
  }

  function ZeroPointFive(): Decimal
  {
    Decimal(500_000_000_000, COMPUTE_SCALE, false)
  }

  function OnePointTwoFive(): Decimal
  {
    Decimal(1_250_000_000_000, COMPUTE_SCALE, false)
  }

  function OnePointFive(): Decimal
  {
    Decimal(1_500_000_000_000, COMPUTE_SCALE, false)
  }

  /** The named constants are the integers and fractions they are named after,
      at the compute scale. */
  lemma ConstantsAtComputeScale()
    ensures One().value == Pow10(COMPUTE_SCALE as nat)
    ensures Two().value == 2 * Pow10(COMPUTE_SCALE as nat)
    ensures 4 * ZeroPointTwoFive().value == One().value
    ensures 2 * ZeroPointFive().value == One().value
    ensures 4 * OnePointTwoFive().value == 5 * One().value
    ensures 2 * OnePointFive().value == 3 * One().value
  {
    Pow10Twelve();
  }

  /** Widening a `Decimal` to a `BigDecimal`. */
  function Widen(d: Decimal): BigDecimal
  {
    BigDecimal(d.value, d.scale, d.negative)
  }

  predicate BigToScaleDefined(d: BigDecimal, scale: u8)
  {
    if d.scale > scale then Pow10(d.scale - scale) < U192_LIMIT
    else if d.scale < scale then d.value * Pow10(scale - d.scale) < U192_LIMIT
    else true
  }

  /** Rescaling a `BigDecimal`, truncating when the scale is lowered. */
  function BigToScale(d: BigDecimal, scale: u8): (r: BigDecimal)
    requires BigToScaleDefined(d, scale)
    ensures r.scale == scale && r.negative == d.negative
    ensures r.value == Rescale(d.value, d.scale, scale)
  {
    BigDecimal(Rescale(d.value, d.scale, scale), scale, d.negative)
  }

  function BigOne(): BigDecimal
  {
    BigDecimal(1_000_000_000_000_000_000, BIG_COMPUTE_SCALE, false)
  }

  function BigTwo(): BigDecimal
  {
    BigDecimal(2_000_000_000_000_000_000, BIG_COMPUTE_SCALE, false)
  }

  function BigZeroPointTwoFive(): BigDecimal
  {
    BigDecimal(250_000_000_000_000_000, BIG_COMPUTE_SCALE, false)
  }

  function BigZeroPointFive(): BigDecimal
  {
    BigDecimal(500_000_000_000_000_000, BIG_COMPUTE_SCALE, false)
  }

  function BigOnePointTwoFive(): BigDecimal
  {
    BigDecimal(1_250_000_000_000_000_000, BIG_COMPUTE_SCALE, false)
  }

  function BigOnePointFive(): BigDecimal
  {
    BigDecimal(1_500_000_000_000_000_000, BIG_COMPUTE_SCALE, false)
  }
}
