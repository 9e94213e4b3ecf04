/** The logarithms of a `FixedPoint`: a raw u128 with an implied scale of
    twelve decimal places. The binary logarithm is the shared kernel at the
    unit 10^12; the natural and decimal logarithms divide it by the binary
    logarithms of e and of ten with the fixed-point division of the
    `FixedPoint` type (floor of `a * 10^12 / b`, panicking on overflow).

    Two copies of the binary logarithm exist in the library, one returning
    its magnitude wrapped as a `FixedPoint`, one returning it as a raw u128;
    both compute the same pair and are modelled by `Log2`. */
module FixedLogs {
  import opened Bounded
  import opened Log2Kernel

  /** The raw value of 1.0. */
  const ONE: nat := 1_000_000_000_000
  /** log2(e) truncated to twelve places. */
  const LOG2_E: nat := 1_442695040888
  /** log2(10) truncated to twelve places. */
  const LOG2_10: nat := 3_321928094887

  lemma OneIsPow10()
    ensures ONE == Pow10(12) && ONE * ONE < U128_LIMIT
  {
    Pow10Twelve();
  }

  /** `FixedPoint` division: the quotient rescaled to twelve places, which
      panics when `a * 10^12` overflows or `b` is zero. */
  predicate FixedDivDefined(a: nat, b: nat)
  {
    b != 0 && a * ONE < U128_LIMIT
  }

  function FixedDiv(a: nat, b: nat): (r: u128)
    requires FixedDivDefined(a, b)
  {
    FloorDiv(a * ONE, b)
  }

  // ---------------------------------------------------------------------
  // Binary logarithm

  /** `FixedPoint::log2`: the magnitude of the logarithm at twelve places
      and whether it is negative; zero fails the assertion of the original,
      a checked overflow gives `None`. */
  function Log2(raw: u128): (r: Run<Option<(u128, bool)>>)
    ensures r.Panics? <==> raw == 0
    ensures r.Returns? ==> r.value.Some? && (r.value.value.1 <==> raw < ONE)
  {
    if raw == 0 then Panics
    else
      OneIsPow10();
      BinaryLogTotalAtTwelve(raw);
      BinaryLogIntegerPart(raw, ONE);
      Returns(BinaryLog(raw, ONE))
  }

  /** The binary logarithm as the original computes it: the assertion, then
      the kernel's loop at the unit 10^12. */
  method ComputeLog2(raw: u128) returns (r: Run<Option<(u128, bool)>>)
    ensures r == Log2(raw)
  {
    if raw == 0 {
      return Panics;
    }
    var log := ComputeBinaryLog(raw, ONE);
    r := Returns(log);
  }

  /** The logarithm of a positive number: its integer part is the floor of
      the binary logarithm of the number (or of its reciprocal below one)
      and the whole magnitude is below 128. */
  lemma Log2Bracket(raw: u128)
    requires raw > 0
    ensures var (l, _) := Log2(raw).value.value;
      PowerBracket(Magnitude(raw, ONE), ONE, FloorDiv(l, ONE)) && l < 128 * ONE
  {
    OneIsPow10();
    BinaryLogTotalAtTwelve(raw);
    BinaryLogIntegerPart(raw, ONE);
    BinaryLogBelow(raw, ONE);
  }

  /** An exponent is below its power of two. */
  lemma {:induction false} ExponentBelowPower(k: nat)
    ensures k < Pow2(k)
  {
    if k > 0 {
      ExponentBelowPower(k - 1);
    }
  }

  /** The logarithm of an exact power of two is its exponent, with no
      fractional digits. */
  lemma Log2PowerOfTwo(k: nat)
    requires Pow2(k) * ONE < U128_LIMIT
    ensures Log2(Pow2(k) * ONE) == Returns(Some((k * ONE, false)))
  {
    ExponentBelowPower(k);
    MulMonotone(k, Pow2(k), ONE);
    BinaryLogPowerOfTwo(k, ONE);
  }

  /** The logarithm of one over a power of two is minus its exponent. */
  lemma Log2ReciprocalPowerOfTwo(k: nat, raw: u128)
    requires k > 0 && raw > 0 && raw * Pow2(k) == ONE
    ensures Log2(raw) == Returns(Some((k * ONE, true)))
  {
    OneIsPow10();
    ExponentBelowPower(k);
    MulMonotone(1, raw, Pow2(k));
    MulMonotone(k, ONE, ONE);
    BinaryLogReciprocalPowerOfTwo(k, raw, ONE);
  }

  /** log2(1) = 0 and log2(0.5) = -1. */
  lemma Log2OneAndHalf()
    ensures Log2(ONE) == Returns(Some((0, false)))
    ensures Log2(ONE / 2) == Returns(Some((ONE, true)))
  {
    Log2PowerOfTwo(0);
    Log2ReciprocalPowerOfTwo(1, ONE / 2);
  }

  /** Doubling a number at least one adds exactly one to its logarithm. */
  lemma Log2Doubling(raw: u128)
    requires ONE <= raw && 2 * raw < U128_LIMIT
    ensures Log2(2 * raw).value.value == (Log2(raw).value.value.0 + ONE, false)
  {
    OneIsPow10();
    BinaryLogTotalAtTwelve(2 * raw);
    BinaryLogDoubling(raw, ONE);
  }

  // ---------------------------------------------------------------------
  // Natural logarithm

  /** `FixedPoint::ln` returning a `FixedPoint`: the binary logarithm
      divided by log2(e), keeping its sign flag. */
  function Ln(raw: u128): (r: Run<Option<(u128, bool)>>)
    ensures r.Panics? <==> raw == 0
    ensures r.Returns? ==> r.value.Some? && (r.value.value.1 <==> raw < ONE)
  {
    match Log2(raw)
    case Panics => Panics
    case Returns(None) => Returns(None)
    case Returns(Some((l, negative))) =>
      Log2Bracket(raw);
      MulMonotone(l, 128 * ONE, ONE);
      if !FixedDivDefined(l, LOG2_E) then Panics
      else Returns(Some((FixedDiv(l, LOG2_E), negative)))
  }

  /** The natural logarithm is the binary one divided by log2(e), rounded
      down to twelve places, and so never larger than the binary one. */
  lemma LnFromLog2(raw: u128)
    requires raw > 0
    ensures var l := Log2(raw).value.value.0;
      var v := Ln(raw).value.value.0;
      v * LOG2_E <= l * ONE < (v + 1) * LOG2_E && v <= l
  {
    var l := Log2(raw).value.value.0;
    var v := Ln(raw).value.value.0;
    FloorDivBracket(l * ONE, LOG2_E);
  }

  /** ln(1) = 0, through the exact path of the binary logarithm. */
  lemma LnOfOne()
    ensures Ln(ONE) == Returns(Some((0, false)))
  {
    Log2OneAndHalf();
  }

  /** `FixedPoint::ln` returning a raw u128: the magnitude only, with the
      multiplication by the unit checked separately. */
  function RawLn(raw: u128): (r: Run<Option<u128>>)
    ensures r.Panics? <==> raw == 0
  {
    match Log2(raw)
    case Panics => Panics
    case Returns(None) => Returns(None)
    case Returns(Some((l, _))) =>
      if l * ONE >= U128_LIMIT then Returns(None)
      else Returns(Some(FloorDiv(l * ONE, LOG2_E)))
  }

  /** The raw natural logarithm is the magnitude of the `FixedPoint` one:
      the sign is dropped and nothing else differs. */
  lemma RawLnIsMagnitude(raw: u128)
    requires raw > 0
    ensures RawLn(raw) == Returns(Some(Ln(raw).value.value.0))
  {
    var l := Log2(raw).value.value.0;
    Log2Bracket(raw);
    MulMonotone(l, 128 * ONE, ONE);
  }

  // ---------------------------------------------------------------------
  // Decimal logarithm

  /** The exact decimal logarithms the original lists: the distance of the
      exponent of a power of ten from twelve, and zero for anything else. */
  function TableExponent(v: nat): nat
  {
    match v
    case 1 => 12
    case 10 => 11
    case 100 => 10
    case 1000 => 9
    case 10000 => 8
    case 100000 => 7
    case 1000000 => 6
    case 10000000 => 5
    case 100000000 => 4
    case 1000000000 => 3
    case 10000000000 => 2
    case 100000000000 => 1
    case 1000000000000 => 0
    case 10000000000000 => 1
    case 100000000000000 => 2
    case 1000000000000000 => 3
    case 10000000000000000 => 4
    case 100000000000000000 => 5
    case 1000000000000000000 => 6
    case 10000000000000000000 => 7
    case 100000000000000000000 => 8
    case 1000000000000000000000 => 9
    case 10000000000000000000000 => 10
    case 100000000000000000000000 => 11
    case 1000000000000000000000000 => 12
    case _ => 0
  }

  /** `FixedPoint::log10`: zero fails the assertion, one is exactly zero,
      the listed powers of ten are exact, and anything else is the binary
      logarithm divided by log2(10). */
  function Log10(raw: u128): (r: Run<Option<(u128, bool)>>)
    ensures r.Panics? <==> raw == 0
    ensures r.Returns? ==> r.value.Some? && (r.value.value.1 <==> raw < ONE)
  {
    if raw == 0 then Panics
    else if raw == ONE then Returns(Some((0, false)))
    else
      var negative := raw < ONE;
      var e := TableExponent(raw);
      if e > 0 then
        Returns(Some((e * ONE, negative)))
      else
        match Log2(raw)
        case Panics => Panics
        case Returns(None) => Returns(None)
        case Returns(Some((l, log2Negative))) =>
          Log2Bracket(raw);
          MulMonotone(l, 128 * ONE, ONE);
          if !FixedDivDefined(l, LOG2_10) then Panics
          else Returns(Some((FixedDiv(l, LOG2_10), negative && log2Negative)))
  }

  /** The table gives the exact logarithm of every power of ten it lists. */
  lemma TableExponentOfPower(k: nat)
    requires k <= 24
    ensures TableExponent(Pow10(k)) == if k <= 12 then 12 - k else k - 12
  {
    Pow10Table();
    if k <= 12 { TableExponentUpToOne(k); } else { TableExponentAboveOne(k); }
  }

  /** The powers 10^0 to 10^12. */
  lemma TableExponentUpToOne(k: nat)
    requires k <= 12
    ensures TableExponent(Pow10(k)) == 12 - k
  {
    Pow10Table();
    match k
    case 0 => assert TableExponent(1) == 12;
    case 1 => assert TableExponent(10) == 11;
    case 2 => assert TableExponent(100) == 10;
    case 3 => assert TableExponent(1000) == 9;
    case 4 => assert TableExponent(10000) == 8;
    case 5 => assert TableExponent(100000) == 7;
    case 6 => assert TableExponent(1000000) == 6;
    case 7 => assert TableExponent(10000000) == 5;
    case 8 => assert TableExponent(100000000) == 4;
    case 9 => assert TableExponent(1000000000) == 3;
    case 10 => assert TableExponent(10000000000) == 2;
    case 11 => assert TableExponent(100000000000) == 1;
    case 12 => assert TableExponent(1000000000000) == 0;
  }

  /** The powers 10^13 to 10^24. */
  lemma TableExponentAboveOne(k: nat)
    requires 12 < k <= 24
    ensures TableExponent(Pow10(k)) == k - 12
  {
    Pow10Table();
    match k
    case 13 => assert TableExponent(10000000000000) == 1;
    case 14 => assert TableExponent(100000000000000) == 2;
    case 15 => assert TableExponent(1000000000000000) == 3;
    case 16 => assert TableExponent(10000000000000000) == 4;
    case 17 => assert TableExponent(100000000000000000) == 5;
    case 18 => assert TableExponent(1000000000000000000) == 6;
    case 19 => assert TableExponent(10000000000000000000) == 7;
    case 20 => assert TableExponent(100000000000000000000) == 8;
    case 21 => assert TableExponent(1000000000000000000000) == 9;
    case 22 => assert TableExponent(10000000000000000000000) == 10;
    case 23 => assert TableExponent(100000000000000000000000) == 11;
    case 24 => assert TableExponent(1000000000000000000000000) == 12;
  }

  /** Only powers of ten are in the table: a nonzero entry is the distance
      from twelve of the exponent of a power of ten on the same side of one
      as the number. */
  lemma TableOnlyPowers(v: nat)
    requires TableExponent(v) > 0
    ensures var e := TableExponent(v);
      e <= 12 && (if v < ONE then v == Pow10(12 - e) else v == Pow10(12 + e))
  {
    Pow10Table();
    match v
    case 1 => assert v == Pow10(0);
    case 10 => assert v == Pow10(1);
    case 100 => assert v == Pow10(2);
    case 1000 => assert v == Pow10(3);
    case 10000 => assert v == Pow10(4);
    case 100000 => assert v == Pow10(5);
    case 1000000 => assert v == Pow10(6);
    case 10000000 => assert v == Pow10(7);
    case 100000000 => assert v == Pow10(8);
    case 1000000000 => assert v == Pow10(9);
    case 10000000000 => assert v == Pow10(10);
    case 100000000000 => assert v == Pow10(11);
    case 10000000000000 => assert v == Pow10(13);
    case 100000000000000 => assert v == Pow10(14);
    case 1000000000000000 => assert v == Pow10(15);
    case 10000000000000000 => assert v == Pow10(16);
    case 100000000000000000 => assert v == Pow10(17);
    case 1000000000000000000 => assert v == Pow10(18);
    case 10000000000000000000 => assert v == Pow10(19);
    case 100000000000000000000 => assert v == Pow10(20);
    case 1000000000000000000000 => assert v == Pow10(21);
    case 10000000000000000000000 => assert v == Pow10(22);
    case 100000000000000000000000 => assert v == Pow10(23);
    case 1000000000000000000000000 => assert v == Pow10(24);
  }

  /** The decimal logarithm of 10^k / 10^12 is exactly k - 12. */
  lemma Log10OfPowerOfTen(k: nat)
    requires k <= 24
    ensures Pow10(k) < U128_LIMIT
    ensures Log10(Pow10(k)) ==
      Returns(Some(((if k <= 12 then 12 - k else k - 12) * ONE, k < 12)))
  {
    Pow10Table();
    Pow10Monotone(k, 24);
    TableExponentOfPower(k);
    if k != 12 {
      if k < 12 {
        Pow10Monotone(k, 11);
      } else {
        Pow10Monotone(13, k);
      }
    }
  }

  /** Away from the table the decimal logarithm is the binary one divided
      by log2(10), rounded down. */
  lemma Log10FromLog2(raw: u128)
    requires raw > 0 && raw != ONE && TableExponent(raw) == 0
    ensures var l := Log2(raw).value.value.0;
      var v := Log10(raw).value.value.0;
      v * LOG2_10 <= l * ONE < (v + 1) * LOG2_10 && v <= l
  {
    var l := Log2(raw).value.value.0;
    var v := Log10(raw).value.value.0;
    FloorDivBracket(l * ONE, LOG2_10);
  }
}
