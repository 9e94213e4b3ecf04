/** The binary logarithm of a fixed-point number, shared by the three entry
    points of the library (a `Decimal`, a `FixedPoint` returning a
    `FixedPoint`, a `FixedPoint` returning a raw `u128`).

    A number is a magnitude `x` over a unit `p` (a power of ten). The
    logarithm is returned as a magnitude over the same unit together with a
    flag that says it is negative. Below one the algorithm takes the
    logarithm of the reciprocal `p * p / x`. The integer part is the index of
    the most significant bit of `x / p`; the fractional part is produced one
    binary digit per iteration by repeated squaring. A checked operation that
    fails gives `None`. */
module Log2Kernel {
  import opened Bounded

  /** The index of the most significant bit: `127 - leading_zeros(q)`. */
  function IntegerBit(q: nat): (n: nat)
    requires q > 0
    ensures Pow2(n) <= q < Pow2(n + 1)
  {
    BitLengthBounds(q);
    var n: nat := BitLength(q) - 1;
    assert Pow2(n) <= q < Pow2(n + 1);
    n
  }

  /** The fixed-point reciprocal of a positive number below one is at least
      one. */
  lemma ReciprocalAtLeastOne(x: nat, p: nat, q: nat)
    requires 0 < x < p
    requires q * x <= p * p < (q + 1) * x
    ensures q >= p
  {
    if q < p {
      MulMonotone(q + 1, p, x);
      MulMonotone(x, p, p);
    }
  }

  /** The number whose logarithm is computed: `x` itself, or its reciprocal
      `p * p / x` when `x` is below one. */
  function Magnitude(x: nat, p: nat): (m: nat)
    requires 0 < x && 0 < p
    ensures m >= p
  {
    if x < p then
      var q := FloorDiv(p * p, x);
      FloorDivBracket(p * p, x);
      ReciprocalAtLeastOne(x, p, q);
      q
    else x
  }

  /** The fractional-digit loop. `y` is the current mantissa in [1, 2) as a
      multiple of `p`, `z` the weight of the next binary digit. Squaring the
      mantissa doubles its logarithm; when the square reaches two the digit
      is one, its weight is added and the square is halved. */
  function FracLoop(y: nat, z: nat, p: nat, acc: u128): (r: Option<u128>)
    requires p > 0
    ensures r.Some? ==> acc <= r.value && (r.value == acc || r.value < acc + 2 * z)
    decreases z
  {
    if z == 0 then Some(acc)
    else if y * y >= U128_LIMIT then None
    else
      var sq := FloorDiv(y * y, p);
      if 2 * p >= U128_LIMIT then None
      else if sq >= 2 * p then
        if acc + z >= U128_LIMIT then None
        else FracLoop(sq / 2, z / 2, p, acc + z)
      else FracLoop(sq, z / 2, p, acc)
  }

  /** The logarithm once the integer part `base` (a multiple of `p`) and the
      mantissa `y` in [1, 2) are known: exact when the mantissa is one,
      otherwise completed by the fraction loop starting from the digit of
      weight one half. */
  function FromMantissa(y: nat, base: nat, p: nat): (r: Option<u128>)
    requires p > 0
  {
    if base >= U128_LIMIT then None
    else if y == p then Some(base)
    else FracLoop(y, p / 2, p, base)
  }

  /** The binary logarithm of a magnitude `m / p` at least one, as a
      magnitude over `p`: the integer part from the most significant bit of
      `m / p`, the mantissa `m / 2^n`. */
  function LogOfMagnitude(m: nat, p: nat): (r: Option<u128>)
    requires 0 < p <= m
  {
    var n := IntegerBit(FloorDiv(m, p));
    FromMantissa(FloorDiv(m, Pow2(n)), n * p, p)
  }

  /** The binary logarithm of `x / p`: its magnitude over `p` and whether it is
      negative, or `None` when a checked operation overflows. */
  function BinaryLog(x: nat, p: nat): (r: Option<(u128, bool)>)
    requires 0 < x < U128_LIMIT && 0 < p < U128_LIMIT
  {
    var negative := x < p;
    if negative && p * p >= U128_LIMIT then None
    else
      match LogOfMagnitude(Magnitude(x, p), p)
      case None => None
      case Some(v) => Some((v, negative))
  }

  /** The algorithm as the library writes it: the reciprocal below one,
      then the logarithm of the magnitude. */
  method ComputeBinaryLog(x: u128, p: u128) returns (r: Option<(u128, bool)>)
    requires x > 0 && p > 0
    ensures r == BinaryLog(x, p)
  {
    var negative := x < p;
    var m: nat := x;
    if negative {
      if p * p >= U128_LIMIT {
        return None;
      }
      m := FloorDiv(p * p, x);
    }
    assert m == Magnitude(x, p);
    var log := ComputeLogOfMagnitude(m, p);
    if log.None? {
      return None;
    }
    return Some((log.value, negative));
  }

  /** The integer part from the most significant bit of `m / p`, returned
      at once when the mantissa is exactly one, else completed by the digit
      loop. */
  method ComputeLogOfMagnitude(m: nat, p: nat) returns (r: Option<u128>)
    requires 0 < p <= m
    ensures r == LogOfMagnitude(m, p)
  {
    var n := IntegerBit(FloorDiv(m, p));
    var y: nat := FloorDiv(m, Pow2(n));
    LogOfMagnitudeParts(m, p, n, y);
    if n * p >= U128_LIMIT {
      return None;
    }
    var result: u128 := n * p;
    if y == p {
      return Some(result);
    }
    r := FractionDigits(y, p, result);
  }

  /** The loop producing one binary digit of the fraction per halving of
      `z`, from the mantissa `y` and the integer part `acc`. */
  method FractionDigits(mantissa: nat, p: nat, acc: u128) returns (r: Option<u128>)
    requires p > 0
    ensures r == FracLoop(mantissa, p / 2, p, acc)
  {
    var z: nat := p / 2;
    var y: nat := mantissa;
    var result: u128 := acc;
    while z > 0
      invariant FracLoop(y, z, p, result) == FracLoop(mantissa, p / 2, p, acc)
      decreases z
    {
      var square := y * y;
      if square >= U128_LIMIT {
        return None;
      }
      y := FloorDiv(square, p);
      if 2 * p >= U128_LIMIT {
        return None;
      }
      if y >= 2 * p {
        if result + z >= U128_LIMIT {
          return None;
        }
        result := result + z;
        y := y / 2;
      }
      z := z / 2;
    }
    return Some(result);
  }

  // ---------------------------------------------------------------------
  // What the result means

  /** The magnitude `m / p` lies in [2^k, 2^(k+1)): k is the floor of its
      binary logarithm. */
  predicate PowerBracket(m: nat, p: nat, k: nat)
  {
    Pow2(k) * p <= m < Pow2(k + 1) * p
  }

  /** Powers of two times the unit bracket the magnitude. */
  lemma ScaledBracket(m: nat, p: nat, q: nat, n: nat)
    requires p > 0
    requires q * p <= m < (q + 1) * p
    requires Pow2(n) <= q < Pow2(n + 1)
    ensures Pow2(n) * p <= m < Pow2(n + 1) * p
  {
    MulMonotone(Pow2(n), q, p);
    MulMonotone(q + 1, Pow2(n + 1), p);
  }

  /** A weighted sum below one unit leaves the integer part alone. */
  lemma IntegerPartOf(r: nat, n: nat, p: nat)
    requires p > 0 && n * p <= r < n * p + p
    ensures FloorDiv(r, p) == n
  {
    DivUnique(r, p, n);
  }

  /** The logarithm of a magnitude has the floor of its binary logarithm as
      integer part. */
  lemma LogOfMagnitudeIntegerPart(m: nat, p: nat)
    requires 0 < p <= m && LogOfMagnitude(m, p).Some?
    ensures PowerBracket(m, p, FloorDiv(LogOfMagnitude(m, p).value, p))
  {
    var q := FloorDiv(m, p);
    var n := IntegerBit(q);
    var r := LogOfMagnitude(m, p).value;
    assert FloorDiv(r, p) == n by {
      FractionBelowUnit(m, p);
      IntegerPartOf(r, n, p);
    }
    assert PowerBracket(m, p, n) by {
      FloorDivBracket(m, p);
      ScaledBracket(m, p, q, n);
    }
  }

  /** The fraction digits weigh less than one unit together. */
  lemma FractionBelowUnit(m: nat, p: nat)
    requires 0 < p <= m && LogOfMagnitude(m, p).Some?
    ensures var n := IntegerBit(FloorDiv(m, p));
      n * p <= LogOfMagnitude(m, p).value < n * p + p
  {
    assert 2 * (p / 2) <= p;
  }

  /** The integer part of the logarithm is the floor of the binary logarithm
      of the magnitude (x, or its reciprocal below one), and the sign flag
      says whether x is below one. */
  lemma BinaryLogIntegerPart(x: nat, p: nat)
    requires 0 < x < U128_LIMIT && 0 < p < U128_LIMIT
    requires BinaryLog(x, p).Some?
    ensures BinaryLog(x, p).value.1 <==> x < p
    ensures PowerBracket(Magnitude(x, p), p, FloorDiv(BinaryLog(x, p).value.0, p))
  {
    var m := Magnitude(x, p);
    assert BinaryLog(x, p).value.0 == LogOfMagnitude(m, p).value;
    LogOfMagnitudeIntegerPart(m, p);
  }

  /** Dividing an exact multiple gives the multiplier. */
  lemma FloorDivExact(v: nat, p: nat, q: nat)
    requires p > 0 && (v == q * p || v == p * q)
    ensures FloorDiv(v, p) == q
  {
    var r := FloorDiv(v, p);
    FloorDivBracket(v, p);
    if r < q {
      MulMonotone(r + 1, q, p);
    } else if r > q {
      MulMonotone(q + 1, r, p);
    }
  }

  /** The most significant bit of a power of two is its exponent. */
  lemma IntegerBitOfPower(k: nat)
    ensures IntegerBit(Pow2(k)) == k
  {
    assert Pow2(k + 1) == 2 * Pow2(k);
    BitLengthUnique(Pow2(k), k);
  }

  /** A magnitude whose mantissa is exactly one has no fractional part. */
  lemma LogOfMagnitudeExact(m: nat, p: nat, k: nat)
    requires 0 < p <= m && k * p < U128_LIMIT
    requires IntegerBit(FloorDiv(m, p)) == k && FloorDiv(m, Pow2(k)) == p
    ensures LogOfMagnitude(m, p) == Some(k * p)
  {
  }

  /** A magnitude that is an exact power of two has that exponent as its
      logarithm. */
  lemma LogOfMagnitudePower(k: nat, p: nat)
    requires 0 < p && k * p < U128_LIMIT
    ensures Pow2(k) * p >= p
    ensures LogOfMagnitude(Pow2(k) * p, p) == Some(k * p)
  {
    var a := Pow2(k);
    var m := a * p;
    assert m >= p by {
      MulMonotone(1, a, p);
    }
    assert FloorDiv(m, p) == a by {
      FloorDivExact(m, p, a);
    }
    assert IntegerBit(a) == k by {
      IntegerBitOfPower(k);
    }
    assert FloorDiv(m, a) == p by {
      FloorDivExact(m, a, p);
    }
    LogOfMagnitudeExact(m, p, k);
  }

  /** The logarithm of an exact power of two is that exponent, with no
      fractional part. */
  lemma BinaryLogPowerOfTwo(k: nat, p: nat)
    requires 0 < p && Pow2(k) * p < U128_LIMIT && k * p < U128_LIMIT
    ensures BinaryLog(Pow2(k) * p, p) == Some((k * p, false))
  {
    LogOfMagnitudePower(k, p);
  }

  /** The logarithm of the reciprocal of a power of two is minus that
      exponent: x * 2^k == p gives the magnitude k with the negative flag. */
  lemma BinaryLogReciprocalPowerOfTwo(k: nat, x: nat, p: nat)
    requires k > 0 && 0 < x && x * Pow2(k) == p
    requires p * p < U128_LIMIT && k * p < U128_LIMIT
    ensures BinaryLog(x, p) == Some((k * p, true))
  {
    var a := Pow2(k);
    assert a == 2 * Pow2(k - 1);
    ReciprocalOfPower(x, a, p);
    FloorDivExact(p * p, x, a * p);
    assert Magnitude(x, p) == a * p;
    LogOfMagnitudePower(k, p);
  }

  /** When `x * a == p` with `a` at least two, `x` is below one and the
      square of the unit is `a * p` times `x`. */
  lemma ReciprocalOfPower(x: nat, a: nat, p: nat)
    requires a >= 2 && 0 < x && x * a == p
    ensures x < p && p * p == (a * p) * x
  {
    MulMonotone(2, a, x);
    MulAssoc(x, p, a);
  }

  // ---------------------------------------------------------------------
  // Doubling the argument adds one

  /** Raising the accumulator raises the result by as much, and cannot make
      the loop succeed where it failed. */
  lemma {:induction false} FracLoopShift(y: nat, z: nat, p: nat, acc: u128, d: nat)
    requires p > 0 && acc + d < U128_LIMIT
    requires FracLoop(y, z, p, acc + d).Some?
    ensures FracLoop(y, z, p, acc).Some?
    ensures FracLoop(y, z, p, acc + d).value == FracLoop(y, z, p, acc).value + d
    decreases z
  {
    if z > 0 {
      assert y * y < U128_LIMIT && 2 * p < U128_LIMIT;
      var sq := FloorDiv(y * y, p);
      if sq >= 2 * p {
        assert acc + d + z < U128_LIMIT;
        assert FracLoop(y, z, p, acc + d) == FracLoop(sq / 2, z / 2, p, acc + d + z);
        FracLoopShift(sq / 2, z / 2, p, acc + z, d);
        assert FracLoop(y, z, p, acc) == FracLoop(sq / 2, z / 2, p, acc + z);
      } else {
        assert FracLoop(y, z, p, acc + d) == FracLoop(sq, z / 2, p, acc + d);
        FracLoopShift(sq, z / 2, p, acc, d);
        assert FracLoop(y, z, p, acc) == FracLoop(sq, z / 2, p, acc);
      }
    }
  }

  /** Halving the mantissa's divisor along with doubling the number leaves
      the mantissa unchanged. */
  lemma DoubledMantissa(x: nat, n: nat)
    ensures FloorDiv(2 * x, Pow2(n + 1)) == FloorDiv(x, Pow2(n))
  {
    assert Pow2(n + 1) == Pow2(n) * 2;
    DivDiv(2 * x, 2, Pow2(n));
    assert (2 * x) / 2 == x;
  }

  /** A bracket of the numerator between multiples of the divisor brackets
      the quotient. */
  lemma QuotientBracket(m: nat, p: nat, q: nat, a: nat, b: nat)
    requires p > 0
    requires q * p <= m < (q + 1) * p
    requires a * p <= m < b * p
    ensures a <= q < b
  {
    if q < a {
      MulMonotone(q + 1, a, p);
    }
    if q >= b {
      MulMonotone(b, q, p);
    }
  }

  lemma DoubledBracket(a: nat, p: nat, m: nat)
    requires a * p <= m < (2 * a) * p
    ensures (2 * a) * p <= 2 * m < (2 * (2 * a)) * p
  {
  }

  /** Doubling a magnitude adds one to its most significant bit. */
  lemma IntegerBitDoubling(m: nat, p: nat)
    requires 0 < p <= m
    ensures IntegerBit(FloorDiv(2 * m, p)) == IntegerBit(FloorDiv(m, p)) + 1
  {
    var q, q2 := FloorDiv(m, p), FloorDiv(2 * m, p);
    var n := IntegerBit(q);
    FloorDivBracket(m, p);
    FloorDivBracket(2 * m, p);
    ScaledBracket(m, p, q, n);
    assert Pow2(n + 1) == 2 * Pow2(n) && Pow2(n + 2) == 2 * Pow2(n + 1);
    DoubledBracket(Pow2(n), p, m);
    QuotientBracket(2 * m, p, q2, Pow2(n + 1), Pow2(n + 2));
    BitLengthUnique(q2, n + 1);
  }

  /** Doubling a magnitude adds one to its logarithm, exactly, whenever the
      doubled magnitude's logarithm does not overflow. */
  lemma LogOfMagnitudeDoubling(m: nat, p: nat)
    requires 0 < p <= m
    requires LogOfMagnitude(2 * m, p).Some?
    ensures LogOfMagnitude(m, p).Some?
    ensures LogOfMagnitude(2 * m, p).value == LogOfMagnitude(m, p).value + p
  {
    var n := IntegerBit(FloorDiv(m, p));
    var y := FloorDiv(m, Pow2(n));
    LogOfMagnitudeParts(m, p, n, y);
    DoubledParts(m, p);
    MulMonotone(0, n, p);
    FromMantissaShift(y, n * p, p);
  }

  /** The doubled magnitude has the same mantissa and one more unit of
      integer part. */
  lemma DoubledParts(m: nat, p: nat)
    requires 0 < p <= m
    ensures var n := IntegerBit(FloorDiv(m, p));
      LogOfMagnitude(2 * m, p) == FromMantissa(FloorDiv(m, Pow2(n)), n * p + p, p)
  {
    var n := IntegerBit(FloorDiv(m, p));
    IntegerBitDoubling(m, p);
    DoubledMantissa(m, n);
    LogOfMagnitudeParts(2 * m, p, n + 1, FloorDiv(m, Pow2(n)));
    NextMultiple(n, p);
  }

  lemma NextMultiple(n: nat, p: nat)
    ensures (n + 1) * p == n * p + p
  {
  }

  /** The logarithm of a magnitude from its integer part and mantissa. */
  lemma LogOfMagnitudeParts(m: nat, p: nat, n: nat, y: nat)
    requires 0 < p <= m
    requires n == IntegerBit(FloorDiv(m, p)) && y == FloorDiv(m, Pow2(n))
    ensures LogOfMagnitude(m, p) == FromMantissa(y, n * p, p)
  {
  }

  /** One more unit in the integer part adds one unit to the logarithm. */
  lemma FromMantissaShift(y: nat, base: nat, p: nat)
    requires p > 0 && FromMantissa(y, base + p, p).Some?
    ensures FromMantissa(y, base, p).Some?
    ensures FromMantissa(y, base + p, p).value == FromMantissa(y, base, p).value + p
  {
    if y != p {
      FracLoopShift(y, p / 2, p, base, p);
    }
  }

  /** The binary logarithm of twice a number at least one is one more than
      its logarithm, exactly, whenever the doubled number's logarithm is
      computed without overflow. */
  lemma BinaryLogDoubling(x: nat, p: nat)
    requires 0 < p <= x && 2 * x < U128_LIMIT
    requires BinaryLog(2 * x, p).Some?
    ensures BinaryLog(x, p).Some?
    ensures BinaryLog(2 * x, p).value == (BinaryLog(x, p).value.0 + p, false)
  {
    LogOfMagnitudeDoubling(x, p);
  }

  // ---------------------------------------------------------------------
  // At twelve decimal places the logarithm never overflows

  lemma MulStrict(a: nat, b: nat, c: nat)
    requires a < b && c > 0
    ensures a * c < b * c
  {
  }

  /** The square of a mantissa in [1, 2) lies in [1, 4). */
  lemma SquareBounds(y: nat, p: nat)
    requires p > 0 && p <= y < 2 * p
    ensures p * p <= y * y < 4 * (p * p)
  {
    MulMonotone(p, y, p);
    MulMonotone(p, y, y);
    MulMonotone(y, 2 * p, y);
    MulStrict(y, 2 * p, 2 * p);
  }

  /** Dividing a square in [1, 4) by the unit gives a mantissa in [1, 4). */
  lemma SquareStepCore(s: nat, pp: nat, p: nat, sq: nat)
    requires p > 0 && pp == p * p && pp <= s < 4 * pp
    requires sq * p <= s < (sq + 1) * p
    ensures p <= sq < 4 * p
  {
    if sq < p {
      MulMonotone(sq + 1, p, p);
    }
    if sq >= 4 * p {
      MulMonotone(4 * p, sq, p);
    }
  }

  lemma SquareBelowLimit(y: nat, p: nat)
    requires p > 0 && p <= y < 2 * p && 4 * (p * p) <= U128_LIMIT
    ensures y * y < U128_LIMIT
  {
    SquareBounds(y, p);
  }

  /** With room for the square of a mantissa below two and for every weight
      still to come, the loop cannot fail. */
  lemma {:induction false} FracLoopTotal(y: nat, z: nat, p: nat, acc: u128)
    requires p > 0 && p <= y < 2 * p && 4 * (p * p) <= U128_LIMIT
    requires acc + 2 * z <= U128_LIMIT
    ensures FracLoop(y, z, p, acc).Some?
    decreases z
  {
    if z > 0 {
      SquareBounds(y, p);
      MulMonotone(1, p, p);
      assert y * y < U128_LIMIT && 2 * p < U128_LIMIT;
      var sq := FloorDiv(y * y, p);
      FloorDivBracket(y * y, p);
      SquareStepCore(y * y, p * p, p, sq);
      if sq >= 2 * p {
        assert acc + z < U128_LIMIT;
        FracLoopTotal(sq / 2, z / 2, p, acc + z);
        assert FracLoop(y, z, p, acc) == FracLoop(sq / 2, z / 2, p, acc + z);
      } else {
        FracLoopTotal(sq, z / 2, p, acc);
        assert FracLoop(y, z, p, acc) == FracLoop(sq, z / 2, p, acc);
      }
    }
  }

  /** The mantissa after the shift lies in [1, 2). */
  lemma MantissaBracket(m: nat, p: nat, n: nat)
    requires p > 0 && Pow2(n) * p <= m < Pow2(n + 1) * p
    ensures p <= FloorDiv(m, Pow2(n)) < 2 * p
  {
    var a := Pow2(n);
    assert Pow2(n + 1) == 2 * a;
    var y := FloorDiv(m, a);
    FloorDivBracket(m, a);
    assert p * a <= m < (2 * p) * a by {
      MulAssoc(2, p, a);
    }
    QuotientBracket(m, a, y, p, 2 * p);
  }

  /** With room for the square of a mantissa below two and for every
      integer part a u128 can hold, the logarithm of a magnitude is always
      computed. */
  lemma LogOfMagnitudeTotal(m: nat, p: nat)
    requires 0 < p <= m < U128_LIMIT
    requires 4 * (p * p) <= U128_LIMIT && 128 * p <= U128_LIMIT
    ensures LogOfMagnitude(m, p).Some?
  {
    var n := IntegerBit(FloorDiv(m, p));
    IntegerBitBelow128(m, p);
    IntegerPartRoom(n, p);
    MantissaInRange(m, p);
    FracLoopTotal(FloorDiv(m, Pow2(n)), p / 2, p, n * p);
    LogOfMagnitudeViaLoop(m, p, n);
  }

  /** A u128 magnitude has its most significant bit below 128. */
  lemma IntegerBitBelow128(m: nat, p: nat)
    requires 0 < p <= m < U128_LIMIT
    ensures IntegerBit(FloorDiv(m, p)) < 128
  {
    var n := IntegerBit(FloorDiv(m, p));
    Pow2Values();
    if n >= 128 {
      Pow2Monotone(128, n);
    }
  }

  /** An integer part below 128 leaves room for a full unit of fraction. */
  lemma IntegerPartRoom(n: nat, p: nat)
    requires n < 128 && 128 * p <= U128_LIMIT
    ensures n * p + p <= U128_LIMIT && n * p + 2 * (p / 2) <= U128_LIMIT
  {
    MulMonotone(n + 1, 128, p);
  }

  /** The mantissa of a magnitude lies in [1, 2). */
  lemma MantissaInRange(m: nat, p: nat)
    requires 0 < p <= m
    ensures var n := IntegerBit(FloorDiv(m, p));
      p <= FloorDiv(m, Pow2(n)) < 2 * p
  {
    var q := FloorDiv(m, p);
    var n := IntegerBit(q);
    FloorDivBracket(m, p);
    ScaledBracket(m, p, q, n);
    MantissaBracket(m, p, n);
  }

  /** When the fraction loop succeeds, so does the logarithm. */
  lemma LogOfMagnitudeViaLoop(m: nat, p: nat, n: nat)
    requires 0 < p <= m && n == IntegerBit(FloorDiv(m, p)) && n * p < U128_LIMIT
    requires FracLoop(FloorDiv(m, Pow2(n)), p / 2, p, n * p).Some?
    ensures LogOfMagnitude(m, p).Some?
  {
  }

  /** The logarithm of a u128 magnitude is below 128 units. */
  lemma LogOfMagnitudeBelow(m: nat, p: nat)
    requires 0 < p <= m < U128_LIMIT && LogOfMagnitude(m, p).Some?
    ensures LogOfMagnitude(m, p).value < 128 * p
  {
    var n := IntegerBit(FloorDiv(m, p));
    FractionBelowUnit(m, p);
    IntegerBitBelow128(m, p);
    UnitsBelow128(n, p);
  }

  lemma UnitsBelow128(n: nat, p: nat)
    requires n < 128
    ensures n * p + p <= 128 * p
  {
    MulMonotone(n + 1, 128, p);
  }

  /** The logarithm's magnitude is below 128 units, whichever side of one
      the number lies. */
  lemma BinaryLogBelow(x: nat, p: nat)
    requires 0 < x < U128_LIMIT && 0 < p < U128_LIMIT
    requires BinaryLog(x, p).Some?
    ensures BinaryLog(x, p).value.0 < 128 * p
  {
    var m := Magnitude(x, p);
    if x < p {
      FloorDivBracket(p * p, x);
      DivAtMost(p * p, x);
    }
    assert m < U128_LIMIT;
    LogOfMagnitudeBelow(m, p);
  }

  /** With room for the square of a mantissa below two, every positive u128
      has a logarithm. */
  lemma BinaryLogTotal(x: nat, p: nat)
    requires 0 < x < U128_LIMIT && 0 < p && 4 * (p * p) <= U128_LIMIT
    ensures BinaryLog(x, p).Some?
  {
    ScaleRoom(p);
    var m := Magnitude(x, p);
    MagnitudeFits(x, p);
    LogOfMagnitudeTotal(m, p);
  }

  /** A scale whose square fits four times over also fits 128 times. */
  lemma ScaleRoom(p: nat)
    requires 0 < p && 4 * (p * p) <= U128_LIMIT
    ensures p < U128_LIMIT && p * p < U128_LIMIT && 128 * p <= U128_LIMIT
  {
    MulMonotone(1, p, p);
    if p >= 32 {
      MulMonotone(128, 4 * p, p);
      MulAssoc(4, p, p);
    }
  }

  /** The magnitude of a u128 fits a u128 when the square of the scale
      does. */
  lemma MagnitudeFits(x: nat, p: nat)
    requires 0 < x < U128_LIMIT && 0 < p && p * p < U128_LIMIT
    ensures Magnitude(x, p) < U128_LIMIT
  {
    if x < p {
      DivAtMost(p * p, x);
    }
  }

  /** At twelve decimal places every positive u128 has a logarithm. */
  lemma BinaryLogTotalAtTwelve(x: nat)
    requires 0 < x < U128_LIMIT
    ensures BinaryLog(x, Pow10(12)).Some?
  {
    Pow10Twelve();
    BinaryLogTotal(x, Pow10(12));
  }
}
