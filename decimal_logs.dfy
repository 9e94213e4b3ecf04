/** The logarithms of a `Decimal`. The binary logarithm runs the shared
    kernel at the unit `10^scale` of the operand; the natural logarithm
    first moves the operand to the compute scale and divides the binary
    logarithm by log2(e); the decimal logarithm recognises one and the
    powers of ten exactly and otherwise divides the binary logarithm by
    log2(10). The original returns a `Result` that is always `Ok`: every
    failure is a panic. */
module DecimalLogs {
  import opened Bounded
  import opened Log2Kernel
  import opened DecimalBase
  import opened DecimalDiv
  import FixedLogs

  const ONE: nat := 1_000_000_000_000

  /** log2(e) and log2(10) at the compute scale. */
  function Log2E(): Decimal
  {
    Decimal(1_442695040888, COMPUTE_SCALE, false)
  }

  function Log2Ten(): Decimal
  {
    Decimal(3_321928094887, COMPUTE_SCALE, false)
  }

  // ---------------------------------------------------------------------
  // Binary logarithm

  /** `log2` as the original writes it: the kernel's result is a multiple
      of `10^scale` of the operand, but it is labelled with the compute
      scale before being moved to the operand's scale. */
  function Log2AsWritten(d: Decimal): (r: Run<Decimal>)
    ensures d.value == 0 ==> r.Panics?
    ensures r.Returns? ==> r.value.scale == d.scale && Pow10Fits(d.scale)
    ensures r.Returns? ==> (r.value.negative <==> d.value < Pow10(d.scale))
  {
    if d.value == 0 || !Pow10Fits(d.scale) then Panics
    else
      Pow10FitsU128(d.scale);
      match BinaryLog(d.value, Pow10(d.scale))
      case None => Panics
      case Some((v, negative)) =>
        BinaryLogIntegerPart(d.value, Pow10(d.scale));
        var labelled := Decimal(v, COMPUTE_SCALE, negative);
        if ToScaleDefined(labelled, d.scale) then Returns(ToScale(labelled, d.scale))
        else Panics
  }

  /** `log2` with the kernel's result kept at the operand's own scale: the
      binary logarithm of `value / 10^scale`, negative exactly when the
      operand is below one. Zero fails the assertion of the original, a
      scale whose power of ten leaves u128 panics, and so does any checked
      step of the kernel that overflows. */
  function Log2(d: Decimal): (r: Run<Decimal>)
    ensures d.value == 0 ==> r.Panics?
    ensures r.Returns? ==> r.value.scale == d.scale && Pow10Fits(d.scale)
    ensures r.Returns? ==> (r.value.negative <==> d.value < Pow10(d.scale))
  {
    if d.value == 0 || !Pow10Fits(d.scale) then Panics
    else
      Pow10FitsU128(d.scale);
      var p := Pow10(d.scale);
      match BinaryLog(d.value, p)
      case None => Panics
      case Some((v, negative)) =>
        BinaryLogIntegerPart(d.value, p);
        Returns(Decimal(v, d.scale, negative))
  }

  /** The binary logarithm as the original computes it, with the result
      kept at the operand's scale. */
  method ComputeLog2(d: Decimal) returns (r: Run<Decimal>)
    ensures r == Log2(d)
  {
    if d.value == 0 || !Pow10Fits(d.scale) {
      return Panics;
    }
    Pow10FitsU128(d.scale);
    var log := ComputeBinaryLog(d.value, Pow10(d.scale));
    if log.None? {
      return Panics;
    }
    r := Returns(Decimal(log.value.0, d.scale, log.value.1));
  }

  /** At the compute scale the label is right and the two agree. */
  lemma Log2AsWrittenAtComputeScale(d: Decimal)
    requires d.scale == COMPUTE_SCALE
    ensures Log2AsWritten(d) == Log2(d)
  {
    assert Pow10(0) == 1;
  }

  /** At two decimal places, log2(2.00) should be 1.00, but the value
      written is 0.00: the kernel's 100 (one at scale 2) is read as
      0.000000000100 and truncated. */
  lemma Log2AsWrittenAtScaleTwo()
    ensures Log2AsWritten(Decimal(200, 2, false)) == Returns(Decimal(0, 2, false))
    ensures Log2(Decimal(200, 2, false)) == Returns(Decimal(100, 2, false))
  {
    Pow10Twelve();
    assert Pow10(2) == 100;
    assert Pow2(1) == 2;
    BinaryLogPowerOfTwo(1, 100);
    assert Pow10(10) == 10000000000;
  }

  /** At the compute scale the binary logarithm of a `Decimal` is that of
      the `FixedPoint` with the same raw value. */
  lemma Log2AgreesWithFixedPoint(d: Decimal)
    requires d.scale == COMPUTE_SCALE && d.value > 0
    ensures var (l, negative) := FixedLogs.Log2(d.value).value.value;
      Log2(d) == Returns(Decimal(l, COMPUTE_SCALE, negative))
  {
    Pow10Twelve();
  }

  /** The integer part of the binary logarithm is the floor of the binary
      logarithm of the operand, or of its reciprocal below one. */
  lemma Log2IntegerPart(d: Decimal)
    requires Log2(d).Returns?
    ensures var p := Pow10(d.scale);
      p > 0 && d.value > 0 &&
      PowerBracket(Magnitude(d.value, p), p, FloorDiv(Log2(d).value.value, p))
  {
    Pow10FitsU128(d.scale);
    BinaryLogIntegerPart(d.value, Pow10(d.scale));
  }

  /** Up to eighteen decimal places the square of a mantissa fits in u128,
      so the binary logarithm of any positive operand is computed. */
  lemma Log2Total(d: Decimal)
    requires d.value > 0 && d.scale <= 18
    ensures Log2(d).Returns?
  {
    Pow10Table();
    Pow10Monotone(d.scale, 18);
    var p := Pow10(d.scale);
    MulMonotone(p, Pow10(18), p);
    MulMonotone(p, Pow10(18), Pow10(18));
    BinaryLogTotal(d.value, p);
  }

  /** The binary logarithm of 2^k is exactly k, at any scale where the
      result fits. */
  lemma Log2PowerOfTwo(k: nat, s: u8)
    requires Pow10Fits(s) && Pow2(k) * Pow10(s) < U128_LIMIT && k * Pow10(s) < U128_LIMIT
    ensures Pow2(k) * Pow10(s) < U128_LIMIT
    ensures Log2(Decimal(Pow2(k) * Pow10(s), s, false)) == Returns(Decimal(k * Pow10(s), s, false))
  {
    Pow10FitsU128(s);
    BinaryLogPowerOfTwo(k, Pow10(s));
  }

  /** Doubling an operand at least one adds exactly one to its binary
      logarithm. */
  lemma Log2Doubling(d: Decimal)
    requires Pow10Fits(d.scale) && Pow10(d.scale) <= d.value && 2 * d.value < U128_LIMIT
    requires Log2(Decimal(2 * d.value, d.scale, d.negative)).Returns?
    ensures Log2(d).Returns?
    ensures Log2(Decimal(2 * d.value, d.scale, d.negative)).value.value ==
      Log2(d).value.value + Pow10(d.scale)
  {
    Pow10FitsU128(d.scale);
    BinaryLogDoubling(d.value, Pow10(d.scale));
  }

  // ---------------------------------------------------------------------
  // Moving to the compute scale

  /** An operand is below one exactly when it is below one at the compute
      scale. */
  lemma BelowOneAtComputeScale(d: Decimal)
    requires ToScaleDefined(d, COMPUTE_SCALE)
    ensures ToScale(d, COMPUTE_SCALE).value < ONE <==> d.value < Pow10(d.scale)
  {
    var x := ToScale(d, COMPUTE_SCALE).value;
    assert x == Rescale(d.value, d.scale, 12);
    if d.scale < COMPUTE_SCALE {
      BelowOneRaised(d.value, d.scale, x);
    } else if d.scale > COMPUTE_SCALE {
      BelowOneLowered(d.value, d.scale, x);
    } else {
      assert Pow10(12) == ONE by { Pow10Twelve(); }
    }
  }

  lemma BelowOneRaised(v: nat, s: nat, x: nat)
    requires s < 12 && x == v * Pow10(12 - s)
    ensures x < ONE <==> v < Pow10(s)
  {
    assert Pow10(12) == ONE by { Pow10Twelve(); }
    Pow10Add(s, 12 - s);
    ScaledBelow(v, Pow10(s), Pow10(12 - s));
  }

  lemma BelowOneLowered(v: nat, s: nat, x: nat)
    requires s > 12 && x * Pow10(s - 12) <= v < (x + 1) * Pow10(s - 12)
    ensures x < ONE <==> v < Pow10(s)
  {
    assert Pow10(12) == ONE by { Pow10Twelve(); }
    Pow10Add(12, s - 12);
    QuotientBelow(v, x, Pow10(s - 12), ONE);
  }

  lemma ScaledBelow(v: nat, a: nat, k: nat)
    requires k > 0
    ensures v * k < a * k <==> v < a
  {
    if v < a {
      MulMonotone(v + 1, a, k);
    } else {
      MulMonotone(a, v, k);
    }
  }

  lemma QuotientBelow(v: nat, x: nat, k: nat, o: nat)
    requires x * k <= v < (x + 1) * k
    ensures x < o <==> v < o * k
  {
    if x < o {
      MulMonotone(x + 1, o, k);
    } else {
      MulMonotone(o, x, k);
    }
  }

  /** One at any scale up to 38 is exactly one at the compute scale. */
  lemma OneAtComputeScale(s: nat)
    requires s <= 38
    ensures Pow10(s) < U128_LIMIT
    ensures ToScaleDefined(Decimal(Pow10(s), s, false), COMPUTE_SCALE)
    ensures ToScale(Decimal(Pow10(s), s, false), COMPUTE_SCALE) == One()
  {
    Pow10FitsU128(s);
    if s < 12 {
      OneRaised(s);
    } else if s > 12 {
      OneLowered(s);
    } else {
      OneAtTwelve();
    }
  }

  lemma OneAtTwelve()
    ensures Pow10(12) == ONE
  {
    Pow10Twelve();
  }

  lemma OneRaised(s: nat)
    requires s < 12
    ensures Pow10(s) * Pow10(12 - s) == ONE
  {
    OneAtTwelve();
    Pow10Add(s, 12 - s);
  }

  lemma OneLowered(s: nat)
    requires 12 < s
    ensures FloorDiv(Pow10(s), Pow10(s - 12)) == ONE
  {
    OneAtTwelve();
    Pow10Add(12, s - 12);
    FloorDivExact(Pow10(s), Pow10(s - 12), ONE);
  }

  /** Zero at the compute scale moves to any scale up to 50 as zero. */
  lemma ZeroToScale(s: u8)
    requires s <= 50
    ensures ToScaleDefined(Zero(), s) && ToScale(Zero(), s) == Decimal(0, s, false)
  {
  }

  // ---------------------------------------------------------------------
  // Natural logarithm

  /** `ln`: the binary logarithm at the compute scale divided by log2(e),
      moved back to the operand's scale. */
  function Ln(d: Decimal): (r: Run<Decimal>)
    ensures d.value == 0 ==> r.Panics?
    ensures r.Returns? ==> r.value.scale == d.scale && ToScaleDefined(d, COMPUTE_SCALE)
    ensures r.Returns? ==> (r.value.negative <==> d.value < Pow10(d.scale))
  {
    if !ToScaleDefined(d, COMPUTE_SCALE) then Panics
    else
      var x := ToScale(d, COMPUTE_SCALE);
      match Log2AsWritten(x)
      case Panics => Panics
      case Returns(l) =>
        if !DivDefined(l, Log2E()) then Panics
        else
          var q := Div(l, Log2E());
          if !ToScaleDefined(q, d.scale) then Panics
          else
            BelowOneAtComputeScale(d);
            Returns(ToScale(q, d.scale))
  }

  /** At the compute scale the natural logarithm of a `Decimal` is that of
      the `FixedPoint` with the same raw value, and it never panics. */
  lemma LnAgreesWithFixedPoint(d: Decimal)
    requires d.scale == COMPUTE_SCALE && d.value > 0
    ensures var (v, negative) := FixedLogs.Ln(d.value).value.value;
      Ln(d) == Returns(Decimal(v, COMPUTE_SCALE, negative))
  {
    var (l, negative) := FixedLogs.Log2(d.value).value.value;
    Log2AsWrittenAtComputeScale(d);
    Log2AgreesWithFixedPoint(d);
    Log2Fits(d.value);
    DivAtComputeScale(l, negative, Log2E());
    assert ToScale(d, COMPUTE_SCALE) == d;
    var q := Decimal(FixedLogs.FixedDiv(l, FixedLogs.LOG2_E), COMPUTE_SCALE, negative);
    assert ToScale(q, COMPUTE_SCALE) == q;
  }

  /** The binary logarithm at twelve places can be scaled once more. */
  lemma Log2Fits(raw: u128)
    requires raw > 0
    ensures FixedLogs.Log2(raw).value.value.0 * ONE < U128_LIMIT
  {
    var l := FixedLogs.Log2(raw).value.value.0;
    FixedLogs.Log2Bracket(raw);
    MulMonotone(l, 128 * ONE, ONE);
  }

  /** At the compute scale `div` by a positive constant is the
      `FixedPoint` division of the raw values, with the dividend's sign. */
  lemma DivAtComputeScale(l: nat, negative: bool, c: Decimal)
    requires c.scale == COMPUTE_SCALE && !c.negative && c.value > 0 && l * ONE < U128_LIMIT
    ensures l < U128_LIMIT
    ensures DivDefined(Decimal(l, COMPUTE_SCALE, negative), c)
    ensures Div(Decimal(l, COMPUTE_SCALE, negative), c) ==
      Decimal(FixedLogs.FixedDiv(l, c.value), COMPUTE_SCALE, negative)
  {
    assert Pow10(12) == ONE by { Pow10Twelve(); }
  }

  /** ln(1) = 0 at every scale up to 38. */
  lemma LnOfOne(s: u8)
    requires s <= 38
    ensures Pow10(s) < U128_LIMIT
    ensures Ln(Decimal(Pow10(s), s, false)) == Returns(Decimal(0, s, false))
  {
    OneAtComputeScale(s);
    Log2AsWrittenAtComputeScale(One());
    Log2AgreesWithFixedPoint(One());
    FixedLogs.Log2OneAndHalf();
    ZeroToScale(s);
  }

  /** Up to the compute scale, every positive operand that can be moved to
      the compute scale has a natural logarithm. */
  lemma LnTotal(d: Decimal)
    requires d.value > 0 && d.scale <= COMPUTE_SCALE && ToScaleDefined(d, COMPUTE_SCALE)
    ensures Ln(d).Returns?
  {
    var x := ToScale(d, COMPUTE_SCALE);
    assert x.value > 0 by {
      Pow10Add(0, 12 - d.scale);
      MulMonotone(1, d.value, Pow10(12 - d.scale));
    }
    LnAgreesWithFixedPoint(x);
    assert ToScale(x, COMPUTE_SCALE) == x;
    Log2AsWrittenAtComputeScale(x);
    assert Log2AsWritten(x).Returns? && DivDefined(Log2AsWritten(x).value, Log2E());
    assert Pow10Fits(COMPUTE_SCALE - d.scale);
  }

  // ---------------------------------------------------------------------
  // Decimal logarithm

  /** `log10`: one at the compute scale gives zero; a power of ten listed in
      the table gives its exponent exactly; anything else is the binary
      logarithm of the operand itself divided by log2(10). The result is
      moved to the operand's scale. The original takes the binary
      logarithm through `log2` as it is written; corrected, through the
      `log2` that keeps the operand's scale. */
  function Log10With(d: Decimal, asWritten: bool): (r: Run<Decimal>)
    ensures d.value == 0 ==> r.Panics?
    ensures r.Returns? ==> r.value.scale == d.scale && ToScaleDefined(d, COMPUTE_SCALE)
    ensures r.Returns? ==> (r.value.negative <==> d.value < Pow10(d.scale))
  {
    if !ToScaleDefined(d, COMPUTE_SCALE) then Panics
    else
      var x := ToScale(d, COMPUTE_SCALE);
      var negative := x.value < ONE;
      BelowOneAtComputeScale(d);
      if x == One() then
        if ToScaleDefined(Zero(), d.scale) then Returns(ToScale(Zero(), d.scale)) else Panics
      else
        var e := FixedLogs.TableExponent(x.value);
        if e > 0 then
          assert e <= 12 by {
            FixedLogs.TableOnlyPowers(x.value);
          }
          var exact := Decimal(e * ONE, COMPUTE_SCALE, negative);
          if ToScaleDefined(exact, d.scale) then Returns(ToScale(exact, d.scale)) else Panics
        else
          match (if asWritten then Log2AsWritten(d) else Log2(d))
          case Panics => Panics
          case Returns(l) =>
            if !DivDefined(l, Log2Ten()) then Panics
            else
              var q := Div(l, Log2Ten());
              if ToScaleDefined(q, d.scale) then Returns(ToScale(q, d.scale)) else Panics
  }

  /** `log10` as the original writes it. */
  function Log10(d: Decimal): (r: Run<Decimal>)
    ensures d.value == 0 ==> r.Panics?
    ensures r.Returns? ==> r.value.scale == d.scale && ToScaleDefined(d, COMPUTE_SCALE)
    ensures r.Returns? ==> (r.value.negative <==> d.value < Pow10(d.scale))
  {
    Log10With(d, true)
  }

  /** `log10` over the binary logarithm that keeps the operand's scale. */
  function Log10Corrected(d: Decimal): (r: Run<Decimal>)
    ensures d.value == 0 ==> r.Panics?
    ensures r.Returns? ==> r.value.scale == d.scale && ToScaleDefined(d, COMPUTE_SCALE)
    ensures r.Returns? ==> (r.value.negative <==> d.value < Pow10(d.scale))
  {
    Log10With(d, false)
  }

  /** At the compute scale the two binary logarithms agree, and so do the
      two decimal ones. */
  lemma Log10AtComputeScale(d: Decimal)
    requires d.scale == COMPUTE_SCALE
    ensures Log10(d) == Log10Corrected(d)
  {
    Log2AsWrittenAtComputeScale(d);
  }

  /** At two decimal places log10(2.00) should be 0.30, but through the
      binary logarithm as written, which reads log2(2.00) as 0.00, it is
      0.00. */
  lemma Log10AtScaleTwo()
    ensures Log10(Decimal(200, 2, false)) == Returns(Decimal(0, 2, false))
    ensures Log10Corrected(Decimal(200, 2, false)) == Returns(Decimal(30, 2, false))
  {
    var d := Decimal(200, 2, false);
    Pow10Twelve();
    assert Pow10(2) == 100;
    assert Pow10(10) == 10000000000;
    assert ToScale(d, COMPUTE_SCALE) == Decimal(2000000000000, COMPUTE_SCALE, false);
    assert FixedLogs.TableExponent(2000000000000) == 0;
    Log2AsWrittenAtScaleTwo();
    var zero := Decimal(0, 2, false);
    DivUnique(0, Log2Ten().value, 0);
    assert DivDefined(zero, Log2Ten()) && Div(zero, Log2Ten()) == zero;
    var one := Decimal(100, 2, false);
    DivUnique(100 * ONE, Log2Ten().value, 30);
    assert DivDefined(one, Log2Ten()) && Div(one, Log2Ten()) == Decimal(30, 2, false);
    assert Pow10(0) == 1;
  }

  /** log10(1) = 0 at every scale up to 38. */
  lemma Log10OfOne(s: u8)
    requires s <= 38
    ensures Pow10(s) < U128_LIMIT
    ensures Log10(Decimal(Pow10(s), s, false)) == Returns(Decimal(0, s, false))
  {
    OneAtComputeScale(s);
    ZeroToScale(s);
  }

  /** An operand that is 10^(k - 12) at the compute scale, other than one,
      has the exact decimal logarithm k - 12. */
  lemma Log10OfPowerOfTen(d: Decimal, k: nat)
    requires k <= 24 && k != 12 && ToScaleDefined(d, COMPUTE_SCALE)
    requires ToScale(d, COMPUTE_SCALE).value == Pow10(k)
    ensures var exact := Decimal((if k < 12 then 12 - k else k - 12) * ONE, COMPUTE_SCALE, k < 12);
      Log10(d) == if ToScaleDefined(exact, d.scale) then Returns(ToScale(exact, d.scale)) else Panics
  {
    Pow10Twelve();
    FixedLogs.TableExponentOfPower(k);
    if k < 12 {
      Pow10Monotone(k, 11);
    } else {
      Pow10Monotone(13, k);
    }
  }

  /** Away from one and the table, the decimal logarithm is the binary one
      divided by log2(10), rounded down: as written, the binary logarithm
      as written; corrected, the one that keeps the scale. */
  lemma Log10FromLog2(d: Decimal)
    requires ToScaleDefined(d, COMPUTE_SCALE) && ToScale(d, COMPUTE_SCALE) != One()
    requires FixedLogs.TableExponent(ToScale(d, COMPUTE_SCALE).value) == 0
    ensures Log10(d).Returns? ==> Log2AsWritten(d).Returns?
    ensures Log10(d).Returns? ==>
      var l, v := Log2AsWritten(d).value.value, Log10(d).value.value;
      v * Log2Ten().value <= l * ONE < (v + 1) * Log2Ten().value
    ensures Log10Corrected(d).Returns? ==> Log2(d).Returns?
    ensures Log10Corrected(d).Returns? ==>
      var l, v := Log2(d).value.value, Log10Corrected(d).value.value;
      v * Log2Ten().value <= l * ONE < (v + 1) * Log2Ten().value
  {
    Pow10Twelve();
    assert Pow10(0) == 1;
    if Log10(d).Returns? {
      assert Log10(d).value == Div(Log2AsWritten(d).value, Log2Ten());
    }
    if Log10Corrected(d).Returns? {
      assert Log10Corrected(d).value == Div(Log2(d).value, Log2Ten());
    }
  }

  /** At the compute scale the decimal logarithm of a `Decimal` is that of
      the `FixedPoint` with the same raw value. */
  lemma Log10AgreesWithFixedPoint(d: Decimal)
    requires d.scale == COMPUTE_SCALE && d.value > 0
    ensures var (v, negative) := FixedLogs.Log10(d.value).value.value;
      Log10(d) == Returns(Decimal(v, COMPUTE_SCALE, negative))
  {
    if d.value == ONE {
      Log10AgreesAtOne(d);
    } else if FixedLogs.TableExponent(d.value) > 0 {
      Log10AgreesOnTable(d);
    } else {
      Log10AgreesOffTable(d);
    }
  }

  /** Both answer zero at one. A `Decimal` one with the sign flag set misses
      the structural `x == one` test and takes the binary logarithm, which is
      zero too. */
  lemma Log10AgreesAtOne(d: Decimal)
    requires d.scale == COMPUTE_SCALE && d.value == ONE
    ensures Log10(d) == Returns(Decimal(0, COMPUTE_SCALE, false))
  {
    assert Pow10(0) == 1;
    assert ToScale(d, COMPUTE_SCALE) == d;
    if d == One() {
      ZeroToScale(COMPUTE_SCALE);
    } else {
      Log10OfNegativeOne(d);
    }
  }

  /** One flagged negative misses the `x == one` test and takes the binary
      logarithm, which is zero. */
  lemma Log10OfNegativeOne(d: Decimal)
    requires d == Decimal(ONE, COMPUTE_SCALE, true)
    ensures Log10(d) == Returns(Decimal(0, COMPUTE_SCALE, false))
  {
    assert Pow10(0) == 1;
    assert ToScale(d, COMPUTE_SCALE) == d;
    assert FixedLogs.TableExponent(ONE) == 0;
    var zero := Decimal(0, COMPUTE_SCALE, false);
    assert Log2AsWritten(d) == Returns(zero) by {
      Log2AsWrittenAtComputeScale(d);
      Log2AgreesWithFixedPoint(d);
      FixedLogs.Log2OneAndHalf();
    }
    assert DivDefined(zero, Log2Ten()) && Div(zero, Log2Ten()) == zero by {
      DivAtComputeScale(0, false, Log2Ten());
    }
    assert ToScaleDefined(zero, COMPUTE_SCALE) && ToScale(zero, COMPUTE_SCALE) == zero;
  }

  /** On the powers of ten the table lists both give the exact exponent. */
  lemma Log10AgreesOnTable(d: Decimal)
    requires d.scale == COMPUTE_SCALE && d.value > 0 && d.value != ONE
    requires FixedLogs.TableExponent(d.value) > 0
    ensures var e := FixedLogs.TableExponent(d.value);
      Log10(d) == Returns(Decimal(e * ONE, COMPUTE_SCALE, d.value < ONE))
  {
    assert Pow10(0) == 1;
    assert ToScale(d, COMPUTE_SCALE) == d;
    assert d != One();
  }

  /** Elsewhere both divide the binary logarithm by log2(10). */
  lemma Log10AgreesOffTable(d: Decimal)
    requires d.scale == COMPUTE_SCALE && d.value > 0 && d.value != ONE
    requires FixedLogs.TableExponent(d.value) == 0
    ensures var (v, negative) := FixedLogs.Log10(d.value).value.value;
      Log10(d) == Returns(Decimal(v, COMPUTE_SCALE, negative))
  {
    var (l, negative) := FixedLogs.Log2(d.value).value.value;
    Log2AsWrittenAtComputeScale(d);
    Log2AgreesWithFixedPoint(d);
    Log2Fits(d.value);
    DivAtComputeScale(l, negative, Log2Ten());
    assert ToScale(d, COMPUTE_SCALE) == d;
    var q := Decimal(FixedLogs.FixedDiv(l, FixedLogs.LOG2_10), COMPUTE_SCALE, negative);
    assert ToScale(q, COMPUTE_SCALE) == q;
  }
}
