/** `Pow<u128> for Decimal`: square-and-multiply over `big_mul`, starting
    from one at the base's own scale. */
module DecimalIntegerPow {
  import opened Bounded
  import opened DecimalBase
  import opened DecimalMul

  /** One `big_mul` of the loop, panicking where the original panics. */
  function Times(a: Decimal, b: Decimal): (r: Run<Decimal>)
    ensures r.Returns? <==> BigMulDefined(a, b)
    ensures r.Returns? ==> r.value == BigMul(a, b)
  {
    if BigMulDefined(a, b) then Returns(BigMul(a, b)) else Panics
  }

  /** The natural power `b^e`, the reference the loop is proved against. */
  function Power(b: nat, e: nat): nat
  {
    if e == 0 then 1 else b * Power(b, e - 1)
  }

  // ---------------------------------------------------------------------
  // The loop as the original writes it

  /** The remaining passes of the loop as written: with the exponent left
      `e`, the result so far and the current base. Every pass squares the
      base, the last one included. */
  function SquareAndMultiplyAsWritten(result: Decimal, base: Decimal, e: nat): Run<Decimal>
    decreases e
  {
    if e == 0 then Returns(result)
    else
      match (if e % 2 != 0 then Times(result, base) else Returns(result))
      case Panics => Panics
      case Returns(result') =>
        match Times(base, base)
        case Panics => Panics
        case Returns(base') => SquareAndMultiplyAsWritten(result', base', e / 2)
  }

  /** `pow(exp)` as written: one at the base's scale for a zero exponent,
      otherwise the loop. Rescaling one panics above 38 places. */
  function PowU128AsWritten(d: Decimal, exp: u128): Run<Decimal>
  {
    if !ToScaleDefined(One(), d.scale) then Panics
    else
      var one := ToScale(One(), d.scale);
      if exp == 0 then Returns(one) else SquareAndMultiplyAsWritten(one, d, exp)
  }

  method ComputePowU128AsWritten(d: Decimal, exp: u128) returns (r: Run<Decimal>)
    ensures r == PowU128AsWritten(d, exp)
  {
    if !ToScaleDefined(One(), d.scale) {
      return Panics;
    }
    var one := ToScale(One(), d.scale);
    if exp == 0 {
      return Returns(one);
    }
    var currentExp: nat := exp;
    var base := d;
    var result := one;
    while currentExp > 0
      invariant SquareAndMultiplyAsWritten(result, base, currentExp) == PowU128AsWritten(d, exp)
    {
      if currentExp % 2 != 0 {
        if !BigMulDefined(result, base) {
          return Panics;
        }
        result := BigMul(result, base);
      }
      currentExp := currentExp / 2;
      if !BigMulDefined(base, base) {
        return Panics;
      }
      base := BigMul(base, base);
    }
    r := Returns(result);
  }

  // ---------------------------------------------------------------------
  // The loop without the final squaring

  /** The remaining passes with the base squared only while bits of the
      exponent remain. */
  function SquareAndMultiply(result: Decimal, base: Decimal, e: nat): Run<Decimal>
    decreases e
  {
    if e == 0 then Returns(result)
    else
      match (if e % 2 != 0 then Times(result, base) else Returns(result))
      case Panics => Panics
      case Returns(result') =>
        if e / 2 == 0 then Returns(result')
        else
          match Times(base, base)
          case Panics => Panics
          case Returns(base') => SquareAndMultiply(result', base', e / 2)
  }

  /** `pow(exp)` with the loop that stops squaring after the top bit. */
  function PowU128(d: Decimal, exp: u128): Run<Decimal>
  {
    if !ToScaleDefined(One(), d.scale) then Panics
    else
      var one := ToScale(One(), d.scale);
      if exp == 0 then Returns(one) else SquareAndMultiply(one, d, exp)
  }

  method ComputePowU128(d: Decimal, exp: u128) returns (r: Run<Decimal>)
    ensures r == PowU128(d, exp)
  {
    if !ToScaleDefined(One(), d.scale) {
      return Panics;
    }
    var one := ToScale(One(), d.scale);
    if exp == 0 {
      return Returns(one);
    }
    var currentExp: nat := exp;
    var base := d;
    var result := one;
    while currentExp > 0
      invariant SquareAndMultiply(result, base, currentExp) == PowU128(d, exp)
    {
      if currentExp % 2 != 0 {
        if !BigMulDefined(result, base) {
          return Panics;
        }
        result := BigMul(result, base);
      }
      currentExp := currentExp / 2;
      if currentExp > 0 {
        if !BigMulDefined(base, base) {
          return Panics;
        }
        base := BigMul(base, base);
      }
    }
    r := Returns(result);
  }

  /** Wherever the loop as written returns, the corrected loop returns the
      same result: the only difference is the extra squaring. */
  lemma {:induction false} SquareAndMultiplyExtendsAsWritten(result: Decimal, base: Decimal, e: nat)
    requires SquareAndMultiplyAsWritten(result, base, e).Returns?
    ensures SquareAndMultiply(result, base, e) == SquareAndMultiplyAsWritten(result, base, e)
    decreases e
  {
    if e > 0 {
      var result' := (if e % 2 != 0 then Times(result, base) else Returns(result)).value;
      var base' := Times(base, base).value;
      if e / 2 > 0 {
        SquareAndMultiplyExtendsAsWritten(result', base', e / 2);
      }
    }
  }

  lemma PowU128ExtendsAsWritten(d: Decimal, exp: u128)
    requires PowU128AsWritten(d, exp).Returns?
    ensures PowU128(d, exp) == PowU128AsWritten(d, exp)
  {
    if exp > 0 {
      SquareAndMultiplyExtendsAsWritten(ToScale(One(), d.scale), d, exp);
    }
  }

  // ---------------------------------------------------------------------
  // Sign and scale

  /** The loop keeps the result's scale, and the sign flips once per odd
      factor of a flagged base: after the first squaring the base is never
      flagged. */
  lemma {:induction false} SquareAndMultiplySign(result: Decimal, base: Decimal, e: nat)
    requires SquareAndMultiply(result, base, e).Returns?
    ensures SquareAndMultiply(result, base, e).value.scale == result.scale
    ensures SquareAndMultiply(result, base, e).value.negative ==
      (result.negative != (base.negative && e % 2 == 1))
    decreases e
  {
    if e > 0 && e / 2 > 0 {
      var result' := (if e % 2 != 0 then Times(result, base) else Returns(result)).value;
      var base' := Times(base, base).value;
      SquareAndMultiplySign(result', base', e / 2);
    }
  }

  /** `x^n` keeps the scale of `x` and is flagged negative exactly when `x`
      is flagged and `n` is odd. */
  lemma PowU128Sign(d: Decimal, exp: u128)
    requires PowU128(d, exp).Returns?
    ensures PowU128(d, exp).value.scale == d.scale
    ensures PowU128(d, exp).value.negative == (d.negative && exp % 2 == 1)
  {
    if exp > 0 {
      SquareAndMultiplySign(ToScale(One(), d.scale), d, exp);
    }
  }

  // ---------------------------------------------------------------------
  // Exactness at scale zero

  lemma {:induction false} PowerAdd(b: nat, m: nat, n: nat)
    ensures Power(b, m + n) == Power(b, m) * Power(b, n)
    decreases m
  {
    if m > 0 {
      PowerAdd(b, m - 1, n);
      assert m + n - 1 == (m - 1) + n;
      MulRegroup(b, Power(b, m - 1), Power(b, n));
    }
  }

  lemma {:induction false} PowerOfSquare(b: nat, k: nat)
    ensures Power(b * b, k) == Power(b, k + k)
    decreases k
  {
    if k > 0 {
      var rest := Power(b, k + k - 2);
      PowerOfSquare(b, k - 1);
      assert (k - 1) + (k - 1) == k + k - 2;
      PowerAdd(b, 2, k + k - 2);
      assert 2 + (k + k - 2) == k + k;
      PowerTwo(b);
      assert Power(b * b, k) == (b * b) * rest;
    }
  }

  lemma PowerTwo(b: nat)
    ensures Power(b, 2) == b * b
  {
    assert Power(b, 1) == b;
  }

  /** A positive base raised to `k >= m` is at least its `m`-th power. */
  lemma {:induction false} PowerAtLeast(b: nat, m: nat, k: nat)
    requires b >= 1 && m <= k
    ensures Power(b, m) <= Power(b, k)
    decreases k
  {
    if k > m {
      PowerAtLeast(b, m, k - 1);
      MulMonotone(1, b, Power(b, k - 1));
    }
  }

  lemma {:induction false} PowerPositive(b: nat, k: nat)
    requires b >= 1
    ensures Power(b, k) >= 1
    decreases k
  {
    if k > 0 {
      PowerPositive(b, k - 1);
      MulMonotone(1, b, Power(b, k - 1));
    }
  }

  /** At scale zero `big_mul` divides by one: it returns the exact product
      and panics exactly when the product leaves u128. */
  lemma TimesAtScaleZero(a: Decimal, b: Decimal)
    requires b.scale == 0
    ensures Times(a, b).Returns? <==> a.value * b.value < U128_LIMIT
    ensures Times(a, b).Returns? ==> Times(a, b).value.value == a.value * b.value
  {
    assert Pow10(0) == 1;
    if a.value * b.value < U128_LIMIT {
      FloorDivBracket(a.value * b.value, 1);
    }
  }

  /** A factor of a positive power: the base itself for a positive
      exponent, its square from exponent two on. */
  lemma PowerFactors(r: nat, b: nat, e: nat)
    requires r >= 1 && b >= 1 && e >= 1
    ensures r * b <= r * Power(b, e)
    ensures e >= 2 ==> b * b <= r * Power(b, e)
  {
    var p := Power(b, e);
    PowerAtLeast(b, 1, e);
    assert Power(b, 1) == b;
    MulMonotone(b, p, r);
    if e >= 2 {
      PowerAtLeast(b, 2, e);
      assert Power(b, 2) == b * b;
      MulMonotone(1, r, p);
    }
  }

  /** One pass of the loop on exact powers: the odd bit moves one factor of
      the base into the result, and the rest is the square raised to half
      the exponent. */
  lemma PowerSplit(r: nat, b: nat, e: nat)
    requires e >= 1
    ensures r * Power(b, e) == (if e % 2 != 0 then r * b else r) * Power(b * b, e / 2)
  {
    var h := e / 2;
    PowerOfSquare(b, h);
    if e % 2 != 0 {
      PowerAdd(b, 1, h + h);
      assert e == 1 + (h + h);
      assert Power(b, 1) == b;
      MulAssoc(r, Power(b, h + h), b);
    } else {
      assert e == h + h;
    }
  }

  /** One pass of the loop at scale zero, unfolded: the result takes the
      odd factor, and the base is squared while bits remain. */
  lemma PassAtScaleZero(result: Decimal, base: Decimal, e: nat)
    requires result.scale == 0 && base.scale == 0 && e >= 1
    ensures var r, b := result.value, base.value;
      var r' := if e % 2 != 0 then r * b else r;
      SquareAndMultiply(result, base, e) ==
        if r' >= U128_LIMIT then Panics
        else if e / 2 == 0 then Returns(Decimal(r', 0, result.negative != (e % 2 != 0 && base.negative)))
        else if b * b >= U128_LIMIT then Panics
        else SquareAndMultiply(Decimal(r', 0, result.negative != (e % 2 != 0 && base.negative)),
                               Decimal(b * b, 0, false), e / 2)
  {
    TimesAtScaleZero(result, base);
    TimesAtScaleZero(base, base);
  }

  /** With positive magnitudes at scale zero the loop computes
      `result * base^e` exactly, and panics exactly when that leaves u128. */
  lemma {:induction false} SquareAndMultiplyExact(result: Decimal, base: Decimal, e: nat)
    requires result.scale == 0 && base.scale == 0
    requires result.value >= 1 && base.value >= 1
    ensures SquareAndMultiply(result, base, e).Returns? <==>
      result.value * Power(base.value, e) < U128_LIMIT
    ensures SquareAndMultiply(result, base, e).Returns? ==>
      SquareAndMultiply(result, base, e).value.value == result.value * Power(base.value, e)
    decreases e
  {
    var r, b := result.value, base.value;
    if e == 0 {
      assert r * Power(b, 0) == r;
    } else {
      var target := r * Power(b, e);
      var r' := if e % 2 != 0 then r * b else r;
      PassAtScaleZero(result, base, e);
      PowerFactors(r, b, e);
      PowerSplit(r, b, e);
      assert target == r' * Power(b * b, e / 2);
      if r' < U128_LIMIT {
        if e / 2 == 0 {
          assert Power(b * b, 0) == 1;
        } else if b * b < U128_LIMIT {
          MulMonotone(1, r, b);
          MulMonotone(1, b, b);
          assert r' >= 1 && b * b >= 1;
          var neg := result.negative != (e % 2 != 0 && base.negative);
          SquareAndMultiplyExact(Decimal(r', 0, neg), Decimal(b * b, 0, false), e / 2);
        }
      }
    }
  }

  /** A zero base gives zero for every positive exponent, and neither
      loop panics on it. */
  lemma {:induction false} SquareAndMultiplyZeroBase(result: Decimal, base: Decimal, e: nat)
    requires base.value == 0 && Pow10Fits(base.scale) && e >= 1
    ensures SquareAndMultiply(result, base, e).Returns?
    ensures SquareAndMultiply(result, base, e).value.value == 0
    ensures SquareAndMultiplyAsWritten(result, base, e).Returns?
    ensures SquareAndMultiplyAsWritten(result, base, e).value.value == 0
    decreases e
  {
    FloorDivBracket(0, Pow10(base.scale));
    FloorDivBracket(result.value * base.value, Pow10(base.scale));
    var result' := if e % 2 != 0 then Times(result, base) else Returns(result);
    if e / 2 > 0 {
      SquareAndMultiplyZeroBase(result'.value, Times(base, base).value, e / 2);
    }
  }

  /** At scale zero `pow` is the exact power: `x^n` returns `value^n`
      exactly when that fits in u128, and panics otherwise. */
  lemma PowU128AtScaleZero(d: Decimal, exp: u128)
    requires d.scale == 0
    ensures PowU128(d, exp).Returns? <==> Power(d.value, exp) < U128_LIMIT
    ensures PowU128(d, exp).Returns? ==> PowU128(d, exp).value.value == Power(d.value, exp)
  {
    Pow10Twelve();
    var one := ToScale(One(), 0);
    DivUnique(Pow10(12), Pow10(12), 1);
    assert one.value == 1;
    if exp > 0 {
      if d.value == 0 {
        SquareAndMultiplyZeroBase(one, d, exp);
        assert Power(0, exp) == 0 * Power(0, exp - 1);
      } else {
        SquareAndMultiplyExact(one, d, exp);
      }
    }
  }

  // ---------------------------------------------------------------------
  // The final squaring

  /** A square at scale zero that fits is formed exactly. */
  lemma SquareAtScaleZero(x: u128)
    requires x * x < U128_LIMIT
    ensures Times(Decimal(x, 0, false), Decimal(x, 0, false)) == Returns(Decimal(x * x, 0, false))
  {
    TimesAtScaleZero(Decimal(x, 0, false), Decimal(x, 0, false));
  }

  /** `2^64` fits in u128, but the loop as written squares `2^64` after the
      last bit and panics; the corrected loop returns it. */
  lemma PowU128AsWrittenOverflows()
    ensures PowU128AsWritten(Decimal(2, 0, false), 64) == Panics
    ensures PowU128(Decimal(2, 0, false), 64) == Returns(Decimal(U64_LIMIT, 0, false))
  {
    Pow10Twelve();
    DivUnique(Pow10(12), Pow10(12), 1);
    var one := Decimal(1, 0, false);
    assert ToScale(One(), 0) == one;
    SquareAtScaleZero(2);
    SquareAtScaleZero(4);
    SquareAtScaleZero(16);
    SquareAtScaleZero(256);
    SquareAtScaleZero(0x1_0000);
    SquareAtScaleZero(0x1_0000_0000);
    var top := Decimal(U64_LIMIT, 0, false);
    TimesAtScaleZero(one, top);
    TimesAtScaleZero(top, top);
    assert SquareAndMultiplyAsWritten(one, top, 1) == Panics;
    assert SquareAndMultiplyAsWritten(one, Decimal(2, 0, false), 64) ==
      SquareAndMultiplyAsWritten(one, Decimal(0x1_0000_0000, 0, false), 2);
    assert SquareAndMultiply(one, top, 1) == Returns(top);
    assert SquareAndMultiply(one, Decimal(2, 0, false), 64) ==
      SquareAndMultiply(one, Decimal(0x1_0000_0000, 0, false), 2);
  }

  // ---------------------------------------------------------------------
  // The library's examples

  /** `2^18 = 262144` and `10^0 = 1` at six places, `0^100 = 0`. */
  lemma PowU128Examples()
    ensures PowU128(Decimal(2000000, 6, false), 18) == Returns(Decimal(262144000000, 6, false))
    ensures PowU128AsWritten(Decimal(2000000, 6, false), 18) == Returns(Decimal(262144000000, 6, false))
    ensures PowU128(Decimal(10000000, 6, false), 0) == Returns(Decimal(1000000, 6, false))
    ensures PowU128AsWritten(Decimal(10000000, 6, false), 0) == Returns(Decimal(1000000, 6, false))
    ensures PowU128(Decimal(0, 6, false), 100).Returns?
    ensures PowU128(Decimal(0, 6, false), 100).value.value == 0
    ensures PowU128AsWritten(Decimal(0, 6, false), 100).Returns?
    ensures PowU128AsWritten(Decimal(0, 6, false), 100).value.value == 0
  {
    Pow10Twelve();
    Pow10Table();
    var one := ToScale(One(), 6);
    DivUnique(Pow10(12), Pow10(6), Pow10(6));
    assert one == Decimal(1000000, 6, false);
    SquareAndMultiplyZeroBase(one, Decimal(0, 6, false), 100);
    var den := Pow10(6);
    DivUnique(2000000 * 2000000, den, 4000000);
    DivUnique(1000000 * 4000000, den, 4000000);
    DivUnique(4000000 * 4000000, den, 16000000);
    DivUnique(16000000 * 16000000, den, 256000000);
    DivUnique(256000000 * 256000000, den, 65536000000);
    DivUnique(4000000 * 65536000000, den, 262144000000);
    DivUnique(65536000000 * 65536000000, den, 4294967296000000);
  }

  /** `3.41200000^8 = 18368.43602280` at eight places, truncated at every
      squaring, and `(-0.001459854015)^2 = 0.000002131173`, positive. */
  lemma PowU128TruncatingExamples()
    ensures PowU128AsWritten(Decimal(341200000, 8, false), 8) == Returns(Decimal(1836843602280, 8, false))
    ensures PowU128(Decimal(341200000, 8, false), 8) == Returns(Decimal(1836843602280, 8, false))
    ensures PowU128AsWritten(Decimal(1459854015, 12, true), 2) == Returns(Decimal(2131173, 12, false))
    ensures PowU128(Decimal(1459854015, 12, true), 2) == Returns(Decimal(2131173, 12, false))
  {
    Pow10Twelve();
    Pow10Table();
    var den := Pow10(8);
    DivUnique(Pow10(12), Pow10(4), den);
    assert ToScale(One(), 8) == Decimal(den, 8, false);
    DivUnique(341200000 * 341200000, den, 1164174400);
    DivUnique(1164174400 * 1164174400, den, 13553020336);
    DivUnique(13553020336 * 13553020336, den, 1836843602280);
    DivUnique(den * 1836843602280, den, 1836843602280);
    DivUnique(1836843602280 * 1836843602280, den, 33739944192369668);
    var den12 := Pow10(12);
    assert ToScale(One(), 12) == Decimal(den12, 12, false);
    DivUnique(den12 * 1459854015, den12, 1459854015);
    DivUnique(1459854015 * 1459854015, den12, 2131173);
    DivUnique(1459854015 * 2131173, den12, 3111);
    DivUnique(den12 * 2131173, den12, 2131173);
    DivUnique(2131173 * 2131173, den12, 4);
  }
}
