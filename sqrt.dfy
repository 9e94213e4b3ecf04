/** Square root by the Babylonian (Newton) iteration on 192-bit integers.

    A decimal `value / 10^scale` has the square root
    `sqrt(value * 10^scale) / 10^scale`, so the library scales the magnitude
    out on itself and takes an integer square root of `value * 10^scale`. The
    integer iteration starts from `v / 2^(bitlength(v) / 2)` and repeats
    `y := (y + v / y) / 2` until two successive guesses differ by at most one.
    The result is the integer square root, or one above it when `v + 1` is a
    perfect square. */
module DecimalSqrt {
  import opened Bounded
  import opened Errors
  import opened DecimalBase

  /** `n * n`, written as the sum of the first `n` odd numbers so that
      unfolding it never introduces a product (`SqIsProduct`). */
  function Sq(n: nat): nat
  {
    if n == 0 then 0 else Sq(n - 1) + 2 * n - 1
  }

  lemma {:induction false} SqIsProduct(n: nat)
    ensures Sq(n) == n * n
  {
    if n > 0 {
      SqIsProduct(n - 1);
      assert (n - 1) * (n - 1) + 2 * n - 1 == n * n;
    }
  }

  lemma {:induction false} SqMonotone(a: nat, b: nat)
    requires a <= b
    ensures Sq(a) <= Sq(b)
  {
    if a < b {
      SqMonotone(a, b - 1);
    }
  }

  /** The integer square root, the reference the iteration is measured by. */
  function ISqrt(v: nat): nat
  {
    if v == 0 then 0
    else
      var h := 2 * ISqrt(v / 4);
      if Sq(h + 1) <= v then h + 1 else h
  }

  /** The integer square root is the largest number whose square is at most
      `v`. */
  lemma {:induction false} ISqrtBracket(v: nat)
    ensures Sq(ISqrt(v)) <= v < Sq(ISqrt(v) + 1)
  {
    if v > 0 {
      var q := v / 4;
      ISqrtBracket(q);
      RootStep(v, ISqrt(q), ISqrt(v));
    }
  }

  /** One step of the recursion: the doubled root of `v / 4`, or one more
      when that one's square still fits, brackets `v`. */
  lemma RootStep(v: nat, s: nat, r: nat)
    requires Sq(s) <= v / 4 < Sq(s + 1)
    requires r == if Sq(2 * s + 1) <= v then 2 * s + 1 else 2 * s
    ensures Sq(r) <= v < Sq(r + 1)
  {
    ISqrtDouble(v, s);
    assert 2 * s + 1 + 1 == 2 * s + 2;
  }

  /** The root of `v / 4`, doubled, brackets `v` within two. */
  lemma ISqrtDouble(v: nat, s: nat)
    requires Sq(s) <= v / 4 < Sq(s + 1)
    ensures Sq(2 * s) <= v < Sq(2 * s + 2)
  {
    SqIsProduct(s);
    SqIsProduct(s + 1);
    SqIsProduct(2 * s);
    SqIsProduct(2 * s + 2);
    var q := v / 4;
    assert 4 * q <= v < 4 * q + 4;
    assert (2 * s) * (2 * s) == 4 * (s * s);
    assert (2 * s + 2) * (2 * s + 2) == 4 * ((s + 1) * (s + 1));
  }

  /** What the iteration delivers: the root itself, or one above it when
      `v + 1` is the square of that one. */
  predicate RootBracket(r: nat, v: nat)
  {
    Sq(r) <= v + 1 && v < Sq(r + 1)
  }

  /** The bracket leaves exactly the root `s`, or its successor when that
      successor squared is `v + 1`. */
  lemma BracketCases(r: nat, v: nat, s: nat)
    requires Sq(s) <= v < Sq(s + 1)
    ensures RootBracket(r, v) <==> r == s || (r == s + 1 && Sq(r) == v + 1)
  {
    if RootBracket(r, v) {
      if r < s {
        SqMonotone(r + 1, s);
      } else if r > s + 1 {
        SqMonotone(s + 2, r);
      }
    }
  }

  /** The bracket leaves exactly the integer square root, or its successor
      when that successor squared is `v + 1`. */
  lemma RootBracketISqrt(r: nat, v: nat)
    ensures RootBracket(r, v) <==> r == ISqrt(v) || (r == ISqrt(v) + 1 && Sq(r) == v + 1)
  {
    ISqrtBracket(v);
    BracketCases(r, v, ISqrt(v));
  }

  /** Any bracket pins the root once the candidates around it are checked. */
  lemma RootPinned(r: nat, v: nat, k: nat)
    requires RootBracket(r, v)
    requires Sq(k) <= v && v + 1 < Sq(k + 1)
    ensures r == k
  {
    if r < k {
      SqMonotone(r + 1, k);
    } else if r > k {
      SqMonotone(k + 1, r);
    }
  }

  /** One Newton step: the mean of the guess and the quotient, halved by a
      right shift. */
  function NewtonStep(v: nat, y: nat): nat
    requires y > 0
  {
    (y + v / y) / 2
  }

  /** The loop condition: successive guesses more than one apart. */
  predicate Apart(y: nat, y0: nat)
  {
    (y > y0 && y - y0 > 1) || (y < y0 && y0 - y > 1)
  }

  /** What holds at every head of the iteration on `v`, with guess `y` and
      previous guess `y0` (zero before the first step). The bounds keep the
      sum `y + v / y` within 192 bits. */
  predicate NewtonInv(v: nat, y: nat, y0: nat)
  {
    && v < U192_LIMIT
    && (v == 0 ==> y == 0 && y0 == 0)
    && (v > 0 ==> 1 <= y <= Pow2(97) && v / y <= Pow2(97))
    && (y0 > 0 ==> v > 0 && y == NewtonStep(v, y0) && y >= ISqrt(v))
    && (y0 == 0 && y <= 1 ==> v < 4)
  }

  /** A root of a 192-bit number has at most 96 bits. */
  lemma RootBelow(v: nat, s: nat)
    requires v < U192_LIMIT && Sq(s) <= v
    ensures s < Pow2(96)
  {
    Pow2Values();
    Pow2Add(96, 96);
    if s >= Pow2(96) {
      SqMonotone(Pow2(96), s);
      SqIsProduct(Pow2(96));
    }
  }

  /** A product of two numbers with sum `2 * s` is at most `s * s`. */
  lemma ProductBelowSquare(s: int, y: int)
    ensures (2 * s - y) * y <= s * s
  {
    var d := s - y;
    assert (2 * s - y) * y + d * d == s * s;
  }

  lemma AboveRootCore(v: nat, y: nat, q: nat, s: nat)
    requires y > 0 && q * y <= v < (q + 1) * y && s * s <= v
    ensures y + q >= 2 * s
  {
    if y + q < 2 * s {
      var t := 2 * s - y;
      ProductBelowSquare(s, y);
      MulMonotone(q + 1, t, y);
    }
  }

  lemma QuotientCore(v: nat, y: nat, q: nat, s: nat)
    requires 1 <= s <= y && q * y <= v < (s + 1) * (s + 1)
    ensures q <= s + 2
  {
    MulMonotone(s, y, q);
    assert (s + 1) * (s + 1) == s * (s + 2) + 1;
    if q >= s + 3 {
      MulMonotone(s + 3, q, s);
    }
  }
  /** A Newton step from any positive guess lands on or above any number
      whose square is at most `v`. */
  lemma StepAboveRoot(v: nat, y: nat, s: nat)
    requires y > 0 && Sq(s) <= v
    ensures NewtonStep(v, y) >= s
  {
    SqIsProduct(s);
    var q := FloorDiv(v, y);
    FloorDivBracket(v, y);
    AboveRootCore(v, y, q, s);
  }

  /** At or above a root of `v`, the quotient is at most two above it. */
  lemma QuotientNearBracket(v: nat, y: nat, s: nat)
    requires v > 0 && y >= s && Sq(s) <= v < Sq(s + 1)
    ensures y > 0 && v / y <= s + 2
  {
    RootOfPositive(v, s);
    SqIsProduct(s + 1);
    var q := FloorDiv(v, y);
    FloorDivBracket(v, y);
    QuotientCore(v, y, q, s);
  }

  lemma RootOfPositive(v: nat, s: nat)
    requires 0 < v < Sq(s + 1)
    ensures s >= 1
  {
    assert Sq(1) == 1;
  }

  /** Strictly above the root, a step strictly descends. */
  lemma StepDescends(v: nat, y: nat, s: nat)
    requires y > s && v < Sq(s + 1)
    ensures NewtonStep(v, y) < y
  {
    var q := FloorDiv(v, y);
    FloorDivBracket(v, y);
    SqMonotone(s + 1, y);
    SqIsProduct(y);
    if q >= y {
      MulMonotone(y, q, y);
      assert false;
    }
  }

  /** Where the iteration stops after a step from `p`, the guess squared is at
      most `v + 1`. */
  lemma ExitBracket(v: nat, p: nat)
    requires p > 0
    requires NewtonStep(v, p) <= p + 1 && p <= NewtonStep(v, p) + 1
    ensures Sq(NewtonStep(v, p)) <= v + 1
  {
    var q := FloorDiv(v, p);
    FloorDivBracket(v, p);
    ExitCore(v, p, q, NewtonStep(v, p));
    SqIsProduct(NewtonStep(v, p));
  }

  lemma ExitCore(v: nat, p: nat, q: nat, y: nat)
    requires p > 0 && q * p <= v && 2 * y <= p + q && y <= p + 1 && p <= y + 1
    ensures y * y <= v + 1
  {
    if 2 * y >= p {
      var t := 2 * y - p;
      MulMonotone(t, q, p);
      assert t * p == y * y - (y - p) * (y - p);
      assert (y - p) * (y - p) <= 1;
    }
  }

  /** A step taken under the invariant keeps it and decreases the measure. */
  lemma NewtonInvStep(v: nat, y: nat, y0: nat)
    requires NewtonInv(v, y, y0) && Apart(y, y0)
    ensures v > 0 && y > 0
    ensures NewtonInv(v, NewtonStep(v, y), y)
    ensures y < ISqrt(v) ==> NewtonStep(v, y) >= ISqrt(v)
    ensures y >= ISqrt(v) ==>
      NewtonStep(v, y) + (if Apart(NewtonStep(v, y), y) then 2 else 0) < y + 2
  {
    InvApart(v, y, y0);
    ISqrtBracket(v);
    assert 0 < v;
    assert v < U192_LIMIT;
    assert 1 <= y;
    assert y <= Pow2(97);
    assert v / y <= Pow2(97);
    assert Sq(ISqrt(v)) <= v;
    assert v < Sq(ISqrt(v) + 1);
    StepWithinBracket(v, y, ISqrt(v));
  }

  /** A step from a guess within the bounds, measured against a root `s`. */
  lemma StepWithinBracket(v: nat, y: nat, s: nat)
    requires 0 < v < U192_LIMIT && 1 <= y <= Pow2(97) && v / y <= Pow2(97)
    requires Sq(s) <= v < Sq(s + 1)
    ensures s <= NewtonStep(v, y) <= Pow2(97) && v / NewtonStep(v, y) <= Pow2(97)
    ensures y >= s ==>
      NewtonStep(v, y) + (if Apart(NewtonStep(v, y), y) then 2 else 0) < y + 2
  {
    StepAboveRoot(v, y, s);
    StepKeepsBounds(v, y, s);
    if y > s {
      StepDescends(v, y, s);
    } else if y == s {
      StepAtRoot(v, y);
    }
  }

  /** While the guesses are apart, `v` is positive and the guess is within
      its bounds. */
  lemma InvApart(v: nat, y: nat, y0: nat)
    requires NewtonInv(v, y, y0) && Apart(y, y0)
    ensures 0 < v < U192_LIMIT && 1 <= y <= Pow2(97) && v / y <= Pow2(97)
  {
  }

  /** The next guess stays within 2^97, and so does the quotient by it. */
  lemma StepKeepsBounds(v: nat, y: nat, s: nat)
    requires 0 < v < U192_LIMIT && 1 <= y <= Pow2(97) && v / y <= Pow2(97)
    requires Sq(s) <= v < Sq(s + 1) && NewtonStep(v, y) >= s
    ensures 1 <= NewtonStep(v, y) <= Pow2(97) && v / NewtonStep(v, y) <= Pow2(97)
  {
    var n := NewtonStep(v, y);
    RootBelow(v, s);
    QuotientNearBracket(v, n, s);
    Pow2Add(1, 96);
  }

  /** From the root itself the next guess is the root or one above it. */
  lemma StepAtRoot(v: nat, s: nat)
    requires 0 < v && Sq(s) <= v < Sq(s + 1)
    ensures s <= NewtonStep(v, s) <= s + 1
  {
    QuotientNearBracket(v, s, s);
    StepAboveRoot(v, s, s);
  }

  /** Where the iteration stops, the guess is bracketed around the root. */
  lemma NewtonExit(v: nat, y: nat, y0: nat)
    requires NewtonInv(v, y, y0) && !Apart(y, y0)
    ensures RootBracket(y, v)
  {
    if y0 > 0 {
      assert y == NewtonStep(v, y0) && y >= ISqrt(v);
      ExitAfterStep(v, y0, ISqrt(v));
    } else if v == 0 {
      assert y == 0 && Sq(1) == 1;
    } else {
      assert y == 1 && v < 4;
      assert Sq(1) == 1 && Sq(2) == 4;
    }
  }

  /** A step from `p` that moves by at most one lands in the bracket. */
  lemma ExitAfterStep(v: nat, p: nat, s: nat)
    requires p > 0 && s == ISqrt(v) && NewtonStep(v, p) >= s
    requires NewtonStep(v, p) <= p + 1 && p <= NewtonStep(v, p) + 1
    ensures RootBracket(NewtonStep(v, p), v)
  {
    ExitBracket(v, p);
    ISqrtBracket(v);
    SqMonotone(s + 1, NewtonStep(v, p) + 1);
  }

  /** The guess the iteration ends with, from guess `y` after guess `y0`. */
  function NewtonFrom(v: nat, y: nat, y0: nat): (r: nat)
    requires NewtonInv(v, y, y0)
    ensures RootBracket(r, v)
    decreases if y < ISqrt(v) then 1 else 0, y + (if Apart(y, y0) then 2 else 0)
  {
    if Apart(y, y0) then
      NewtonInvStep(v, y, y0);
      NewtonFrom(v, NewtonStep(v, y), y)
    else
      NewtonExit(v, y, y0);
      y
  }

  lemma GuessCore(v: nat, a: nat, y: nat, q: nat)
    requires 1 <= a && 1 <= y && y * a <= v < (y + 1) * a && q * y <= v
    ensures q < 2 * a
  {
    MulMonotone(y + 1, 2 * y, a);
    if q >= 2 * a {
      MulMonotone(2 * a, q, y);
    }
  }

  lemma QuotientBelow(v: nat, a: nat, c: nat)
    requires a >= 1 && v < a * c
    ensures v / a < c
  {
    DivBracket(v, a);
    if v / a >= c {
      MulMonotone(c, v / a, a);
    }
  }

  lemma QuotientAtLeastOne(v: nat, a: nat)
    requires 1 <= a <= v
    ensures v / a >= 1
  {
    DivMonotone(a, v, a);
    MulDivCancel(1, a);
  }

  /** The first guess: `v` shifted right by half its bit length. */
  function FirstGuess(v: nat): nat
  {
    v / Pow2(BitLength(v) / 2)
  }

  lemma BitLengthAtMost192(v: nat)
    requires v < U192_LIMIT
    ensures BitLength(v) <= 192
  {
    Pow2Values();
    BitLengthBelow(v, 192);
  }

  /** The shift is between 1 and 2^96 and at most v. */
  lemma ShiftBounds(v: nat)
    requires 0 < v < U192_LIMIT
    ensures 1 <= Pow2(BitLength(v) / 2) <= v
    ensures Pow2(BitLength(v) / 2) <= Pow2(96)
  {
    var n := BitLength(v);
    HalfBitLength(v);
    var l, h := n - 1, n / 2;
    assert h <= l && Pow2(l) <= v;
    ShiftLow(v, l, h);
    Pow2Monotone(h, 96);
  }

  /** v is below the shift times 2^97. */
  lemma ShiftCovers(v: nat)
    requires 0 < v < U192_LIMIT
    ensures v < Pow2(BitLength(v) / 2) * Pow2(97)
  {
    HalfBitLength(v);
    ShiftHigh(v, BitLength(v), BitLength(v) / 2, 97);
  }

  lemma HalfBitLength(v: nat)
    requires 0 < v < U192_LIMIT
    ensures 1 <= BitLength(v) && Pow2(BitLength(v) - 1) <= v < Pow2(BitLength(v))
    ensures BitLength(v) / 2 <= 96 && BitLength(v) - BitLength(v) / 2 <= 97
    ensures BitLength(v) / 2 <= BitLength(v) - 1
  {
    BitLengthBounds(v);
    BitLengthAtMost192(v);
  }

  lemma ShiftLow(v: nat, l: nat, h: nat)
    requires h <= l && Pow2(l) <= v
    ensures 1 <= Pow2(h) <= v
  {
    Pow2Monotone(h, l);
  }

  lemma ShiftHigh(v: nat, b: nat, h: nat, e: nat)
    requires h <= b && b - h <= e && v < Pow2(b)
    ensures v < Pow2(h) * Pow2(e)
  {
    Pow2Split(b, h);
    Pow2Monotone(b - h, e);
    ShiftProduct(v, Pow2(h), Pow2(b - h), Pow2(e));
  }

  lemma Pow2Split(b: nat, h: nat)
    requires h <= b
    ensures Pow2(b) == Pow2(h) * Pow2(b - h)
  {
    Pow2Add(h, b - h);
  }

  lemma ShiftProduct(v: nat, a: nat, c: nat, e: nat)
    requires v < a * c && c <= e
    ensures v < a * e
  {
    MulMonotone(c, e, a);
  }

  /** A first guess of at most one only comes from v below 4. */
  lemma SmallGuess(v: nat)
    requires 0 < v && v < 2 * Pow2(BitLength(v) / 2)
    ensures v < 4
  {
    var b := BitLength(v);
    BitLengthBounds(v);
    if b >= 4 {
      Pow2Add(b / 2, 1);
      Pow2Monotone(b / 2 + 1, b - 1);
    } else {
      Pow2Monotone(b / 2, 1);
    }
  }

  lemma GuessBoundsCore(v: nat, a: nat, c: nat)
    requires 1 <= a <= v && a <= c && v < a * (2 * c)
    ensures 1 <= v / a <= 2 * c && v / (v / a) <= 2 * c
    ensures v / a <= 1 ==> v < 2 * a
  {
    var y := v / a;
    QuotientAtLeastOne(v, a);
    QuotientBelow(v, a, 2 * c);
    DivBracket(v, a);
    DivBracket(v, y);
    GuessCore(v, a, y, v / y);
  }

  lemma FirstGuessBounds(v: nat)
    requires 0 < v < U192_LIMIT
    ensures 1 <= FirstGuess(v) <= Pow2(97) && v / FirstGuess(v) <= Pow2(97)
    ensures FirstGuess(v) <= 1 ==> v < 4
  {
    ShiftBounds(v);
    ShiftCovers(v);
    Pow2Add(1, 96);
    GuessBoundsCore(v, Pow2(BitLength(v) / 2), Pow2(96));
    if FirstGuess(v) <= 1 {
      SmallGuess(v);
    }
  }
  /** The first guess satisfies the invariant, with no previous guess. */
  lemma FirstGuessInv(v: nat)
    requires v < U192_LIMIT
    ensures NewtonInv(v, FirstGuess(v), 0)
  {
    if v > 0 {
      FirstGuessBounds(v);
    }
  }

  /** Under the invariant the sum `y + v / y` of a step stays within 192 bits,
      so the checked addition of the original never fails. */
  lemma SumFits(v: nat, y: nat)
    requires v > 0 && 1 <= y <= Pow2(97) && v / y <= Pow2(97)
    ensures y + v / y < U192_LIMIT
  {
    Pow2Values();
    Pow2Add(1, 97);
    Pow2Monotone(99, 192);
  }

  /** The integer square root as the iteration computes it, from the first
      guess until two successive guesses are at most one apart. */
  function IntegerRoot(v: nat): (r: nat)
    requires v < U192_LIMIT
    ensures RootBracket(r, v) && r < U128_LIMIT
  {
    FirstGuessInv(v);
    var y := NewtonFrom(v, FirstGuess(v), 0);
    RootBelowU128(v, y);
    y
  }

  /** The root of a 192-bit number, or its successor, fits in 128 bits. */
  lemma RootBelowU128(v: nat, y: nat)
    requires v < U192_LIMIT && RootBracket(y, v)
    ensures y < U128_LIMIT
  {
    ISqrtBracket(v);
    RootBelow(v, ISqrt(v));
    RootBracketISqrt(y, v);
    Pow2Values();
    Pow2Monotone(97, 128);
  }

  /** Zero and one at the operand's own scale, with a clear sign flag: the
      values the root returns unchanged. */
  predicate IsZeroOrOne(d: BigDecimal)
  {
    !d.negative && (d.value == 0 || d.value == Pow10(d.scale))
  }

  /** Zero and one are their own roots. */
  lemma ZeroOrOneBracket(d: BigDecimal)
    requires IsZeroOrOne(d)
    ensures RootBracket(d.value, d.value * Pow10(d.scale))
  {
    var p := d.value;
    SqIsProduct(p);
    SqIsProduct(p + 1);
    if p != 0 {
      assert p * Pow10(d.scale) == p * p;
    }
    assert (p + 1) * (p + 1) == p * p + 2 * p + 1;
  }

  /** The square root of a `BigDecimal` at its own scale. It panics when
      `10^scale` does not fit, returns zero and one (with a clear sign flag)
      unchanged, reports `ExceedsPrecisionRange` when `value * 10^scale`
      leaves 192 bits, and otherwise iterates. */
  function SqrtBig(d: BigDecimal): (r: Run<Result<BigDecimal>>)
    ensures r.Returns? <==> BigDenominatorFits(d)
    ensures r.Returns? && IsZeroOrOne(d) ==> r.value == Ok(d)
    ensures r.Returns? ==>
      (r.value.Err? <==> !IsZeroOrOne(d) && d.value * Pow10(d.scale) >= U192_LIMIT)
    ensures r.Returns? && r.value.Err? ==> r.value.error == ExceedsPrecisionRange
    ensures r.Returns? && r.value.Ok? ==>
      && r.value.value.scale == d.scale
      && r.value.value.negative == d.negative
      && RootBracket(r.value.value.value, d.value * Pow10(d.scale))
      && (r.value.value.value == d.value || r.value.value.value < U128_LIMIT)
  {
    if !BigDenominatorFits(d) then Panics
    else if IsZeroOrOne(d) then
      ZeroOrOneBracket(d);
      Returns(Ok(d))
    else
      var v := d.value * BigDenominator(d);
      if v >= U192_LIMIT then Returns(Err(ExceedsPrecisionRange))
      else Returns(Ok(BigDecimal(IntegerRoot(v), d.scale, d.negative)))
  }

  /** What the loop of `Iterate` keeps: the invariant of the iteration, and
      the guess it will end with is the integer root. */
  predicate Iterating(v: nat, y: nat, y0: nat)
  {
    v < U192_LIMIT && NewtonInv(v, y, y0) && NewtonFrom(v, y, y0) == IntegerRoot(v)
  }

  /** The iteration of the original on `v = value * 10^scale`, with its two
      guesses updated in place. */
  method Iterate(v: u192) returns (y: nat)
    ensures y == IntegerRoot(v)
  {
    var bitLength := BitLength(v);
    var approx: nat := Pow2(bitLength / 2);
    y := v / approx;
    var y0: nat := 0;
    FirstGuessInv(v);
    while Apart(y, y0)
      invariant Iterating(v, y, y0)
      decreases if y < ISqrt(v) then 1 else 0, y + (if Apart(y, y0) then 2 else 0)
    {
      IterateStep(v, y, y0);
      var quotient := FloorDiv(v, y);
      y0 := y;
      y := (y + quotient) / 2;
      assert y == NewtonStep(v, y0);
    }
  }

  /** One pass of the loop: the checked sum does not overflow, what the loop
      keeps is kept, and the measure decreases. */
  lemma IterateStep(v: nat, y: nat, y0: nat)
    requires Iterating(v, y, y0) && Apart(y, y0)
    ensures y > 0 && y + v / y < U192_LIMIT
    ensures Iterating(v, NewtonStep(v, y), y)
    ensures y < ISqrt(v) ==> NewtonStep(v, y) >= ISqrt(v)
    ensures y >= ISqrt(v) ==>
      NewtonStep(v, y) + (if Apart(NewtonStep(v, y), y) then 2 else 0) < y + 2
  {
    NewtonInvStep(v, y, y0);
    SumFits(v, y);
  }

  /** The square root of a `BigDecimal` as the original computes it. */
  method BigSqrt(d: BigDecimal) returns (r: Run<Result<BigDecimal>>)
    ensures r == SqrtBig(d)
  {
    if !BigDenominatorFits(d) {
      return Panics;
    }
    var den := BigDenominator(d);
    var zero := BigDecimal(0, d.scale, false);
    var one := BigDecimal(den, d.scale, false);
    if d == zero || d == one {
      return Returns(Ok(d));
    }
    if d.value * den >= U192_LIMIT {
      return Returns(Err(ExceedsPrecisionRange));
    }
    var y := Iterate(d.value * den);
    r := Returns(Ok(BigDecimal(y, d.scale, d.negative)));
  }

  /** The square root of a `Decimal`: computed on 192 bits and narrowed back.
      A failure of the 192-bit root is a panic here; otherwise the result is
      always `Ok`. */
  function Sqrt(d: Decimal): (r: Run<Result<Decimal>>)
    ensures r.Returns? <==> SqrtBig(Widen(d)).Returns? && SqrtBig(Widen(d)).value.Ok?
    ensures r.Returns? ==>
      && r.value.Ok?
      && r.value.value.scale == d.scale
      && r.value.value.negative == d.negative
      && RootBracket(r.value.value.value, d.value * Pow10(d.scale))
  {
    match SqrtBig(Widen(d))
    case Panics => Panics
    case Returns(Err(_)) => Panics
    case Returns(Ok(b)) =>
      Returns(Ok(Decimal(b.value, b.scale, b.negative)))
  }

  /** Zero and one at their own scale come back unchanged. */
  lemma SqrtZeroOrOne(d: Decimal)
    requires BigDenominatorFits(Widen(d)) && IsZeroOrOne(Widen(d))
    ensures Sqrt(d) == Returns(Ok(d))
  {
  }

  /** A root whose square brackets the scaled magnitude with a margin of two
      is the result. */
  lemma SqrtPinned(d: Decimal, k: nat)
    requires BigDenominatorFits(Widen(d)) && d.value * Pow10(d.scale) < U192_LIMIT
    requires k * k <= d.value * Pow10(d.scale) < (k + 1) * (k + 1) - 1
    ensures Sqrt(d) == Returns(Ok(Decimal(k, d.scale, d.negative)))
  {
    var v := d.value * Pow10(d.scale);
    SqrtSucceeds(d);
    SqIsProduct(k);
    SqIsProduct(k + 1);
    RootPinned(Sqrt(d).value.value.value, v, k);
  }

  /** Where `10^scale` fits and the scaled magnitude fits in 192 bits, the
      root is returned. */
  lemma SqrtSucceeds(d: Decimal)
    requires BigDenominatorFits(Widen(d)) && d.value * Pow10(d.scale) < U192_LIMIT
    ensures Sqrt(d).Returns?
  {
    assert SqrtBig(Widen(d)).Returns?;
    assert !SqrtBig(Widen(d)).value.Err?;
  }

  lemma SqrtUnitExamples()
    ensures Sqrt(Decimal(0, 12, false)) == Returns(Ok(Decimal(0, 12, false)))
    ensures Sqrt(Decimal(1_000_000_000_000, 12, false))
      == Returns(Ok(Decimal(1_000_000_000_000, 12, false)))
  {
    Pow10Twelve();
    SqrtZeroOrOne(Decimal(0, 12, false));
    SqrtZeroOrOne(Decimal(1_000_000_000_000, 12, false));
  }

  /** The square root of 2 at twelve decimal places. */
  lemma SqrtTwoExample()
    ensures Sqrt(Decimal(2_000_000_000_000, 12, false)) == Returns(Ok(Decimal(1_414_213_562_373, 12, false)))
  {
    Pow10Twelve();
    SqrtPinned(Decimal(2_000_000_000_000, 12, false), 1_414_213_562_373);
  }

  /** The square root of 3 at twelve decimal places. */
  lemma SqrtThreeExample()
    ensures Sqrt(Decimal(3_000_000_000_000, 12, false)) == Returns(Ok(Decimal(1_732_050_807_568, 12, false)))
  {
    Pow10Twelve();
    SqrtPinned(Decimal(3_000_000_000_000, 12, false), 1_732_050_807_568);
  }

  /** The square root of 4 is exactly 2. */
  lemma SqrtFourExample()
    ensures Sqrt(Decimal(4_000_000_000_000, 12, false)) == Returns(Ok(Decimal(2_000_000_000_000, 12, false)))
  {
    Pow10Twelve();
    SqrtPinned(Decimal(4_000_000_000_000, 12, false), 2_000_000_000_000);
  }

  /** The square root of pi at twelve decimal places. */
  lemma SqrtPiExample()
    ensures Sqrt(Decimal(3_141_592_653_589, 12, false)) == Returns(Ok(Decimal(1_772_453_850_905, 12, false)))
  {
    Pow10Twelve();
    SqrtPinned(Decimal(3_141_592_653_589, 12, false), 1_772_453_850_905);
  }

  /** The square root of pi at six decimal places. */
  lemma SqrtPiShortExample()
    ensures Sqrt(Decimal(3_141_592, 6, false)) == Returns(Ok(Decimal(1_772_453, 6, false)))
  {
    Pow10Twelve();
    assert Pow10(6) == 1_000_000;
    SqrtPinned(Decimal(3_141_592, 6, false), 1_772_453);
  }
}
