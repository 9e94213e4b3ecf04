/** Signed addition, subtraction and negation of decimals of equal scale. */
module DecimalAdd {
  import opened Bounded
  import opened Errors
  import opened DecimalBase

  /** Adding two magnitudes of the same sign panics when the sum leaves u128;
      nothing else in `add` can fail. */
  predicate AddDefined(a: Decimal, b: Decimal)
  {
    a.scale != b.scale || a.negative != b.negative || a.value + b.value < U128_LIMIT
  }

  /** Signed addition. Operands of different scales are refused. With equal
      flags the magnitudes add and the flag is kept; otherwise the smaller
      magnitude is taken from the larger, which gives its flag, and a tie
      gives an unsigned zero. */
  function Add(a: Decimal, b: Decimal): (r: Result<Decimal>)
    requires AddDefined(a, b)
    ensures r.Err? <==> a.scale != b.scale
    ensures r.Err? ==> r.error == DifferentScale
    ensures r.Ok? ==> r.value.scale == a.scale
    ensures r.Ok? ==> SignedValue(r.value) == SignedValue(a) + SignedValue(b)
    ensures r.Ok? ==> (IsNegative(r.value) <==> SignedValue(a) + SignedValue(b) < 0)
    ensures r.Ok? && IsZero(r.value) ==> r.value.negative == (a.negative && b.negative)
  {
    if a.scale != b.scale then
      Err(DifferentScale)
    else if a.negative == b.negative then
      Ok(Decimal(a.value + b.value, a.scale, a.negative))
    else if a.value > b.value then
      Ok(Decimal(a.value - b.value, a.scale, a.negative))
    else if a.value < b.value then
      Ok(Decimal(b.value - a.value, a.scale, b.negative))
    else
      Ok(Decimal(0, a.scale, false))
  }

  /** The result of `Add` is determined by the exact sum: its magnitude and
      sign, and for a zero the operands' flags. Hence addition commutes. */
  lemma {:induction false} AddCommutes(a: Decimal, b: Decimal)
    requires AddDefined(a, b)
    ensures AddDefined(b, a) && Add(a, b) == Add(b, a)
  {
    var r, s := Add(a, b), Add(b, a);
    if r.Ok? {
      SignPredicates(r.value);
      SignPredicates(s.value);
      assert r.value.value == s.value.value;
    }
  }

  lemma AddExamples()
    ensures Add(Decimal(12, 1, false), Decimal(13, 1, false)) == Ok(Decimal(25, 1, false))
    ensures Add(Decimal(2, 0, false), Decimal(5, 0, true)) == Ok(Decimal(3, 0, true))
    ensures Add(Decimal(4, 0, true), Decimal(3, 0, false)) == Ok(Decimal(1, 0, true))
    ensures Add(Decimal(1, 1, false), Decimal(1, 2, false)) == Err(DifferentScale)
  {
  }

  /** The subtrahend with only its sign flag flipped. */
  function Flip(b: Decimal): Decimal
  {
    Decimal(b.value, b.scale, !b.negative)
  }

  predicate SubDefined(a: Decimal, b: Decimal)
  {
    AddDefined(a, Flip(b))
  }

  /** `a - b` is `a + (-b)`, where `-b` flips the flag even of a zero. */
  function Sub(a: Decimal, b: Decimal): (r: Result<Decimal>)
    requires SubDefined(a, b)
    ensures r.Err? <==> a.scale != b.scale
    ensures r.Err? ==> r.error == DifferentScale
    ensures r.Ok? ==> r.value.scale == a.scale
    ensures r.Ok? ==> SignedValue(r.value) == SignedValue(a) - SignedValue(b)
    ensures r.Ok? ==> (IsNegative(r.value) <==> SignedValue(a) - SignedValue(b) < 0)
    ensures r.Ok? && IsZero(r.value) ==> r.value.negative == (a.negative && !b.negative)
  {
    Add(a, Flip(b))
  }

  /** Any decimal minus itself is an unsigned zero of the same scale; this is
      what the integrality test relies on. */
  lemma SubSelf(a: Decimal)
    ensures SubDefined(a, a)
    ensures Sub(a, a) == Ok(Decimal(0, a.scale, false))
  {
  }

  lemma SubExamples()
    ensures Sub(Decimal(0, 0, false), Decimal(15, 0, false)) == Ok(Decimal(15, 0, true))
    ensures Sub(Decimal(10, 0, true), Decimal(15, 0, true)) == Ok(Decimal(5, 0, false))
    ensures Sub(Decimal(10, 0, false), Decimal(15, 0, true)) == Ok(Decimal(25, 0, false))
    ensures Sub(Decimal(1, 1, false), Decimal(1, 2, false)) == Err(DifferentScale)
    ensures !SubDefined(Decimal(U128_LIMIT - 1, 2, true), Decimal(1, 2, false))
  {
  }

  /** Negation: a nonzero value changes sign, a zero is returned as it is,
      flag included. */
  function Neg(d: Decimal): (r: Decimal)
    ensures r.value == d.value && r.scale == d.scale
    ensures SignedValue(r) == -SignedValue(d)
    ensures IsZero(d) ==> r == d
  {
    if IsNegative(d) then
      Decimal(d.value, d.scale, false)
    else if IsPositive(d) then
      Decimal(d.value, d.scale, true)
    else
      d
  }

  /** Negating twice gives back the operand, zeros included. */
  lemma NegInvolutive(d: Decimal)
    ensures Neg(Neg(d)) == d
  {
  }

  lemma NegExamples()
    ensures Neg(Decimal(0, 6, false)) == Decimal(0, 6, false)
    ensures Neg(Decimal(0, 6, true)) == Decimal(0, 6, true)
    ensures IsNegative(Neg(Decimal(42, 6, false)))
    ensures IsPositive(Neg(Decimal(42, 6, true)))
  {
  }

  /** The same negation on `BigDecimal`. */
  function BigNeg(d: BigDecimal): (r: BigDecimal)
    ensures r.value == d.value && r.scale == d.scale
    ensures BigSignedValue(r) == -BigSignedValue(d)
    ensures BigIsZero(d) ==> r == d
  {
    if BigIsNegative(d) then
      BigDecimal(d.value, d.scale, false)
    else if BigIsPositive(d) then
      BigDecimal(d.value, d.scale, true)
    else
      d
  }

  /** Negation commutes with widening to 192 bits, and is an involution there
      too. */
  lemma BigNegAgrees(d: Decimal)
    ensures BigNeg(Widen(d)) == Widen(Neg(d))
    ensures BigNeg(BigNeg(Widen(d))) == Widen(d)
  {
  }
}
