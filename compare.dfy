/** Comparisons of decimals of one scale. A decimal's place in the order is
    decided by its sign flag and magnitude alone: a zero with the flag set
    sorts below a zero without it. */
module DecimalCompare {
  import opened Bounded
  import opened Errors
  import opened DecimalBase

  /** The position of a decimal in the order the comparisons implement: every
      flagged decimal sorts below every unflagged one, larger flagged
      magnitudes lower. */
  function Key(d: Decimal): int
  {
    if d.negative then -(d.value as int) - 1 else d.value as int
  }

  /** Distinct decimals of one scale have distinct keys. */
  lemma KeyInjective(a: Decimal, b: Decimal)
    requires a.scale == b.scale && Key(a) == Key(b)
    ensures a == b
  {
  }

  /** The order of keys refines the order of the numbers denoted: it only
      separates the two zeros. */
  lemma KeyRefinesValue(a: Decimal, b: Decimal)
    ensures SignedValue(a) < SignedValue(b) ==> Key(a) < Key(b)
    ensures Key(a) < Key(b) ==> SignedValue(a) <= SignedValue(b)
    ensures Key(a) < Key(b) && SignedValue(a) == SignedValue(b) ==>
      a.value == 0 && b.value == 0 && a.negative && !b.negative
  {
  }

  function Eq(a: Decimal, b: Decimal): (r: Result<bool>)
    ensures r == if a.scale != b.scale then Err(DifferentScale) else Ok(Key(a) == Key(b))
  {
    if a.scale != b.scale then Err(DifferentScale)
    else Ok(a.value == b.value && a.negative == b.negative)
  }

  /** `almost_eq`: the magnitude of `a` exceeds that of `b` by less than the
      precision; scale and sign are not looked at and it never fails. */
  function AlmostEq(a: Decimal, b: Decimal, precision: u128): (r: Result<bool>)
    ensures r.Ok?
    ensures a.value <= b.value ==> r.value == (precision > 0)
    ensures a.value > b.value ==> r.value == (a.value < b.value + precision)
  {
    var difference := if a.value >= b.value then a.value - b.value else 0;
    Ok(difference < precision)
  }

  /** `almost_eq` is not symmetric: a small magnitude is almost equal to any
      larger one, but not the other way round. */
  lemma AlmostEqNotSymmetric()
    ensures AlmostEq(Decimal(1, 0, false), Decimal(100, 0, false), 1) == Ok(true)
    ensures AlmostEq(Decimal(100, 0, false), Decimal(1, 0, false), 1) == Ok(false)
    ensures AlmostEq(Decimal(5, 3, true), Decimal(5, 9, false), 1) == Ok(true)
  {
  }

  function Lt(a: Decimal, b: Decimal): (r: Result<bool>)
    ensures r == if a.scale != b.scale then Err(DifferentScale) else Ok(Key(a) < Key(b))
  {
    if a.scale != b.scale then Err(DifferentScale)
    else if a.negative && b.negative then Ok(a.value > b.value)
    else if a.negative && !b.negative then Ok(true)
    else if !a.negative && b.negative then Ok(false)
    else Ok(a.value < b.value)
  }

  function Gt(a: Decimal, b: Decimal): (r: Result<bool>)
    ensures r == if a.scale != b.scale then Err(DifferentScale) else Ok(Key(a) > Key(b))
  {
    if a.scale != b.scale then Err(DifferentScale)
    else if a.negative && b.negative then Ok(a.value < b.value)
    else if a.negative && !b.negative then Ok(false)
    else if !a.negative && b.negative then Ok(true)
    else Ok(a.value > b.value)
  }

  function Gte(a: Decimal, b: Decimal): (r: Result<bool>)
    ensures r == if a.scale != b.scale then Err(DifferentScale) else Ok(Key(a) >= Key(b))
  {
    if a.scale != b.scale then Err(DifferentScale)
    else if a.negative && b.negative then Ok(a.value <= b.value)
    else if a.negative && !b.negative then Ok(false)
    else if !a.negative && b.negative then Ok(true)
    else Ok(a.value >= b.value)
  }

  function Lte(a: Decimal, b: Decimal): (r: Result<bool>)
    ensures r == if a.scale != b.scale then Err(DifferentScale) else Ok(Key(a) <= Key(b))
  {
    if a.scale != b.scale then Err(DifferentScale)
    else if a.negative && b.negative then Ok(a.value >= b.value)
    else if a.negative && !b.negative then Ok(true)
    else if !a.negative && b.negative then Ok(false)
    else Ok(a.value <= b.value)
  }

  /** The non-strict comparisons are the negations of the strict ones, the
      strict ones are irreflexive and the non-strict ones reflexive; `gt` is
      `lt` with the operands swapped. */
  lemma ComparisonDuality(a: Decimal, b: Decimal)
    requires a.scale == b.scale
    ensures Lte(a, b) == Ok(!Gt(a, b).value)
    ensures Gte(a, b) == Ok(!Lt(a, b).value)
    ensures Gt(a, b) == Lt(b, a)
    ensures Lt(a, a) == Ok(false) && Gt(a, a) == Ok(false)
    ensures Lte(a, a) == Ok(true) && Gte(a, a) == Ok(true) && Eq(a, a) == Ok(true)
    ensures Eq(a, b) == Ok(Lte(a, b).value && Gte(a, b).value)
  {
  }

  /** `lt` is transitive, so the comparisons define a total order on each
      scale. */
  lemma LtTransitive(a: Decimal, b: Decimal, c: Decimal)
    requires Lt(a, b) == Ok(true) && Lt(b, c) == Ok(true)
    ensures Lt(a, c) == Ok(true)
  {
  }

  lemma CompareExamples()
    ensures Lte(Decimal(1001, 4, false), Decimal(33, 2, false)) == Err(DifferentScale)
    ensures Lte(Decimal(1001, 4, false), Decimal(33, 4, false)) == Ok(false)
    ensures Lte(Decimal(42, 0, false), Decimal(42, 0, true)) == Ok(false)
    ensures Lt(Decimal(43, 0, true), Decimal(42, 0, true)) == Ok(true)
    ensures Gt(Decimal(43, 0, true), Decimal(42, 0, false)) == Ok(false)
    ensures Gte(Decimal(42, 0, true), Decimal(42, 0, false)) == Ok(false)
    ensures Eq(Decimal(33, 4, false), Decimal(33, 4, true)) == Ok(false)
    ensures Lt(Decimal(0, 2, true), Decimal(0, 2, false)) == Ok(true)
  {
  }

  /** `min`: the receiver when it compares at most the other, otherwise the
      other; `unwrap` panics on differing scales. */
  function Min(a: Decimal, b: Decimal): (r: Run<Decimal>)
    ensures r.Panics? <==> a.scale != b.scale
    ensures r.Returns? ==> r.value == a || r.value == b
    ensures r.Returns? ==> Key(r.value) <= Key(a) && Key(r.value) <= Key(b)
    ensures r.Returns? ==> (r.value == a <==> Lte(a, b) == Ok(true) || a == b)
  {
    match Lte(a, b)
    case Err(_) => Panics
    case Ok(le) => Returns(if le then a else b)
  }

  /** `max`: the receiver when it compares at least the other, otherwise the
      other; `unwrap` panics on differing scales. */
  function Max(a: Decimal, b: Decimal): (r: Run<Decimal>)
    ensures r.Panics? <==> a.scale != b.scale
    ensures r.Returns? ==> r.value == a || r.value == b
    ensures r.Returns? ==> Key(r.value) >= Key(a) && Key(r.value) >= Key(b)
    ensures r.Returns? ==> (r.value == a <==> Gte(a, b) == Ok(true) || a == b)
  {
    match Gte(a, b)
    case Err(_) => Panics
    case Ok(ge) => Returns(if ge then a else b)
  }

  /** Of two decimals of one scale, the minimum and the maximum are the two
      operands, whichever comes first. */
  lemma MinMaxPartition(a: Decimal, b: Decimal)
    requires a.scale == b.scale
    ensures Min(a, b).Returns? && Max(a, b).Returns?
    ensures {Min(a, b).value, Max(a, b).value} == {a, b}
    ensures Min(a, b) == Min(b, a) && Max(a, b) == Max(b, a)
  {
    if Key(a) == Key(b) {
      KeyInjective(a, b);
    }
  }

  lemma MinMaxExamples()
    ensures Min(Decimal(10, 2, false), Decimal(11, 2, false)) == Returns(Decimal(10, 2, false))
    ensures Max(Decimal(10, 2, false), Decimal(11, 2, false)) == Returns(Decimal(11, 2, false))
    ensures Min(Decimal(10, 2, false), Decimal(11, 2, true)) == Returns(Decimal(11, 2, true))
    ensures Max(Decimal(10, 2, false), Decimal(11, 2, true)) == Returns(Decimal(10, 2, false))
    ensures Min(Decimal(10, 2, false), Decimal(11, 3, false)) == Panics
  {
  }
}
