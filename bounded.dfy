/** Fixed-width unsigned integers, powers of ten and two, bit length, and the
    outcome types shared by every module of the model.

    The library only uses bounded unsigned arithmetic. Each width is a subset
    type of `int`: arithmetic is done on unbounded integers and the width is
    checked wherever a value is stored, which is exactly where the checked
    operations of the original would fail. */
module Bounded {

  const U64_LIMIT: int := 0x1_0000_0000_0000_0000
  const U128_LIMIT: int := 0x1_0000_0000_0000_0000_0000_0000_0000_0000
  const U192_LIMIT: int := 0x1_0000_0000_0000_0000_0000_0000_0000_0000_0000_0000_0000_0000
  const I64_MAX: int := 0x7FFF_FFFF_FFFF_FFFF
  const I64_MIN: int := -0x8000_0000_0000_0000

  type u8 = x: int | 0 <= x < 0x100
  type u32 = x: int | 0 <= x < 0x1_0000_0000
  type u64 = x: int | 0 <= x < 0x1_0000_0000_0000_0000
  type u128 = x: int | 0 <= x < 0x1_0000_0000_0000_0000_0000_0000_0000_0000
  type u192 = x: int | 0 <= x < 0x1_0000_0000_0000_0000_0000_0000_0000_0000_0000_0000_0000_0000

  /** A computation of the original either returns a value or panics
      (an `expect`, an `unwrap`, an `assert!` or a debug-build overflow). */
  datatype Run<T> = Returns(value: T) | Panics

  /** Rust's `Option`, for the kernels that report failure with `None`. */
  datatype Option<T> = None | Some(value: T)

  function Pow10(n: nat): (r: nat)
    ensures r >= 1
  {
    if n == 0 then 1 else 10 * Pow10(n - 1)
  }

  function Pow2(n: nat): (r: nat)
    ensures r >= 1
  {
    if n == 0 then 1 else 2 * Pow2(n - 1)
  }

  /** Number of significant bits: `128 - leading_zeros(x)` for a u128. */
  function BitLength(x: nat): nat
  {
    if x == 0 then 0 else 1 + BitLength(x / 2)
  }

  /** `10u128.pow(n)` succeeds exactly when n <= 38. */
  predicate Pow10Fits(n: nat)
  {
    n <= 38
  }

  lemma {:induction false} Pow10Add(a: nat, b: nat)
    ensures Pow10(a + b) == Pow10(a) * Pow10(b)
  {
    if a > 0 {
      Pow10Add(a - 1, b);
    }
  }

  lemma {:induction false} Pow10Monotone(a: nat, b: nat)
    requires a <= b
    ensures Pow10(a) <= Pow10(b)
  {
    if a < b {
      Pow10Monotone(a, b - 1);
    }
  }

  lemma {:induction false} Pow2Add(a: nat, b: nat)
    ensures Pow2(a + b) == Pow2(a) * Pow2(b)
  {
    if a > 0 {
      Pow2Add(a - 1, b);
    }
  }

  lemma {:induction false} Pow2Monotone(a: nat, b: nat)
    requires a <= b
    ensures Pow2(a) <= Pow2(b)
  {
    if a < b {
      Pow2Monotone(a, b - 1);
    }
  }

  /** The values of the powers of ten the library relies on, and the limit of
      `10u128.pow`. */
  lemma Pow10Values()
    ensures Pow10(12) == 1_000_000_000_000
    ensures Pow10(24) == 1_000_000_000_000_000_000_000_000
    ensures Pow10(38) < U128_LIMIT <= Pow10(39)
  {
    assert Pow10(1) == 10;
    assert Pow10(2) == 100;
    assert Pow10(3) == 1000;
    assert Pow10(4) == 10000;
    assert Pow10(5) == 100000;
    assert Pow10(6) == 1000000;
    assert Pow10(7) == 10000000;
    assert Pow10(8) == 100000000;
    assert Pow10(9) == 1000000000;
    assert Pow10(10) == 10000000000;
    assert Pow10(11) == 100000000000;
    assert Pow10(12) == 1000000000000;
    assert Pow10(13) == 10000000000000;
    assert Pow10(14) == 100000000000000;
    assert Pow10(15) == 1000000000000000;
    assert Pow10(16) == 10000000000000000;
    assert Pow10(17) == 100000000000000000;
    assert Pow10(18) == 1000000000000000000;
    assert Pow10(19) == 10000000000000000000;
    assert Pow10(20) == 100000000000000000000;
    assert Pow10(21) == 1000000000000000000000;
    assert Pow10(22) == 10000000000000000000000;
    assert Pow10(23) == 100000000000000000000000;
    assert Pow10(24) == 1000000000000000000000000;
    assert Pow10(25) == 10000000000000000000000000;
    assert Pow10(26) == 100000000000000000000000000;
    assert Pow10(27) == 1000000000000000000000000000;
    assert Pow10(28) == 10000000000000000000000000000;
    assert Pow10(29) == 100000000000000000000000000000;
    assert Pow10(30) == 1000000000000000000000000000000;
    assert Pow10(31) == 10000000000000000000000000000000;
    assert Pow10(32) == 100000000000000000000000000000000;
    assert Pow10(33) == 1000000000000000000000000000000000;
    assert Pow10(34) == 10000000000000000000000000000000000;
    assert Pow10(35) == 100000000000000000000000000000000000;
    assert Pow10(36) == 1000000000000000000000000000000000000;
    assert Pow10(37) == 10000000000000000000000000000000000000;
    assert Pow10(38) == 100000000000000000000000000000000000000;
    assert Pow10(39) == 1000000000000000000000000000000000000000;
  }

  /** The scale of the compute precision, on its own: cheaper in a proof
      than the whole table. */
  lemma Pow10Twelve()
    ensures Pow10(12) == 1_000_000_000_000
  {
    assert Pow10(6) == 1_000_000;
  }

  /** The powers of ten up to 10^24. */
  lemma Pow10Table()
    ensures Pow10(0) == 1
    ensures Pow10(1) == 10
    ensures Pow10(2) == 100
    ensures Pow10(3) == 1000
    ensures Pow10(4) == 10000
    ensures Pow10(5) == 100000
    ensures Pow10(6) == 1000000
    ensures Pow10(7) == 10000000
    ensures Pow10(8) == 100000000
    ensures Pow10(9) == 1000000000
    ensures Pow10(10) == 10000000000
    ensures Pow10(11) == 100000000000
    ensures Pow10(12) == 1000000000000
    ensures Pow10(13) == 10000000000000
    ensures Pow10(14) == 100000000000000
    ensures Pow10(15) == 1000000000000000
    ensures Pow10(16) == 10000000000000000
    ensures Pow10(17) == 100000000000000000
    ensures Pow10(18) == 1000000000000000000
    ensures Pow10(19) == 10000000000000000000
    ensures Pow10(20) == 100000000000000000000
    ensures Pow10(21) == 1000000000000000000000
    ensures Pow10(22) == 10000000000000000000000
    ensures Pow10(23) == 100000000000000000000000
    ensures Pow10(24) == 1000000000000000000000000
  {
    assert Pow10(1) == 10;
    assert Pow10(2) == 100;
    assert Pow10(3) == 1000;
    assert Pow10(4) == 10000;
    assert Pow10(5) == 100000;
    assert Pow10(6) == 1000000;
    assert Pow10(7) == 10000000;
    assert Pow10(8) == 100000000;
    assert Pow10(9) == 1000000000;
    assert Pow10(10) == 10000000000;
    assert Pow10(11) == 100000000000;
    assert Pow10(12) == 1000000000000;
    assert Pow10(13) == 10000000000000;
    assert Pow10(14) == 100000000000000;
    assert Pow10(15) == 1000000000000000;
    assert Pow10(16) == 10000000000000000;
    assert Pow10(17) == 100000000000000000;
    assert Pow10(18) == 1000000000000000000;
    assert Pow10(19) == 10000000000000000000;
    assert Pow10(20) == 100000000000000000000;
    assert Pow10(21) == 1000000000000000000000;
    assert Pow10(22) == 10000000000000000000000;
    assert Pow10(23) == 100000000000000000000000;
    assert Pow10(24) == 1000000000000000000000000;
  }

  /** A power of ten that `10u128.pow` accepts fits in a u128. */
  lemma Pow10FitsU128(n: nat)
    requires Pow10Fits(n)
    ensures Pow10(n) < U128_LIMIT
  {
    Pow10Values();
    Pow10Monotone(n, 38);
  }

  /** The bit length brackets the number between two powers of two. */
  lemma {:induction false} BitLengthBounds(x: nat)
    requires x > 0
    ensures Pow2(BitLength(x) - 1) <= x < Pow2(BitLength(x))
  {
    if x > 1 {
      BitLengthBounds(x / 2);
    }
  }

  /** Any bracket between consecutive powers of two determines the bit length. */
  lemma BitLengthUnique(x: nat, n: nat)
    requires Pow2(n) <= x < Pow2(n + 1)
    ensures BitLength(x) == n + 1
  {
    BitLengthBounds(x);
    var b := BitLength(x);
    if b < n + 1 {
      Pow2Monotone(b, n);
    } else if b > n + 1 {
      Pow2Monotone(n + 1, b - 1);
    }
  }

  /** A value below 2^k has at most k bits. */
  lemma {:induction false} BitLengthBelow(x: nat, k: nat)
    requires x < Pow2(k)
    ensures BitLength(x) <= k
  {
    if x > 0 {
      assert k > 0;
      BitLengthBelow(x / 2, k - 1);
    }
  }

  lemma Pow2Values()
    ensures Pow2(64) == U64_LIMIT && Pow2(128) == U128_LIMIT && Pow2(192) == U192_LIMIT
  {
    Pow2At64();
    Pow2Add(64, 64);
    Pow2Add(128, 64);
  }

  lemma Pow2At64()
    ensures Pow2(64) == U64_LIMIT
  {
    Pow2At16();
    Pow2Add(16, 16);
    Pow2Add(32, 32);
  }

  lemma Pow2At16()
    ensures Pow2(16) == 0x1_0000
  {
    assert Pow2(4) == 16 by {
      assert Pow2(1) == 2 && Pow2(2) == 4 && Pow2(3) == 8;
    }
    Pow2Add(4, 4);
    Pow2Add(8, 8);
  }

  lemma MulMonotone(x: int, y: int, b: nat)
    requires x <= y
    ensures x * b <= y * b
  {
  }

  /** Floor division is characterised by its bracket. */
  lemma DivUnique(a: nat, b: nat, q: nat)
    requires b > 0
    requires q * b <= a < (q + 1) * b
    ensures a / b == q
  {
    var r := a / b;
    if r < q {
      MulMonotone(r + 1, q, b);
    } else if r > q {
      MulMonotone(q + 1, r, b);
    }
  }

  /** Floor division brackets the numerator. */
  lemma DivBracket(a: nat, b: nat)
    requires b > 0
    ensures (a / b) * b <= a < (a / b + 1) * b
  {
  }

  lemma MulDistrib(a: int, b: int, c: int)
    ensures (a + b) * c == a * c + b * c
  {
  }

  lemma MulRegroup(a: int, b: int, c: int)
    ensures a * (b * c) == (a * b) * c
  {}

  lemma MulSwap(a: int, b: int, c: int)
    ensures (a * b) * c == (a * c) * b
  {
  }

  /** A common positive factor cancels from an inequality. */
  lemma CancelLe(a: nat, b: nat, c: nat)
    requires c > 0 && a * c <= b * c
    ensures a <= b
  {
    if a > b {
      MulMonotone(b + 1, a, c);
      MulDistrib(b, 1, c);
    }
  }

  lemma CancelLt(a: nat, b: nat, c: nat)
    requires a * c < b * c
    ensures a < b
  {
    if a >= b {
      MulMonotone(b, a, c);
    }
  }

  /** A numerator between `lo * b` and `hi * b` has its quotient between
      `lo` and `hi`. */
  lemma QuotientBracket(a: nat, b: nat, lo: nat, hi: nat)
    requires b > 0 && lo * b <= a < hi * b
    ensures lo <= a / b < hi
  {
    var d := a / b;
    DivBracket(a, b);
    if d < lo {
      MulMonotone(d + 1, lo, b);
    }
    if d >= hi {
      MulMonotone(hi, d, b);
    }
  }

  lemma DivAtMost(a: nat, b: nat)
    requires b > 0
    ensures a / b <= a
  {
    var q := a / b;
    DivBracket(a, b);
    MulMonotone(1, b, q);
    assert q <= q * b;
  }

  /** Dividing twice by b and c is dividing once by b * c. */
  lemma DivDiv(a: nat, b: nat, c: nat)
    requires b > 0 && c > 0
    ensures a / b / c == a / (b * c)
  {
    var t := a / b;
    var q := t / c;
    DivBracket(a, b);
    DivBracket(t, c);
    MulMonotone(q * c, t, b);
    MulMonotone(t + 1, (q + 1) * c, b);
    MulAssoc(q, c, b);
    MulAssoc(q + 1, c, b);
    assert q * (b * c) <= a < (q + 1) * (b * c);
    DivUnique(a, b * c, q);
  }

  lemma MulAssoc(x: int, y: int, z: int)
    ensures x * (z * y) == (x * y) * z
  {
  }

  /** Multiplying by b and dividing by b is the identity. */
  lemma MulDivCancel(a: nat, b: nat)
    requires b > 0
    ensures a * b / b == a
  {
    DivUnique(a * b, b, a);
  }

  /** Floor division is monotone in the numerator. */
  lemma DivMonotone(a: nat, a': nat, b: nat)
    requires b > 0 && a <= a'
    ensures a / b <= a' / b
  {
    var q, q' := a / b, a' / b;
    if q > q' {
      MulMonotone(q' + 1, q, b);
    }
  }

  /** Floor division on naturals. Its bracket is `FloorDivBracket`; keeping
      it out of the contract keeps nonlinear facts out of every proof that
      merely mentions a quotient. */
  function FloorDiv(v: nat, p: nat): (r: nat)
    requires p > 0
    ensures r <= v
  {
    DivAtMost(v, p);
    v / p
  }

  lemma FloorDivBracket(v: nat, p: nat)
    requires p > 0
    ensures FloorDiv(v, p) * p <= v < (FloorDiv(v, p) + 1) * p
  {
    DivBracket(v, p);
  }

  /** Ceiling division written as (a + b - 1) / b. */
  function CeilDiv(a: nat, b: nat): (r: nat)
    requires b > 0
    ensures r * b >= a && (r == 0 || (r - 1) * b < a)
  {
    var r := (a + b - 1) / b;
    assert r * b <= a + b - 1 < (r + 1) * b;
    r
  }

  /** Ceiling division exceeds floor division by one exactly when b does not
      divide a. */
  lemma CeilDivFloor(a: nat, b: nat)
    requires b > 0
    ensures CeilDiv(a, b) == if a % b == 0 then a / b else a / b + 1
  {
    var q := a / b;
    if a % b == 0 {
      assert a == q * b;
      DivUnique(a + b - 1, b, q);
    } else {
      assert q * b < a < (q + 1) * b;
      DivUnique(a + b - 1, b, q + 1);
    }
  }
}
