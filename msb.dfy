/** The most significant bit helpers of `FixedPoint`: `msb` from the count
    of leading zero bits, and `msb_shift`, a cascade of threshold tests that
    shift the number right and count the bits shifted out. */
module MostSignificantBit {
  import opened Bounded

  /** The powers of two the cascades test against. */
  lemma Pow2Thresholds()
    ensures Pow2(1) == 2 && Pow2(2) == 4 && Pow2(4) == 16 && Pow2(8) == 256
    ensures Pow2(16) == 0x1_0000 && Pow2(32) == 0x1_0000_0000 && Pow2(64) == U64_LIMIT
    ensures Pow2(63) * 2 == U64_LIMIT && Pow2(127) * 2 == U128_LIMIT && Pow2(128) == U128_LIMIT
  {
    Pow2At16();
    Pow2Add(16, 16);
    Pow2Values();
    assert Pow2(8) == 256 by {
      assert Pow2(4) == 16 by {
        assert Pow2(1) == 2 && Pow2(2) == 4 && Pow2(3) == 8;
      }
      Pow2Add(4, 4);
    }
  }

  /** Bits of a u128: at most 128. */
  lemma BitLengthOfU128(x: u128)
    ensures BitLength(x) <= 128
  {
    Pow2Values();
    BitLengthBelow(x, 128);
  }

  /** The bit length of a u128 brackets it, and it is 128 exactly from
      2^127 on. */
  lemma LeadingZeroBounds(x: u128)
    ensures BitLength(x) <= 128 && x < Pow2(BitLength(x))
    ensures x > 0 ==> Pow2(BitLength(x) - 1) <= x
    ensures BitLength(x) == 128 <==> x >= Pow2(127)
  {
    BitLengthOfU128(x);
    if x > 0 {
      BitLengthBounds(x);
    }
    if x < Pow2(127) {
      BitLengthBelow(x, 127);
    } else {
      Pow2Values();
      BitLengthUnique(x, 127);
    }
  }

  /** `msb`: one less than the number of leading zero bits of the u128, so
      `127 - bits`; it underflows, and panics, when there is no leading
      zero. The result is the count of leading zeros less one: `x` lies
      below `2^(127 - r)` and, unless it is zero, at or above
      `2^(126 - r)`. */
  function Msb(x: u128): (r: Run<u32>)
    ensures r.Panics? <==> x >= Pow2(127)
    ensures r.Returns? ==> r.value <= 127 && x < Pow2(127 - r.value)
    ensures r.Returns? && x > 0 ==> r.value <= 126 && Pow2(126 - r.value) <= x
  {
    LeadingZeroBounds(x);
    var leadingZeros := 128 - BitLength(x);
    if leadingZeros == 0 then Panics
    else
      LeadingZerosLessOne(x, leadingZeros - 1);
      Returns(leadingZeros - 1)
  }

  /** The count of leading zeros less one places `x` below a power of two
      and, unless it is zero, at or above the next lower one. */
  lemma LeadingZerosLessOne(x: u128, r: nat)
    requires r + BitLength(x) == 127
    ensures r <= 127 && x < Pow2(127 - r)
    ensures x > 0 ==> r <= 126 && Pow2(126 - r) <= x
  {
    LeadingZeroBounds(x);
  }

  /** The index of the most significant set bit: `x` lies in
      `[2^r, 2^(r+1))`. */
  function MsbIndex(x: nat): (r: nat)
    requires x > 0
    ensures Pow2(r) <= x < Pow2(r + 1)
  {
    BitLengthBounds(x);
    BitLength(x) - 1
  }

  /** `msb` of zero is 127 and of the largest u64 is 63, the index of its
      top bit; at 2^16 it is 110 where the top bit is bit 16. */
  lemma MsbExamples()
    ensures Msb(0) == Returns(127)
    ensures Msb(U64_LIMIT - 1) == Returns(63) && MsbIndex(U64_LIMIT - 1) == 63
    ensures Msb(0x1_0000) == Returns(110) && MsbIndex(0x1_0000) == 16
  {
    Pow2Thresholds();
    BitLengthUnique(U64_LIMIT - 1, 63);
    BitLengthUnique(0x1_0000, 16);
  }

  /** `msb` is the index of the top bit only for numbers of exactly 64
      bits. */
  lemma MsbIsIndexOnlyAt64Bits(x: u128)
    requires 0 < x < Pow2(127)
    ensures Msb(x).Returns?
    ensures Msb(x).value == MsbIndex(x) <==> Pow2(63) <= x < Pow2(64)
  {
    Pow2Thresholds();
    BitLengthOfU128(x);
    BitLengthBounds(x);
    if Pow2(63) <= x < Pow2(64) {
      BitLengthUnique(x, 63);
    }
  }

  // ---------------------------------------------------------------------
  // The shifting cascade

  /** `msb_shift` as the original writes it: the thresholds are 2^16, 2^8,
      2^4, 2^2, 2^1, 4 and 2 while the shifts are 64, 32, 16, 8, 4, 2, so a
      shift usually clears the number and no later test fires; the count
      less one is returned, which underflows when nothing fired. */
  method MsbShiftAsWritten(x0: u128) returns (r: Run<u32>)
    ensures x0 <= 1 ==> r.Panics?
    ensures 2 <= x0 < 4 ==> r == Returns(3)
    ensures 4 <= x0 < 16 ==> r == Returns(7)
    ensures 16 <= x0 < 256 ==> r == Returns(15)
    ensures 256 <= x0 < 0x1_0000 ==> r == Returns(31)
    ensures 0x1_0000 <= x0 < U64_LIMIT ==> r == Returns(63)
    ensures U64_LIMIT <= x0 ==> r.Returns? && 63 <= r.value <= 126
  {
    var x: int := x0;
    if x == 0 {
      return Panics;
    }
    var count: int := 0;
    if x >= 0x1_0000 {
      x := x / U64_LIMIT;
      count := count + 64;
    }
    assert 0 <= count <= 64;
    if x >= 0x100 {
      x := x / 0x1_0000_0000;
      count := count + 32;
    }
    assert 0 <= count <= 96;
    if x >= 0x10 {
      x := x / 0x1_0000;
      count := count + 16;
    }
    assert 0 <= count <= 112;
    if x >= 4 {
      x := x / 0x100;
      count := count + 8;
    }
    assert 0 <= count <= 120;
    if x >= 2 {
      x := x / 0x10;
      count := count + 4;
    }
    assert 0 <= count <= 124;
    if x >= 4 {
      x := x / 4;
      count := count + 2;
    }
    assert 0 <= count <= 126;
    if x >= 2 {
      count := count + 1;
    }
    assert 0 <= count <= 127;
    if count == 0 {
      return Panics;
    }
    r := Returns(count - 1);
  }

  /** For every number of 17 to 63 bits the cascade as written answers 63,
      which is not the index of its top bit. */
  lemma MsbShiftAsWrittenMisses(x: nat)
    requires Pow2(16) <= x < Pow2(63)
    ensures MsbIndex(x) != 63
  {
    var n := MsbIndex(x);
    if n >= 63 {
      Pow2Monotone(63, n);
    }
  }

  /** One step of the cascade: a number of at most `2k` bits with at least
      `k + 1` bits, shifted right by `k`, keeps its other bits. */
  lemma ShiftStep(x: nat, k: nat)
    requires Pow2(k) <= x < Pow2(k + k)
    ensures 0 < x / Pow2(k) < Pow2(k)
    ensures BitLength(x / Pow2(k)) + k == BitLength(x)
  {
    var a := Pow2(k);
    var q := x / a;
    Pow2Add(k, k);
    DivBracket(x, a);
    if q >= a {
      MulMonotone(a, q, a);
    }
    var n := MsbIndex(q);
    Pow2Add(n, k);
    Pow2Add(n + 1, k);
    MulMonotone(Pow2(n), q, a);
    MulMonotone(q + 1, Pow2(n + 1), a);
    BitLengthUnique(q, n);
    BitLengthUnique(x, n + k);
  }

  /** One test of the cascade with the threshold matching the shift: a
      number below `2^(2k)` is shifted right by `k` when it reaches `2^k`,
      and the count takes up the bits shifted out. */
  method CascadeStep(x: nat, count: nat, k: nat) returns (x': nat, count': nat)
    requires 0 < x < Pow2(k + k)
    ensures 0 < x' < Pow2(k)
    ensures count' + BitLength(x') == count + BitLength(x)
  {
    x', count' := x, count;
    if x >= Pow2(k) {
      ShiftStep(x, k);
      x' := x / Pow2(k);
      count' := count + k;
    }
  }

  /** The first three tests of the corrected cascade: shifts by 64, 32 and
      16 leave fewer than 16 bits. */
  method HighSteps(x0: nat) returns (x: nat, count: nat)
    requires 0 < x0 < U128_LIMIT
    ensures 0 < x < Pow2(16) && count + BitLength(x) == BitLength(x0)
  {
    assert x0 < Pow2(64 + 64) by { Pow2Thresholds(); }
    x, count := CascadeStep(x0, 0, 64);
    x, count := CascadeStep(x, count, 32);
    x, count := CascadeStep(x, count, 16);
  }

  /** The next three tests: shifts by 8, 4 and 2 leave fewer than 2 bits. */
  method LowSteps(x0: nat, count0: nat) returns (x: nat, count: nat)
    requires 0 < x0 < Pow2(16)
    ensures 0 < x < Pow2(2) && count + BitLength(x) == count0 + BitLength(x0)
  {
    x, count := CascadeStep(x0, count0, 8);
    x, count := CascadeStep(x, count, 4);
    x, count := CascadeStep(x, count, 2);
  }

  /** `msb_shift` with the thresholds matching the shifts (2^64, 2^32,
      2^16, 2^8, 2^4, 2^2, 2^1) and the count returned as it is: the index
      of the top bit, with the assertion that the number is positive. */
  method MsbShift(x0: u128) returns (r: Run<u32>)
    ensures x0 == 0 ==> r.Panics?
    ensures x0 > 0 ==> r == Returns(MsbIndex(x0))
  {
    if x0 == 0 {
      return Panics;
    }
    var x, count := HighSteps(x0);
    x, count := LowSteps(x, count);
    assert Pow2(1) == 2 && Pow2(2) == 4 by { Pow2Thresholds(); }
    if x >= 2 {
      BitLengthUnique(x, 1);
      count := count + 1;
    } else {
      BitLengthUnique(x, 0);
    }
    assert count == BitLength(x0) - 1;
    BitLengthOfU128(x0);
    r := Returns(count);
  }
}
