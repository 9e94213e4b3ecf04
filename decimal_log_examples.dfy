/** The library's own examples of the `Decimal` logarithms, derived from
    the `FixedPoint` digit traces through the agreement at the compute
    scale. */
module DecimalLogExamples {
  import opened Bounded
  import opened DecimalBase
  import opened DecimalLogs
  import FixedLogs
  import opened FixedLogExamples

  /** log2(2.25) = 1.169925001434 and log2(18446744.073709551615) =
      24.136862861344 at twelve places. */
  lemma Log2Examples()
    ensures Log2(Decimal(2250000000000, 12, false)) == Returns(Decimal(1169925001434, 12, false))
    ensures Log2(Decimal(18446744073709551615, 12, false)) ==
      Returns(Decimal(24136862861344, 12, false))
  {
    Log2OfTwo25();
    Log2AgreesWithFixedPoint(Decimal(2250000000000, 12, false));
    Log2OfU64Max();
    Log2AgreesWithFixedPoint(Decimal(18446744073709551615, 12, false));
  }

  /** ln(2.25), ln(0.810930216211) and ln(0.000000000001) at twelve
      places. */
  lemma LnExamplesAtTwelve()
    ensures Ln(Decimal(2250000000000, 12, false)) == Returns(Decimal(810930216211, 12, false))
    ensures Ln(Decimal(810930216211, 12, false)) == Returns(Decimal(209573275158, 12, true))
    ensures Ln(Decimal(1, 12, false)) == Returns(Decimal(27631021115941, 12, true))
  {
    LnOf2_25();
    LnAgreesWithFixedPoint(Decimal(2250000000000, 12, false));
    LnOf0_81();
    LnAgreesWithFixedPoint(Decimal(810930216211, 12, false));
    LnOfTiny();
    LnAgreesWithFixedPoint(Decimal(1, 12, false));
  }

  /** ln(0.9) = -0.105360515652, ln(0.1) = -2.302585092990 and
      ln(10) = 2.302585092990 at twelve places. */
  lemma LnExamplesOfTen()
    ensures Ln(Decimal(900000000000, 12, false)) == Returns(Decimal(105360515652, 12, true))
    ensures Ln(Decimal(100000000000, 12, false)) == Returns(Decimal(2302585092990, 12, true))
    ensures Ln(Decimal(10000000000000, 12, false)) == Returns(Decimal(2302585092990, 12, false))
  {
    Log2OfPointNine();
    LnAgreesWithFixedPoint(Decimal(900000000000, 12, false));
    Log2OfPointOne();
    LnAgreesWithFixedPoint(Decimal(100000000000, 12, false));
    Log2OfTen();
    LnAgreesWithFixedPoint(Decimal(10000000000000, 12, false));
  }

  /** ln(0.9) at six places is -0.105360, and ln(0.93859063) at eight places
      is -0.06337585: the logarithm is taken at the compute scale and
      truncated back. */
  lemma LnExamplesBelowTwelve()
    ensures Ln(Decimal(900000, 6, false)) == Returns(Decimal(105360, 6, true))
    ensures Ln(Decimal(93859063, 8, false)) == Returns(Decimal(6337585, 8, true))
  {
    Pow10Table();
    assert ToScale(Decimal(900000, 6, false), 12) == Decimal(900000000000, 12, false);
    Log2OfPointNine();
    Log2AsWrittenAtComputeScale(Decimal(900000000000, 12, false));
    Log2AgreesWithFixedPoint(Decimal(900000000000, 12, false));
    assert ToScale(Decimal(93859063, 8, false), 12) == Decimal(938590630000, 12, false);
    Log2OfPoint93859063();
    Log2AsWrittenAtComputeScale(Decimal(938590630000, 12, false));
    Log2AgreesWithFixedPoint(Decimal(938590630000, 12, false));
  }

  /** log10 of 1, 10 and 1000 at eight places is exactly 0, 1 and 3. */
  lemma Log10ExactExamples()
    ensures Log10(Decimal(100000000, 8, false)) == Returns(Decimal(0, 8, false))
    ensures Log10(Decimal(1000000000, 8, false)) == Returns(Decimal(100000000, 8, false))
    ensures Log10(Decimal(100000000000, 8, false)) == Returns(Decimal(300000000, 8, false))
  {
    Pow10Table();
    Log10OfOne(8);
    assert ToScale(Decimal(1000000000, 8, false), 12).value == Pow10(13);
    Log10OfPowerOfTen(Decimal(1000000000, 8, false), 13);
    assert ToScale(Decimal(100000000000, 8, false), 12).value == Pow10(15);
    Log10OfPowerOfTen(Decimal(100000000000, 8, false), 15);
  }

  /** log10(1.1) = 0.041392685156 and log10(18446744.073709551615) =
      7.265919722493 at twelve places. */
  lemma Log10Examples()
    ensures Log10(Decimal(1100000000000, 12, false)) == Returns(Decimal(41392685156, 12, false))
    ensures Log10(Decimal(18446744073709551615, 12, false)) ==
      Returns(Decimal(7265919722493, 12, false))
  {
    Log10Of1_1();
    Log10AgreesWithFixedPoint(Decimal(1100000000000, 12, false));
    Log10OfU64Max();
    Log10AgreesWithFixedPoint(Decimal(18446744073709551615, 12, false));
  }
}
