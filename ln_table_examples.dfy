/** Worked examples of `ln_tables` and `bit_length`: the inputs the
    library's own tests use, followed lookup by lookup. */
module LnTableExamples {
  import opened Bounded
  import opened Log2Kernel
  import opened FixedLogs
  import opened FixedLogExamples
  import opened TableLn

  lemma TracePoint8109302161380()
    ensures FracLoop(1233151731307, 500000000000, 1_000_000_000_000, 0) == FracLoop(1596829631316, 15625000000, 1_000_000_000_000, 281250000000)
  {
    FracStep(1233151731307, 500000000000, 0, 1520663192425, 250000000000, 0);
    FracStep(1520663192425, 250000000000, 0, 1156208272398, 125000000000, 250000000000);
    FracStep(1156208272398, 125000000000, 250000000000, 1336817569161, 62500000000, 250000000000);
    FracStep(1336817569161, 62500000000, 250000000000, 1787081213217, 31250000000, 250000000000);
    FracStep(1787081213217, 31250000000, 250000000000, 1596829631316, 15625000000, 281250000000);
  }

  lemma TracePoint8109302161381()
    ensures FracLoop(1596829631316, 15625000000, 1_000_000_000_000, 281250000000) == FracLoop(1522806580864, 488281250, 1_000_000_000_000, 301757812500)
  {
    FracStep(1596829631316, 15625000000, 281250000000, 1274932435724, 7812500000, 296875000000);
    FracStep(1274932435724, 7812500000, 296875000000, 1625452715661, 3906250000, 296875000000);
    FracStep(1625452715661, 3906250000, 296875000000, 1321048265424, 1953125000, 300781250000);
    FracStep(1321048265424, 1953125000, 300781250000, 1745168519579, 976562500, 300781250000);
    FracStep(1745168519579, 976562500, 300781250000, 1522806580864, 488281250, 301757812500);
  }

  lemma TracePoint8109302161382()
    ensures FracLoop(1522806580864, 488281250, 1_000_000_000_000, 301757812500) == FracLoop(1333711577906, 15258789, 1_000_000_000_000, 302337646484)
  {
    FracStep(1522806580864, 488281250, 301757812500, 1159469941361, 244140625, 302246093750);
    FracStep(1159469941361, 244140625, 302246093750, 1344370544919, 122070312, 302246093750);
    FracStep(1344370544919, 122070312, 302246093750, 1807332162045, 61035156, 302246093750);
    FracStep(1807332162045, 61035156, 302246093750, 1633224771981, 30517578, 302307128906);
    FracStep(1633224771981, 30517578, 302307128906, 1333711577906, 15258789, 302337646484);
  }

  lemma TracePoint8109302161383()
    ensures FracLoop(1333711577906, 15258789, 1_000_000_000_000, 302337646484) == FracLoop(1226285343040, 476837, 1_000_000_000_000, 302350044249)
  {
    FracStep(1333711577906, 15258789, 302337646484, 1778786573040, 7629394, 302337646484);
    FracStep(1778786573040, 7629394, 302337646484, 1582040836213, 3814697, 302345275878);
    FracStep(1582040836213, 3814697, 302345275878, 1251426603722, 1907348, 302349090575);
    FracStep(1251426603722, 1907348, 302349090575, 1566068544503, 953674, 302349090575);
    FracStep(1566068544503, 953674, 302349090575, 1226285343040, 476837, 302350044249);
  }

  lemma TracePoint8109302161384()
    ensures FracLoop(1226285343040, 476837, 1_000_000_000_000, 302350044249) == FracLoop(1335547189969, 14901, 1_000_000_000_000, 302350312469)
  {
    FracStep(1226285343040, 476837, 302350044249, 1503775742554, 238418, 302350044249);
    FracStep(1503775742554, 238418, 302350044249, 1130670741946, 119209, 302350282667);
    FracStep(1130670741946, 119209, 302350282667, 1278416326692, 59604, 302350282667);
    FracStep(1278416326692, 59604, 302350282667, 1634348304352, 29802, 302350282667);
    FracStep(1634348304352, 29802, 302350282667, 1335547189969, 14901, 302350312469);
  }

  lemma TracePoint8109302161385()
    ensures FracLoop(1335547189969, 14901, 1_000_000_000_000, 302350312469) == FracLoop(1281461814328, 465, 1_000_000_000_000, 302350324575)
  {
    FracStep(1335547189969, 14901, 302350312469, 1783686296634, 7450, 302350312469);
    FracStep(1783686296634, 7450, 302350312469, 1590768402399, 3725, 302350319919);
    FracStep(1590768402399, 3725, 302350319919, 1265272055035, 1862, 302350323644);
    FracStep(1265272055035, 1862, 302350323644, 1600913373252, 931, 302350323644);
    FracStep(1600913373252, 931, 302350323644, 1281461814328, 465, 302350324575);
  }

  lemma TracePoint8109302161386()
    ensures FracLoop(1281461814328, 465, 1_000_000_000_000, 302350324575) == FracLoop(1365373494479, 14, 1_000_000_000_000, 302350324894)
  {
    FracStep(1281461814328, 465, 302350324575, 1642144381580, 232, 302350324575);
    FracStep(1642144381580, 232, 302350324575, 1348319084977, 116, 302350324807);
    FracStep(1348319084977, 116, 302350324807, 1817964354913, 58, 302350324807);
    FracStep(1817964354913, 58, 302350324807, 1652497197867, 29, 302350324865);
    FracStep(1652497197867, 29, 302350324865, 1365373494479, 14, 302350324894);
  }

  lemma TracePoint8109302161387()
    ensures FracLoop(1365373494479, 14, 1_000_000_000_000, 302350324894) == FracLoop(1139760272126, 0, 1_000_000_000_000, 302350324905)
  {
    FracStep(1365373494479, 14, 302350324894, 1864244779425, 7, 302350324894);
    FracStep(1864244779425, 7, 302350324894, 1737704298806, 3, 302350324901);
    FracStep(1737704298806, 3, 302350324901, 1509808115044, 1, 302350324904);
    FracStep(1509808115044, 1, 302350324904, 1139760272126, 0, 302350324905);
  }

  /** The digit loop for 0.810930216138. */
  lemma DigitsPoint810930216138()
    ensures FracLoop(1233151731307, 500000000000, 1_000_000_000_000, 0) == Some(302350324905)
  {
    TracePoint8109302161380();
    TracePoint8109302161381();
    TracePoint8109302161382();
    TracePoint8109302161383();
    TracePoint8109302161384();
    TracePoint8109302161385();
    TracePoint8109302161386();
    TracePoint8109302161387();
    assert FracLoop(1139760272126, 0, 1_000_000_000_000, 302350324905) == Some(302350324905);
  }

  /** The binary logarithm of 0.810930216138. */
  lemma Log2OfPoint810930216138()
    ensures Log2(810930216138) == Returns(Some((302350324905, true)))
  {
    Pow2Examples();
    OneIsPow10();
    assert Magnitude(810930216138, ONE) == 1233151731307;
    assert FloorDiv(1233151731307, ONE) == 1;
    BitLengthUnique(1, 0);
    assert FloorDiv(1233151731307, Pow2(0)) == 1233151731307;
    LogOfMagnitudeParts(1233151731307, ONE, 0, 1233151731307);
    DigitsPoint810930216138();
  }

  /** The bit length of 10: three doublings. */
  lemma BitLengthOfTen()
    ensures FixedBitLength(10000000000000) == Returns(Some((3, false)))
  {
    Pow10Table();
    Log10OfPowerOfTen(13);
    Log10OfTwo();
    assert FixedDiv(1000000000000, 301029995664) == 3321928094887;
    assert FloorDiv(3321928094887, ONE) == 3;
  }

  /** The bit length of 0.9: one halving. */
  lemma BitLengthOfPointNine()
    ensures FixedBitLength(900000000000) == Returns(Some((1, true)))
  {
    assert TableExponent(900000000000) == 0;
    Log2OfPointNine();
    assert FixedDiv(152003093437, LOG2_10) == 45757490558;
    Log10OfTwo();
    assert FixedDiv(45757490558, 301029995664) == 152003093436;
    assert CeilDiv(152003093436, ONE) == 1;
  }

  /** The bit length of 0.01: seven halvings. */
  lemma BitLengthOfPointZeroOne()
    ensures FixedBitLength(10000000000) == Returns(Some((7, true)))
  {
    Pow10Table();
    Log10OfPowerOfTen(10);
    Log10OfTwo();
    assert FixedDiv(2000000000000, 301029995664) == 6643856189774;
    assert CeilDiv(6643856189774, ONE) == 7;
  }

  /** The bit length of 0.000001: twenty halvings. */
  lemma BitLengthOfMillionth()
    ensures FixedBitLength(1000000) == Returns(Some((20, true)))
  {
    Pow10Table();
    Log10OfPowerOfTen(6);
    Log10OfTwo();
    assert FixedDiv(6000000000000, 301029995664) == 19931568569322;
    assert CeilDiv(19931568569322, ONE) == 20;
  }

  /** The bit length of 18446744.073709551615: twenty-four doublings. */
  lemma BitLengthOfU64Max()
    ensures FixedBitLength(18446744073709551615) == Returns(Some((24, false)))
  {
    Log10OfU64Max();
    Log10OfTwo();
    assert FixedDiv(7265919722493, 301029995664) == 24136862861344;
    assert FloorDiv(24136862861344, ONE) == 24;
  }

  /** The bit length of 2.25: one doubling. */
  lemma BitLengthOfTwoPoint25()
    ensures FixedBitLength(2250000000000) == Returns(Some((1, false)))
  {
    assert TableExponent(2250000000000) == 0;
    Log2OfTwo25();
    assert FixedDiv(1169925001434, LOG2_10) == 352182518108;
    Log10OfTwo();
    assert FixedDiv(352182518108, 301029995664) == 1169925001431;
    assert FloorDiv(1169925001431, ONE) == 1;
  }

  /** The bit length of 0.810930216138: one halving. */
  lemma BitLengthOfPoint810930216138()
    ensures FixedBitLength(810930216138) == Returns(Some((1, true)))
  {
    assert TableExponent(810930216138) == 0;
    Log2OfPoint810930216138();
    assert FixedDiv(302350324905, LOG2_10) == 91016516995;
    Log10OfTwo();
    assert FixedDiv(91016516995, 301029995664) == 302350324904;
    assert CeilDiv(302350324904, ONE) == 1;
  }

  /** The bit length of 0.0000001: twenty-four halvings. */
  lemma BitLengthOfTenMillionth()
    ensures FixedBitLength(100000) == Returns(Some((24, true)))
  {
    Pow10Table();
    Log10OfPowerOfTen(5);
    Log10OfTwo();
    assert FixedDiv(7000000000000, 301029995664) == 23253496664210;
    assert CeilDiv(23253496664210, ONE) == 24;
  }

  /** The bit length of 0.000000000001: forty halvings. */
  lemma BitLengthOfSmallest()
    ensures FixedBitLength(1) == Returns(Some((40, true)))
  {
    Pow10Table();
    Log10OfPowerOfTen(0);
    Log10OfTwo();
    assert FixedDiv(12000000000000, 301029995664) == 39863137138645;
    assert CeilDiv(39863137138645, ONE) == 40;
  }

  lemma LookupTwoPoint250()
    ensures LogTableValue(2250000000000, 2000000000000, 0) == Returns((1125000000000, 1100000000000, 95310179804))
  {
    Pow10Table();
  }

  lemma LookupTwoPoint251()
    ensures LogTableValue(1125000000000, 1100000000000, 1) == Returns((1022727272727, 1020000000000, 19802627296))
  {
    Pow10Table();
  }

  lemma LookupTwoPoint252()
    ensures LogTableValue(1022727272727, 1020000000000, 2) == Returns((1002673796791, 1002000000000, 1998002662))
  {
    Pow10Table();
  }

  lemma LookupTwoPoint253()
    ensures LogTableValue(1002673796791, 1002000000000, 3) == Returns((1000672451887, 1000600000000, 599820071))
  {
    Pow10Table();
  }

  lemma LookupTwoPoint254()
    ensures LogTableValue(1000672451887, 1000600000000, 4) == Returns((1000072408441, 1000070000000, 69997550))
  {
    Pow10Table();
  }

  lemma LookupTwoPoint255()
    ensures LogTableValue(1000072408441, 1000070000000, 5) == Returns((1000002408272, 1000002000000, 1999998))
  {
    Pow10Table();
  }

  lemma LookupTwoPoint256()
    ensures LogTableValue(1000002408272, 1000002000000, 6) == Returns((1000000408271, 1000000400000, 399999))
  {
    Pow10Table();
  }

  lemma LookupTwoPoint257()
    ensures LogTableValue(1000000408271, 1000000400000, 7) == Returns((1000000008270, 1000000000000, 0))
  {
    Pow10Table();
  }

  lemma LookupTwoPoint258()
    ensures LogTableValue(1000000008270, 1000000000000, 8) == Returns((1000000008270, 1000000008000, 7999))
  {
    Pow10Table();
  }

  lemma LookupTwoPoint259()
    ensures LogTableValue(1000000008270, 1000000008000, 9) == Returns((1000000000269, 1000000000200, 200))
  {
    Pow10Table();
  }

  lemma LookupsTwoPoint259()
    ensures Lookups(1000000008270, 1000000008000, 9) == Returns(200)
  {
    LookupTwoPoint259();
  }

  lemma LookupsTwoPoint258()
    ensures Lookups(1000000008270, 1000000000000, 8) == Returns(8199)
  {
    LookupTwoPoint258();
    LookupsTwoPoint259();
  }

  lemma LookupsTwoPoint257()
    ensures Lookups(1000000408271, 1000000400000, 7) == Returns(8199)
  {
    LookupTwoPoint257();
    LookupsTwoPoint258();
  }

  lemma LookupsTwoPoint256()
    ensures Lookups(1000002408272, 1000002000000, 6) == Returns(408198)
  {
    LookupTwoPoint256();
    LookupsTwoPoint257();
  }

  lemma LookupsTwoPoint255()
    ensures Lookups(1000072408441, 1000070000000, 5) == Returns(2408196)
  {
    LookupTwoPoint255();
    LookupsTwoPoint256();
  }

  lemma LookupsTwoPoint254()
    ensures Lookups(1000672451887, 1000600000000, 4) == Returns(72405746)
  {
    LookupTwoPoint254();
    LookupsTwoPoint255();
  }

  lemma LookupsTwoPoint253()
    ensures Lookups(1002673796791, 1002000000000, 3) == Returns(672225817)
  {
    LookupTwoPoint253();
    LookupsTwoPoint254();
  }

  lemma LookupsTwoPoint252()
    ensures Lookups(1022727272727, 1020000000000, 2) == Returns(2670228479)
  {
    LookupTwoPoint252();
    LookupsTwoPoint253();
  }

  lemma LookupsTwoPoint251()
    ensures Lookups(1125000000000, 1100000000000, 1) == Returns(22472855775)
  {
    LookupTwoPoint251();
    LookupsTwoPoint252();
  }

  lemma LookupsTwoPoint250()
    ensures Lookups(2250000000000, 2000000000000, 0) == Returns(117783035579)
  {
    LookupTwoPoint250();
    LookupsTwoPoint251();
  }

  /** ln(2.25) from the tables. */
  lemma LnTablesOfTwoPoint25()
    ensures LnTables(2250000000000) == Returns(Some((810930216138, false)))
  {
    BitLengthOfTwoPoint25();
    assert LnTables(2250000000000) == FromBitLength(2250000000000, 1, false);
    Pow2Examples();
    OneIsPow10();
    FromBitLengthSteps(2250000000000, 1, false);
    assert Divisor(1, false) == 2000000000000;
    LookupsTwoPoint250();
    AssembleSteps(1, false, 117783035579);
  }

  lemma LookupPoint8109302161380()
    ensures LogTableValue(810930216138, 500000000000, 0) == Returns((1621860432276, 1600000000000, 470003629245))
  {
    Pow10Table();
  }

  lemma LookupPoint8109302161381()
    ensures LogTableValue(1621860432276, 1600000000000, 1) == Returns((1013662770172, 1010000000000, 9950330853))
  {
    Pow10Table();
  }

  lemma LookupPoint8109302161382()
    ensures LogTableValue(1013662770172, 1010000000000, 2) == Returns((1003626505120, 1003000000000, 2995508979))
  {
    Pow10Table();
  }

  lemma LookupPoint8109302161383()
    ensures LogTableValue(1003626505120, 1003000000000, 3) == Returns((1000624631226, 1000600000000, 599820071))
  {
    Pow10Table();
  }

  lemma LookupPoint8109302161384()
    ensures LogTableValue(1000624631226, 1000600000000, 4) == Returns((1000024616456, 1000020000000, 19999800))
  {
    Pow10Table();
  }

  lemma LookupPoint8109302161385()
    ensures LogTableValue(1000024616456, 1000020000000, 5) == Returns((1000004616363, 1000004000000, 3999991))
  {
    Pow10Table();
  }

  lemma LookupPoint8109302161386()
    ensures LogTableValue(1000004616363, 1000004000000, 6) == Returns((1000000616360, 1000000600000, 599999))
  {
    Pow10Table();
  }

  lemma LookupPoint8109302161387()
    ensures LogTableValue(1000000616360, 1000000600000, 7) == Returns((1000000016359, 1000000010000, 9999))
  {
    Pow10Table();
  }

  lemma LookupPoint8109302161388()
    ensures LogTableValue(1000000016359, 1000000010000, 8) == Returns((1000000006358, 1000000006000, 6000))
  {
    Pow10Table();
  }

  lemma LookupPoint8109302161389()
    ensures LogTableValue(1000000006358, 1000000006000, 9) == Returns((1000000000357, 1000000000300, 300))
  {
    Pow10Table();
  }

  lemma LookupsPoint8109302161389()
    ensures Lookups(1000000006358, 1000000006000, 9) == Returns(300)
  {
    LookupPoint8109302161389();
  }

  lemma LookupsPoint8109302161388()
    ensures Lookups(1000000016359, 1000000010000, 8) == Returns(6300)
  {
    LookupPoint8109302161388();
    LookupsPoint8109302161389();
  }

  lemma LookupsPoint8109302161387()
    ensures Lookups(1000000616360, 1000000600000, 7) == Returns(16299)
  {
    LookupPoint8109302161387();
    LookupsPoint8109302161388();
  }

  lemma LookupsPoint8109302161386()
    ensures Lookups(1000004616363, 1000004000000, 6) == Returns(616298)
  {
    LookupPoint8109302161386();
    LookupsPoint8109302161387();
  }

  lemma LookupsPoint8109302161385()
    ensures Lookups(1000024616456, 1000020000000, 5) == Returns(4616289)
  {
    LookupPoint8109302161385();
    LookupsPoint8109302161386();
  }

  lemma LookupsPoint8109302161384()
    ensures Lookups(1000624631226, 1000600000000, 4) == Returns(24616089)
  {
    LookupPoint8109302161384();
    LookupsPoint8109302161385();
  }

  lemma LookupsPoint8109302161383()
    ensures Lookups(1003626505120, 1003000000000, 3) == Returns(624436160)
  {
    LookupPoint8109302161383();
    LookupsPoint8109302161384();
  }

  lemma LookupsPoint8109302161382()
    ensures Lookups(1013662770172, 1010000000000, 2) == Returns(3619945139)
  {
    LookupPoint8109302161382();
    LookupsPoint8109302161383();
  }

  lemma LookupsPoint8109302161381()
    ensures Lookups(1621860432276, 1600000000000, 1) == Returns(13570275992)
  {
    LookupPoint8109302161381();
    LookupsPoint8109302161382();
  }

  lemma LookupsPoint8109302161380()
    ensures Lookups(810930216138, 500000000000, 0) == Returns(483573905237)
  {
    LookupPoint8109302161380();
    LookupsPoint8109302161381();
  }

  /** ln(0.810930216138) from the tables. */
  lemma LnTablesOfPoint810930216138()
    ensures LnTables(810930216138) == Returns(Some((209573275322, true)))
  {
    BitLengthOfPoint810930216138();
    assert LnTables(810930216138) == FromBitLength(810930216138, 1, true);
    Pow2Examples();
    OneIsPow10();
    FromBitLengthSteps(810930216138, 1, true);
    assert FixedDiv(ONE, Pow2(1) * ONE) == 500000000000;
    assert Divisor(1, true) == 500000000000;
    LookupsPoint8109302161380();
    AssembleSteps(1, true, 483573905237);
  }

  lemma LookupTenMillionth0()
    ensures LogTableValue(100000, 59604, 0) == Returns((1677739749010, 1600000000000, 470003629245))
  {
    Pow10Table();
  }

  lemma LookupTenMillionth1()
    ensures LogTableValue(1677739749010, 1600000000000, 1) == Returns((1048587343131, 1040000000000, 39220713153))
  {
    Pow10Table();
  }

  lemma LookupTenMillionth2()
    ensures LogTableValue(1048587343131, 1040000000000, 2) == Returns((1008257060702, 1008000000000, 7968169649))
  {
    Pow10Table();
  }

  lemma LookupTenMillionth3()
    ensures LogTableValue(1008257060702, 1008000000000, 3) == Returns((1000255020537, 1000200000000, 199980002))
  {
    Pow10Table();
  }

  lemma LookupTenMillionth4()
    ensures LogTableValue(1000255020537, 1000200000000, 4) == Returns((1000055009535, 1000050000000, 49998750))
  {
    Pow10Table();
  }

  lemma LookupTenMillionth5()
    ensures LogTableValue(1000055009535, 1000050000000, 5) == Returns((1000005009284, 1000005000000, 4999987))
  {
    Pow10Table();
  }

  lemma LookupTenMillionth6()
    ensures LogTableValue(1000005009284, 1000005000000, 6) == Returns((1000000009283, 1000000000000, 0))
  {
    Pow10Table();
  }

  lemma LookupTenMillionth7()
    ensures LogTableValue(1000000009283, 1000000000000, 7) == Returns((1000000009283, 1000000000000, 0))
  {
    Pow10Table();
  }

  lemma LookupTenMillionth8()
    ensures LogTableValue(1000000009283, 1000000000000, 8) == Returns((1000000009283, 1000000009000, 9000))
  {
    Pow10Table();
  }

  lemma LookupTenMillionth9()
    ensures LogTableValue(1000000009283, 1000000009000, 9) == Returns((1000000000282, 1000000000200, 200))
  {
    Pow10Table();
  }

  lemma LookupsTenMillionth9()
    ensures Lookups(1000000009283, 1000000009000, 9) == Returns(200)
  {
    LookupTenMillionth9();
  }

  lemma LookupsTenMillionth8()
    ensures Lookups(1000000009283, 1000000000000, 8) == Returns(9200)
  {
    LookupTenMillionth8();
    LookupsTenMillionth9();
  }

  lemma LookupsTenMillionth7()
    ensures Lookups(1000000009283, 1000000000000, 7) == Returns(9200)
  {
    LookupTenMillionth7();
    LookupsTenMillionth8();
  }

  lemma LookupsTenMillionth6()
    ensures Lookups(1000005009284, 1000005000000, 6) == Returns(9200)
  {
    LookupTenMillionth6();
    LookupsTenMillionth7();
  }

  lemma LookupsTenMillionth5()
    ensures Lookups(1000055009535, 1000050000000, 5) == Returns(5009187)
  {
    LookupTenMillionth5();
    LookupsTenMillionth6();
  }

  lemma LookupsTenMillionth4()
    ensures Lookups(1000255020537, 1000200000000, 4) == Returns(55007937)
  {
    LookupTenMillionth4();
    LookupsTenMillionth5();
  }

  lemma LookupsTenMillionth3()
    ensures Lookups(1008257060702, 1008000000000, 3) == Returns(254987939)
  {
    LookupTenMillionth3();
    LookupsTenMillionth4();
  }

  lemma LookupsTenMillionth2()
    ensures Lookups(1048587343131, 1040000000000, 2) == Returns(8223157588)
  {
    LookupTenMillionth2();
    LookupsTenMillionth3();
  }

  lemma LookupsTenMillionth1()
    ensures Lookups(1677739749010, 1600000000000, 1) == Returns(47443870741)
  {
    LookupTenMillionth1();
    LookupsTenMillionth2();
  }

  lemma LookupsTenMillionth0()
    ensures Lookups(100000, 59604, 0) == Returns(517447499986)
  {
    LookupTenMillionth0();
    LookupsTenMillionth1();
  }

  /** ln(0.0000001) from the tables. */
  lemma LnTablesOfTenMillionth()
    ensures LnTables(100000) == Returns(Some((16118084833430, true)))
  {
    BitLengthOfTenMillionth();
    assert LnTables(100000) == FromBitLength(100000, 24, true);
    Pow2Examples();
    OneIsPow10();
    FromBitLengthSteps(100000, 24, true);
    assert FixedDiv(ONE, Pow2(24) * ONE) == 59604;
    assert Divisor(24, true) == 59604;
    LookupsTenMillionth0();
    AssembleSteps(24, true, 517447499986);
  }

  /** The smallest positive value, 10^-12, panics: its bit length of
      forty makes the reciprocal of 2^40 zero at twelve places, and the
      first lookup divides by it. */
  lemma LnTablesOfSmallest()
    ensures LnTables(1) == Panics
  {
    BitLengthOfSmallest();
    assert LnTables(1) == FromBitLength(1, 40, true);
    Pow2Examples();
    OneIsPow10();
    FromBitLengthSteps(1, 40, true);
    assert FixedDiv(ONE, Pow2(40) * ONE) == 0;
    assert Divisor(40, true) == 0;
    assert !FixedDivDefined(1, 0);
    assert Lookups(1, 0, 0) == Panics;
  }
}
