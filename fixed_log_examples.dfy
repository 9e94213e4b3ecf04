/** Worked examples of the fixed-point logarithms: the digit loop followed
    step by step for the inputs the library's own tests use, and the natural
    and decimal logarithms derived from them. */
module FixedLogExamples {
  import opened Bounded
  import opened Log2Kernel
  import opened FixedLogs

  lemma Pow2Examples()
    ensures Pow2(1) == 2 && Pow2(2) == 4 && Pow2(3) == 8 && Pow2(4) == 16
    ensures Pow2(24) == 16777216 && Pow2(25) == 33554432
    ensures Pow2(39) == 549755813888 && Pow2(40) == 1099511627776
  {
    assert Pow2(1) == 2;
    assert Pow2(2) == 4;
    assert Pow2(3) == 8;
    assert Pow2(4) == 16;
    assert Pow2(5) == 32;
    assert Pow2(6) == 64;
    assert Pow2(7) == 128;
    assert Pow2(8) == 256;
    assert Pow2(9) == 512;
    assert Pow2(10) == 1024;
    assert Pow2(11) == 2048;
    assert Pow2(12) == 4096;
    assert Pow2(13) == 8192;
    assert Pow2(14) == 16384;
    assert Pow2(15) == 32768;
    assert Pow2(16) == 65536;
    assert Pow2(17) == 131072;
    assert Pow2(18) == 262144;
    assert Pow2(19) == 524288;
    assert Pow2(20) == 1048576;
    assert Pow2(21) == 2097152;
    assert Pow2(22) == 4194304;
    assert Pow2(23) == 8388608;
    assert Pow2(24) == 16777216;
    assert Pow2(25) == 33554432;
    assert Pow2(26) == 67108864;
    assert Pow2(27) == 134217728;
    assert Pow2(28) == 268435456;
    assert Pow2(29) == 536870912;
    assert Pow2(30) == 1073741824;
    assert Pow2(31) == 2147483648;
    assert Pow2(32) == 4294967296;
    assert Pow2(33) == 8589934592;
    assert Pow2(34) == 17179869184;
    assert Pow2(35) == 34359738368;
    assert Pow2(36) == 68719476736;
    assert Pow2(37) == 137438953472;
    assert Pow2(38) == 274877906944;
    assert Pow2(39) == 549755813888;
    assert Pow2(40) == 1099511627776;
  }

  /** One turn of the fraction loop at twelve places, with the square,
      its halving and the accumulated digit written out. */
  lemma FracStep(y: nat, z: nat, acc: u128, y2: nat, z2: nat, acc2: u128)
    requires z > 0 && z2 == z / 2 && y * y < U128_LIMIT
    requires var sq := (y * y) / 1_000_000_000_000;
      if sq >= 2_000_000_000_000 then y2 == sq / 2 && acc2 == acc + z
      else y2 == sq && acc2 == acc
    ensures FracLoop(y, z, 1_000_000_000_000, acc) == FracLoop(y2, z2, 1_000_000_000_000, acc2)
  {
  }

  lemma TraceTwo250()
    ensures FracLoop(1125000000000, 500000000000, 1_000_000_000_000, 1000000000000) == FracLoop(1354349463357, 15625000000, 1_000_000_000_000, 1156250000000)
  {
    FracStep(1125000000000, 500000000000, 1000000000000, 1265625000000, 250000000000, 1000000000000);
    FracStep(1265625000000, 250000000000, 1000000000000, 1601806640625, 125000000000, 1000000000000);
    FracStep(1601806640625, 125000000000, 1000000000000, 1282892256975, 62500000000, 1125000000000);
    FracStep(1282892256975, 62500000000, 1125000000000, 1645812543006, 31250000000, 1125000000000);
    FracStep(1645812543006, 31250000000, 1125000000000, 1354349463357, 15625000000, 1156250000000);
  }

  lemma TraceTwo251()
    ensures FracLoop(1354349463357, 15625000000, 1_000_000_000_000, 1156250000000) == FracLoop(1002221558656, 488281250, 1_000_000_000_000, 1169921875000)
  {
    FracStep(1354349463357, 15625000000, 1156250000000, 1834262468895, 7812500000, 1156250000000);
    FracStep(1834262468895, 7812500000, 1156250000000, 1682259402398, 3906250000, 1164062500000);
    FracStep(1682259402398, 3906250000, 1164062500000, 1414998348478, 1953125000, 1167968750000);
    FracStep(1414998348478, 1953125000, 1167968750000, 1001110163097, 976562500, 1169921875000);
    FracStep(1001110163097, 976562500, 1169921875000, 1002221558656, 488281250, 1169921875000);
  }

  lemma TraceTwo252()
    ensures FracLoop(1002221558656, 488281250, 1_000_000_000_000, 1169921875000) == FracLoop(1073593065992, 15258789, 1_000_000_000_000, 1169921875000)
  {
    FracStep(1002221558656, 488281250, 1169921875000, 1004448052634, 244140625, 1169921875000);
    FracStep(1004448052634, 244140625, 1169921875000, 1008915890440, 122070312, 1169921875000);
    FracStep(1008915890440, 122070312, 1169921875000, 1017911273982, 61035156, 1169921875000);
    FracStep(1017911273982, 61035156, 1169921875000, 1036143361699, 30517578, 1169921875000);
    FracStep(1036143361699, 30517578, 1169921875000, 1073593065992, 15258789, 1169921875000);
  }

  lemma TraceTwo253()
    ensures FracLoop(1073593065992, 15258789, 1_000_000_000_000, 1169921875000) == FracLoop(1212775303314, 476837, 1_000_000_000_000, 1169924736022)
  {
    FracStep(1073593065992, 15258789, 1169921875000, 1152602071346, 7629394, 1169921875000);
    FracStep(1152602071346, 7629394, 1169921875000, 1328491534871, 3814697, 1169921875000);
    FracStep(1328491534871, 3814697, 1169921875000, 1764889758223, 1907348, 1169921875000);
    FracStep(1764889758223, 1907348, 1169921875000, 1557417929340, 953674, 1169923782348);
    FracStep(1557417929340, 953674, 1169923782348, 1212775303314, 476837, 1169924736022);
  }

  lemma TraceTwo254()
    ensures FracLoop(1212775303314, 476837, 1_000_000_000_000, 1169924736022) == FracLoop(1873833758184, 14901, 1_000_000_000_000, 1169924974440)
  {
    FracStep(1212775303314, 476837, 1169924736022, 1470823936328, 238418, 1169924736022);
    FracStep(1470823936328, 238418, 1169924736022, 1081661525837, 119209, 1169924974440);
    FracStep(1081661525837, 119209, 1169924974440, 1169991656476, 59604, 1169924974440);
    FracStep(1169991656476, 59604, 1169924974440, 1368880476223, 29802, 1169924974440);
    FracStep(1368880476223, 29802, 1169924974440, 1873833758184, 14901, 1169924974440);
  }

  lemma TraceTwo255()
    ensures FracLoop(1873833758184, 14901, 1_000_000_000_000, 1169924974440) == FracLoop(1988630066486, 465, 1_000_000_000_000, 1169925000516)
  {
    FracStep(1873833758184, 14901, 1169924974440, 1755626476654, 7450, 1169924989341);
    FracStep(1755626476654, 7450, 1169924989341, 1541112162764, 3725, 1169924996791);
    FracStep(1541112162764, 3725, 1169924996791, 1187513349109, 1862, 1169925000516);
    FracStep(1187513349109, 1862, 1169925000516, 1410187954312, 931, 1169925000516);
    FracStep(1410187954312, 931, 1169925000516, 1988630066486, 465, 1169925000516);
  }

  lemma TraceTwo256()
    ensures FracLoop(1988630066486, 465, 1_000_000_000_000, 1169925000516) == FracLoop(1666472595992, 14, 1_000_000_000_000, 1169925001416)
  {
    FracStep(1988630066486, 465, 1169925000516, 1977324770666, 232, 1169925000981);
    FracStep(1977324770666, 232, 1169925000981, 1954906624344, 116, 1169925001213);
    FracStep(1954906624344, 116, 1169925001213, 1910829954952, 58, 1169925001329);
    FracStep(1910829954952, 58, 1169925001329, 1825635558370, 29, 1169925001387);
    FracStep(1825635558370, 29, 1169925001387, 1666472595992, 14, 1169925001416);
  }

  lemma TraceTwo257()
    ensures FracLoop(1666472595992, 14, 1_000_000_000_000, 1169925001416) == FracLoop(1727590748785, 0, 1_000_000_000_000, 1169925001434)
  {
    FracStep(1666472595992, 14, 1169925001416, 1388565456596, 7, 1169925001430);
    FracStep(1388565456596, 7, 1169925001430, 1928114027251, 3, 1169925001430);
    FracStep(1928114027251, 3, 1169925001430, 1858811851041, 1, 1169925001433);
    FracStep(1858811851041, 1, 1169925001433, 1727590748785, 0, 1169925001434);
  }

  /** The digit loop for 2.25. */
  lemma DigitsTwo25()
    ensures FracLoop(1125000000000, 500000000000, 1_000_000_000_000, 1000000000000) == Some(1169925001434)
  {
    TraceTwo250();
    TraceTwo251();
    TraceTwo252();
    TraceTwo253();
    TraceTwo254();
    TraceTwo255();
    TraceTwo256();
    TraceTwo257();
    assert FracLoop(1727590748785, 0, 1_000_000_000_000, 1169925001434) == Some(1169925001434);
  }

  /** The binary logarithm of 2.25. */
  lemma Log2OfTwo25()
    ensures Log2(2250000000000) == Returns(Some((1169925001434, false)))
  {
    Pow2Examples();
    OneIsPow10();
    assert Magnitude(2250000000000, ONE) == 2250000000000;
    assert FloorDiv(2250000000000, ONE) == 2;
    BitLengthUnique(2, 1);
    assert FloorDiv(2250000000000, Pow2(1)) == 1125000000000;
    LogOfMagnitudeParts(2250000000000, ONE, 1, 1125000000000);
    DigitsTwo25();
  }

  lemma TraceU64Max0()
    ensures FracLoop(1099511627775, 500000000000, 1_000_000_000_000, 24000000000000) == FracLoop(1300991524281, 15625000000, 1_000_000_000_000, 24125000000000)
  {
    FracStep(1099511627775, 500000000000, 24000000000000, 1208925819612, 250000000000, 24000000000000);
    FracStep(1208925819612, 250000000000, 24000000000000, 1461501637324, 125000000000, 24000000000000);
    FracStep(1461501637324, 125000000000, 24000000000000, 1067993517950, 62500000000, 24125000000000);
    FracStep(1067993517950, 62500000000, 24125000000000, 1140610154383, 31250000000, 24125000000000);
    FracStep(1140610154383, 31250000000, 24125000000000, 1300991524281, 15625000000, 24125000000000);
  }

  lemma TraceU64Max1()
    ensures FracLoop(1300991524281, 15625000000, 1_000_000_000_000, 24125000000000) == FracLoop(1107702161458, 488281250, 1_000_000_000_000, 24136718750000)
  {
    FracStep(1300991524281, 15625000000, 24125000000000, 1692578946250, 7812500000, 24125000000000);
    FracStep(1692578946250, 7812500000, 24125000000000, 1432411744644, 3906250000, 24132812500000);
    FracStep(1432411744644, 3906250000, 24132812500000, 1025901703097, 1953125000, 24136718750000);
    FracStep(1025901703097, 1953125000, 24136718750000, 1052474304417, 976562500, 24136718750000);
    FracStep(1052474304417, 976562500, 24136718750000, 1107702161458, 488281250, 24136718750000);
  }

  lemma TraceU64Max2()
    ensures FracLoop(1107702161458, 488281250, 1_000_000_000_000, 24136718750000) == FracLoop(1649742330978, 15258789, 1_000_000_000_000, 24136840820312)
  {
    FracStep(1107702161458, 488281250, 24136718750000, 1227004078498, 244140625, 24136718750000);
    FracStep(1227004078498, 244140625, 24136718750000, 1505539008650, 122070312, 24136718750000);
    FracStep(1505539008650, 122070312, 24136718750000, 1133323853283, 61035156, 24136840820312);
    FracStep(1133323853283, 61035156, 24136840820312, 1284422956420, 30517578, 24136840820312);
    FracStep(1284422956420, 30517578, 24136840820312, 1649742330978, 15258789, 24136840820312);
  }

  lemma TraceU64Max3()
    ensures FracLoop(1649742330978, 15258789, 1_000_000_000_000, 24136840820312) == FracLoop(1080502761462, 476837, 1_000_000_000_000, 24136862754820)
  {
    FracStep(1649742330978, 15258789, 24136840820312, 1360824879310, 7629394, 24136856079101);
    FracStep(1360824879310, 7629394, 24136856079101, 1851844352149, 3814697, 24136856079101);
    FracStep(1851844352149, 3814697, 24136856079101, 1714663752293, 1907348, 24136859893798);
    FracStep(1714663752293, 1907348, 24136859893798, 1470035891713, 953674, 24136861801146);
    FracStep(1470035891713, 953674, 24136861801146, 1080502761462, 476837, 24136862754820);
  }

  lemma TraceU64Max4()
    ensures FracLoop(1080502761462, 476837, 1_000_000_000_000, 24136862754820) == FracLoop(1489149191299, 14901, 1_000_000_000_000, 24136862844226)
  {
    FracStep(1080502761462, 476837, 24136862754820, 1167486217527, 238418, 24136862754820);
    FracStep(1167486217527, 238418, 24136862754820, 1363024068115, 119209, 24136862754820);
    FracStep(1363024068115, 119209, 24136862754820, 1857834610260, 59604, 24136862754820);
    FracStep(1857834610260, 59604, 24136862754820, 1725774719539, 29802, 24136862814424);
    FracStep(1725774719539, 29802, 24136862814424, 1489149191299, 14901, 24136862844226);
  }

  lemma TraceU64Max5()
    ensures FracLoop(1489149191299, 14901, 1_000_000_000_000, 24136862844226) == FracLoop(1304616291512, 465, 1_000_000_000_000, 24136862860989)
  {
    FracStep(1489149191299, 14901, 24136862844226, 1108782656973, 7450, 24136862859127);
    FracStep(1108782656973, 7450, 24136862859127, 1229398980404, 3725, 24136862859127);
    FracStep(1229398980404, 3725, 24136862859127, 1511421853018, 1862, 24136862859127);
    FracStep(1511421853018, 1862, 24136862859127, 1142198008890, 931, 24136862860989);
    FracStep(1142198008890, 931, 24136862860989, 1304616291512, 465, 24136862860989);
  }

  lemma TraceU64Max6()
    ensures FracLoop(1304616291512, 465, 1_000_000_000_000, 24136862860989) == FracLoop(1210847842803, 14, 1_000_000_000_000, 24136862861337)
  {
    FracStep(1304616291512, 465, 24136862860989, 1702023668078, 232, 24136862860989);
    FracStep(1702023668078, 232, 24136862860989, 1448442283348, 116, 24136862861221);
    FracStep(1448442283348, 116, 24136862861221, 1048992524095, 58, 24136862861337);
    FracStep(1048992524095, 58, 24136862861337, 1100385315607, 29, 24136862861337);
    FracStep(1100385315607, 29, 24136862861337, 1210847842803, 14, 24136862861337);
  }

  lemma TraceU64Max7()
    ensures FracLoop(1210847842803, 14, 1_000_000_000_000, 24136862861337) == FracLoop(1334483399137, 0, 1_000_000_000_000, 24136862861344)
  {
    FracStep(1210847842803, 14, 24136862861337, 1466152498420, 7, 24136862861337);
    FracStep(1466152498420, 7, 24136862861337, 1074801574311, 3, 24136862861344);
    FracStep(1074801574311, 3, 24136862861344, 1155198424141, 1, 24136862861344);
    FracStep(1155198424141, 1, 24136862861344, 1334483399137, 0, 24136862861344);
  }

  /** The digit loop for 18446744.073709551615, the largest u64. */
  lemma DigitsU64Max()
    ensures FracLoop(1099511627775, 500000000000, 1_000_000_000_000, 24000000000000) == Some(24136862861344)
  {
    TraceU64Max0();
    TraceU64Max1();
    TraceU64Max2();
    TraceU64Max3();
    TraceU64Max4();
    TraceU64Max5();
    TraceU64Max6();
    TraceU64Max7();
    assert FracLoop(1334483399137, 0, 1_000_000_000_000, 24136862861344) == Some(24136862861344);
  }

  /** The binary logarithm of 18446744.073709551615, the largest u64. */
  lemma Log2OfU64Max()
    ensures Log2(18446744073709551615) == Returns(Some((24136862861344, false)))
  {
    Pow2Examples();
    OneIsPow10();
    assert Magnitude(18446744073709551615, ONE) == 18446744073709551615;
    assert FloorDiv(18446744073709551615, ONE) == 18446744;
    BitLengthUnique(18446744, 24);
    assert FloorDiv(18446744073709551615, Pow2(24)) == 1099511627775;
    LogOfMagnitudeParts(18446744073709551615, ONE, 24, 1099511627775);
    DigitsU64Max();
  }

  lemma TracePointEight0()
    ensures FracLoop(1233151731196, 500000000000, 1_000_000_000_000, 0) == FracLoop(1596829626711, 15625000000, 1_000_000_000_000, 281250000000)
  {
    FracStep(1233151731196, 500000000000, 0, 1520663192151, 250000000000, 0);
    FracStep(1520663192151, 250000000000, 0, 1156208271981, 125000000000, 250000000000);
    FracStep(1156208271981, 125000000000, 250000000000, 1336817568197, 62500000000, 250000000000);
    FracStep(1336817568197, 62500000000, 250000000000, 1787081210640, 31250000000, 250000000000);
    FracStep(1787081210640, 31250000000, 250000000000, 1596829626711, 15625000000, 281250000000);
  }

  lemma TracePointEight1()
    ensures FracLoop(1596829626711, 15625000000, 1_000_000_000_000, 281250000000) == FracLoop(1522806440324, 488281250, 1_000_000_000_000, 301757812500)
  {
    FracStep(1596829626711, 15625000000, 281250000000, 1274932428370, 7812500000, 296875000000);
    FracStep(1274932428370, 7812500000, 296875000000, 1625452696909, 3906250000, 296875000000);
    FracStep(1625452696909, 3906250000, 296875000000, 1321048234944, 1953125000, 300781250000);
    FracStep(1321048234944, 1953125000, 300781250000, 1745168439048, 976562500, 300781250000);
    FracStep(1745168439048, 976562500, 300781250000, 1522806440324, 488281250, 301757812500);
  }

  lemma TracePointEight2()
    ensures FracLoop(1522806440324, 488281250, 1_000_000_000_000, 301757812500) == FracLoop(1333707639087, 15258789, 1_000_000_000_000, 302337646484)
  {
    FracStep(1522806440324, 488281250, 301757812500, 1159469727346, 244140625, 302246093750);
    FracStep(1159469727346, 244140625, 302246093750, 1344370048631, 122070312, 302246093750);
    FracStep(1344370048631, 122070312, 302246093750, 1807330827656, 61035156, 302246093750);
    FracStep(1807330827656, 61035156, 302246093750, 1633222360297, 30517578, 302307128906);
    FracStep(1633222360297, 30517578, 302307128906, 1333707639087, 15258789, 302337646484);
  }

  lemma TracePointEight3()
    ensures FracLoop(1333707639087, 15258789, 1_000_000_000_000, 302337646484) == FracLoop(1226169458444, 476837, 1_000_000_000_000, 302350044249)
  {
    FracStep(1333707639087, 15258789, 302337646484, 1778776066559, 7629394, 302337646484);
    FracStep(1778776066559, 7629394, 302337646484, 1582022147481, 3814697, 302345275878);
    FracStep(1582022147481, 3814697, 302345275878, 1251397037560, 1907348, 302349090575);
    FracStep(1251397037560, 1907348, 302349090575, 1565994545613, 953674, 302349090575);
    FracStep(1565994545613, 953674, 302349090575, 1226169458444, 476837, 302350044249);
  }

  lemma TracePointEight4()
    ensures FracLoop(1226169458444, 476837, 1_000_000_000_000, 302350044249) == FracLoop(1331514383428, 14901, 1_000_000_000_000, 302350312469)
  {
    FracStep(1226169458444, 476837, 302350044249, 1503491540820, 238418, 302350044249);
    FracStep(1503491540820, 238418, 302350044249, 1130243406658, 119209, 302350282667);
    FracStep(1130243406658, 119209, 302350282667, 1277450158293, 59604, 302350282667);
    FracStep(1277450158293, 59604, 302350282667, 1631878906922, 29802, 302350282667);
    FracStep(1631878906922, 29802, 302350282667, 1331514383428, 14901, 302350312469);
  }

  lemma TracePointEight5()
    ensures FracLoop(1331514383428, 14901, 1_000_000_000_000, 302350312469) == FracLoop(1163262280932, 465, 1_000_000_000_000, 302350324575)
  {
    FracStep(1331514383428, 14901, 302350312469, 1772930553275, 7450, 302350312469);
    FracStep(1772930553275, 7450, 302350312469, 1571641373367, 3725, 302350319919);
    FracStep(1571641373367, 3725, 302350319919, 1235028303239, 1862, 302350323644);
    FracStep(1235028303239, 1862, 302350323644, 1525294909801, 931, 302350323644);
    FracStep(1525294909801, 931, 302350323644, 1163262280932, 465, 302350324575);
  }

  lemma TracePointEight6()
    ensures FracLoop(1163262280932, 465, 1_000_000_000_000, 302350324575) == FracLoop(1974716272259, 14, 1_000_000_000_000, 302350324749)
  {
    FracStep(1163262280932, 465, 302350324575, 1353179134239, 232, 302350324575);
    FracStep(1353179134239, 232, 302350324575, 1831093769339, 116, 302350324575);
    FracStep(1831093769339, 116, 302350324575, 1676452196056, 58, 302350324691);
    FracStep(1676452196056, 58, 302350324691, 1405245982830, 29, 302350324749);
    FracStep(1405245982830, 29, 302350324749, 1974716272259, 14, 302350324749);
  }

  lemma TracePointEight7()
    ensures FracLoop(1974716272259, 14, 1_000_000_000_000, 302350324749) == FracLoop(1631643756531, 0, 1_000_000_000_000, 302350324774)
  {
    FracStep(1974716272259, 14, 302350324749, 1949752177962, 7, 302350324763);
    FracStep(1949752177962, 7, 302350324763, 1900766777733, 3, 302350324770);
    FracStep(1900766777733, 3, 302350324770, 1806457171666, 1, 302350324773);
    FracStep(1806457171666, 1, 302350324773, 1631643756531, 0, 302350324774);
  }

  /** The digit loop for 0.810930216211. */
  lemma DigitsPointEight()
    ensures FracLoop(1233151731196, 500000000000, 1_000_000_000_000, 0) == Some(302350324774)
  {
    TracePointEight0();
    TracePointEight1();
    TracePointEight2();
    TracePointEight3();
    TracePointEight4();
    TracePointEight5();
    TracePointEight6();
    TracePointEight7();
    assert FracLoop(1631643756531, 0, 1_000_000_000_000, 302350324774) == Some(302350324774);
  }

  /** The binary logarithm of 0.810930216211. */
  lemma Log2OfPointEight()
    ensures Log2(810930216211) == Returns(Some((302350324774, true)))
  {
    Pow2Examples();
    OneIsPow10();
    assert Magnitude(810930216211, ONE) == 1233151731196;
    assert FloorDiv(1233151731196, ONE) == 1;
    BitLengthUnique(1, 0);
    assert FloorDiv(1233151731196, Pow2(0)) == 1233151731196;
    LogOfMagnitudeParts(1233151731196, ONE, 0, 1233151731196);
    DigitsPointEight();
  }

  lemma TraceTiny0()
    ensures FracLoop(1818989403545, 500000000000, 1_000_000_000_000, 39000000000000) == FracLoop(1537289031128, 15625000000, 1_000_000_000_000, 39843750000000)
  {
    FracStep(1818989403545, 500000000000, 39000000000000, 1654361225104, 250000000000, 39500000000000);
    FracStep(1654361225104, 250000000000, 39500000000000, 1368455531563, 125000000000, 39750000000000);
    FracStep(1368455531563, 125000000000, 39750000000000, 1872670541865, 62500000000, 39750000000000);
    FracStep(1872670541865, 62500000000, 39750000000000, 1753447479184, 31250000000, 39812500000000);
    FracStep(1753447479184, 31250000000, 39812500000000, 1537289031128, 15625000000, 39843750000000);
  }

  lemma TraceTiny1()
    ensures FracLoop(1537289031128, 15625000000, 1_000_000_000_000, 39843750000000) == FracLoop(1805539490049, 488281250, 1_000_000_000_000, 39862304687500)
  {
    FracStep(1537289031128, 15625000000, 39843750000000, 1181628782613, 7812500000, 39859375000000);
    FracStep(1181628782613, 7812500000, 39859375000000, 1396246579899, 3906250000, 39859375000000);
    FracStep(1396246579899, 3906250000, 39859375000000, 1949504511879, 1953125000, 39859375000000);
    FracStep(1949504511879, 1953125000, 39859375000000, 1900283920918, 976562500, 39861328125000);
    FracStep(1900283920918, 976562500, 39861328125000, 1805539490049, 488281250, 39862304687500);
  }

  lemma TraceTiny2()
    ensures FracLoop(1805539490049, 488281250, 1_000_000_000_000, 39862304687500) == FracLoop(1212310447273, 15258789, 1_000_000_000_000, 39863128662109)
  {
    FracStep(1805539490049, 488281250, 39862304687500, 1629986425063, 244140625, 39862792968750);
    FracStep(1629986425063, 244140625, 39862792968750, 1328427872944, 122070312, 39863037109375);
    FracStep(1328427872944, 122070312, 39863037109375, 1764720613614, 61035156, 39863037109375);
    FracStep(1764720613614, 61035156, 39863037109375, 1557119422057, 30517578, 39863098144531);
    FracStep(1557119422057, 30517578, 39863098144531, 1212310447273, 15258789, 39863128662109);
  }

  lemma TraceTiny3()
    ensures FracLoop(1212310447273, 15258789, 1_000_000_000_000, 39863128662109) == FracLoop(1850986126291, 476837, 1_000_000_000_000, 39863136291503)
  {
    FracStep(1212310447273, 15258789, 39863128662109, 1469696620567, 7629394, 39863128662109);
    FracStep(1469696620567, 7629394, 39863128662109, 1080004078253, 3814697, 39863136291503);
    FracStep(1080004078253, 3814697, 39863136291503, 1166408809043, 1907348, 39863136291503);
    FracStep(1166408809043, 1907348, 39863136291503, 1360509509813, 953674, 39863136291503);
    FracStep(1360509509813, 953674, 39863136291503, 1850986126291, 476837, 39863136291503);
  }

  lemma TraceTiny4()
    ensures FracLoop(1850986126291, 476837, 1_000_000_000_000, 39863136291503) == FracLoop(1342954678238, 14901, 1_000_000_000_000, 39863137125967)
  {
    FracStep(1850986126291, 476837, 39863136291503, 1713074819860, 238418, 39863136768340);
    FracStep(1713074819860, 238418, 39863136768340, 1467312669219, 119209, 39863137006758);
    FracStep(1467312669219, 119209, 39863137006758, 1076503234625, 59604, 39863137125967);
    FracStep(1076503234625, 59604, 39863137125967, 1158859214158, 29802, 39863137125967);
    FracStep(1158859214158, 29802, 39863137125967, 1342954678238, 14901, 39863137125967);
  }

  lemma TraceTiny5()
    ensures FracLoop(1342954678238, 14901, 1_000_000_000_000, 39863137125967) == FracLoop(1529584458467, 465, 1_000_000_000_000, 39863137138073)
  {
    FracStep(1342954678238, 14901, 39863137125967, 1803527267801, 7450, 39863137125967);
    FracStep(1803527267801, 7450, 39863137125967, 1626355302850, 3725, 39863137133417);
    FracStep(1626355302850, 3725, 39863137133417, 1322515785554, 1862, 39863137137142);
    FracStep(1322515785554, 1862, 39863137137142, 1749048003039, 931, 39863137137142);
    FracStep(1749048003039, 931, 39863137137142, 1529584458467, 465, 39863137138073);
  }

  lemma TraceTiny6()
    ensures FracLoop(1529584458467, 465, 1_000_000_000_000, 39863137138073) == FracLoop(1537378751994, 14, 1_000_000_000_000, 39863137138625)
  {
    FracStep(1529584458467, 465, 39863137138073, 1169814307791, 232, 39863137138538);
    FracStep(1169814307791, 232, 39863137138538, 1368465514712, 116, 39863137138538);
    FracStep(1368465514712, 116, 39863137138538, 1872697864955, 58, 39863137138538);
    FracStep(1872697864955, 58, 39863137138538, 1753498646703, 29, 39863137138596);
    FracStep(1753498646703, 29, 39863137138596, 1537378751994, 14, 39863137138625);
  }

  lemma TraceTiny7()
    ensures FracLoop(1537378751994, 14, 1_000_000_000_000, 39863137138625) == FracLoop(1902059199507, 0, 1_000_000_000_000, 39863137138640)
  {
    FracStep(1537378751994, 14, 39863137138625, 1181766713541, 7, 39863137138639);
    FracStep(1181766713541, 7, 39863137138639, 1396572565233, 3, 39863137138639);
    FracStep(1396572565233, 3, 39863137138639, 1950414929961, 1, 39863137138639);
    FracStep(1950414929961, 1, 39863137138639, 1902059199507, 0, 39863137138640);
  }

  /** The digit loop for 0.000000000001, the smallest positive value. */
  lemma DigitsTiny()
    ensures FracLoop(1818989403545, 500000000000, 1_000_000_000_000, 39000000000000) == Some(39863137138640)
  {
    TraceTiny0();
    TraceTiny1();
    TraceTiny2();
    TraceTiny3();
    TraceTiny4();
    TraceTiny5();
    TraceTiny6();
    TraceTiny7();
    assert FracLoop(1902059199507, 0, 1_000_000_000_000, 39863137138640) == Some(39863137138640);
  }

  /** The binary logarithm of 0.000000000001, the smallest positive value. */
  lemma Log2OfTiny()
    ensures Log2(1) == Returns(Some((39863137138640, true)))
  {
    Pow2Examples();
    OneIsPow10();
    assert Magnitude(1, ONE) == 1000000000000000000000000;
    assert FloorDiv(1000000000000000000000000, ONE) == 1000000000000;
    BitLengthUnique(1000000000000, 39);
    assert FloorDiv(1000000000000000000000000, Pow2(39)) == 1818989403545;
    LogOfMagnitudeParts(1000000000000000000000000, ONE, 39, 1818989403545);
    DigitsTiny();
  }

  lemma TraceOnePointOne0()
    ensures FracLoop(1100000000000, 500000000000, 1_000_000_000_000, 0) == FracLoop(1319611046583, 15625000000, 1_000_000_000_000, 125000000000)
  {
    FracStep(1100000000000, 500000000000, 0, 1210000000000, 250000000000, 0);
    FracStep(1210000000000, 250000000000, 0, 1464100000000, 125000000000, 0);
    FracStep(1464100000000, 125000000000, 0, 1071794405000, 62500000000, 125000000000);
    FracStep(1071794405000, 62500000000, 125000000000, 1148743246589, 31250000000, 125000000000);
    FracStep(1148743246589, 31250000000, 125000000000, 1319611046583, 15625000000, 125000000000);
  }

  lemma TraceOnePointOne1()
    ensures FracLoop(1319611046583, 15625000000, 1_000_000_000_000, 125000000000) == FracLoop(1745461239196, 488281250, 1_000_000_000_000, 136718750000)
  {
    FracStep(1319611046583, 15625000000, 125000000000, 1741373314263, 7812500000, 125000000000);
    FracStep(1741373314263, 7812500000, 125000000000, 1516190509813, 3906250000, 132812500000);
    FracStep(1516190509813, 3906250000, 132812500000, 1149416831023, 1953125000, 136718750000);
    FracStep(1149416831023, 1953125000, 136718750000, 1321159051438, 976562500, 136718750000);
    FracStep(1321159051438, 976562500, 136718750000, 1745461239196, 488281250, 136718750000);
  }

  lemma TraceOnePointOne2()
    ensures FracLoop(1745461239196, 488281250, 1_000_000_000_000, 136718750000) == FracLoop(1642013781114, 15258789, 1_000_000_000_000, 137481689453)
  {
    FracStep(1745461239196, 488281250, 136718750000, 1523317468767, 244140625, 137207031250);
    FracStep(1523317468767, 244140625, 137207031250, 1160248055325, 122070312, 137451171875);
    FracStep(1160248055325, 122070312, 137451171875, 1346175549885, 61035156, 137451171875);
    FracStep(1346175549885, 61035156, 137451171875, 1812188611108, 30517578, 137451171875);
    FracStep(1812188611108, 30517578, 137451171875, 1642013781114, 15258789, 137481689453);
  }

  lemma TraceOnePointOne3()
    ensures FracLoop(1642013781114, 15258789, 1_000_000_000_000, 137481689453) == FracLoop(1859506168699, 476837, 1_000_000_000_000, 137502670287)
  {
    FracStep(1642013781114, 15258789, 137481689453, 1348104628684, 7629394, 137496948242);
    FracStep(1348104628684, 7629394, 137496948242, 1817386089879, 3814697, 137496948242);
    FracStep(1817386089879, 3814697, 137496948242, 1651446099842, 1907348, 137500762939);
    FracStep(1651446099842, 1907348, 137500762939, 1363637110341, 953674, 137502670287);
    FracStep(1363637110341, 953674, 137502670287, 1859506168699, 476837, 137502670287);
  }

  lemma TraceOnePointOne4()
    ensures FracLoop(1859506168699, 476837, 1_000_000_000_000, 137502670287) == FracLoop(1555550342591, 14901, 1_000_000_000_000, 137503504751)
  {
    FracStep(1859506168699, 476837, 137502670287, 1728881595714, 238418, 137503147124);
    FracStep(1728881595714, 238418, 137503147124, 1494515785999, 119209, 137503385542);
    FracStep(1494515785999, 119209, 137503385542, 1116788717300, 59604, 137503504751);
    FracStep(1116788717300, 59604, 137503504751, 1247217039088, 29802, 137503504751);
    FracStep(1247217039088, 29802, 137503504751, 1555550342591, 14901, 137503504751);
  }

  lemma TraceOnePointOne5()
    ensures FracLoop(1555550342591, 14901, 1_000_000_000_000, 137503504751) == FracLoop(1317317172637, 465, 1_000_000_000_000, 137503523377)
  {
    FracStep(1555550342591, 14901, 137503504751, 1209868434167, 7450, 137503519652);
    FracStep(1209868434167, 7450, 137503519652, 1463781627993, 3725, 137503519652);
    FracStep(1463781627993, 3725, 137503519652, 1071328327224, 1862, 137503523377);
    FracStep(1071328327224, 1862, 137503523377, 1147744384712, 931, 137503523377);
    FracStep(1147744384712, 931, 137503523377, 1317317172637, 465, 137503523377);
  }

  lemma TraceOnePointOne6()
    ensures FracLoop(1317317172637, 465, 1_000_000_000_000, 137503523377) == FracLoop(1650940263551, 14, 1_000_000_000_000, 137503523725)
  {
    FracStep(1317317172637, 465, 137503523377, 1735324533324, 232, 137503523377);
    FracStep(1735324533324, 232, 137503523377, 1505675617978, 116, 137503523609);
    FracStep(1505675617978, 116, 137503523609, 1133529533286, 58, 137503523725);
    FracStep(1133529533286, 58, 137503523725, 1284889202831, 29, 137503523725);
    FracStep(1284889202831, 29, 137503523725, 1650940263551, 14, 137503523725);
  }

  lemma TraceOnePointOne7()
    ensures FracLoop(1650940263551, 14, 1_000_000_000_000, 137503523725) == FracLoop(1487208288579, 0, 1_000_000_000_000, 137503523743)
  {
    FracStep(1650940263551, 14, 137503523725, 1362801876906, 7, 137503523739);
    FracStep(1362801876906, 7, 137503523739, 1857228955698, 3, 137503523739);
    FracStep(1857228955698, 3, 137503523739, 1724649696941, 1, 137503523742);
    FracStep(1724649696941, 1, 137503523742, 1487208288579, 0, 137503523743);
  }

  /** The digit loop for 1.1. */
  lemma DigitsOnePointOne()
    ensures FracLoop(1100000000000, 500000000000, 1_000_000_000_000, 0) == Some(137503523743)
  {
    TraceOnePointOne0();
    TraceOnePointOne1();
    TraceOnePointOne2();
    TraceOnePointOne3();
    TraceOnePointOne4();
    TraceOnePointOne5();
    TraceOnePointOne6();
    TraceOnePointOne7();
    assert FracLoop(1487208288579, 0, 1_000_000_000_000, 137503523743) == Some(137503523743);
  }

  /** The binary logarithm of 1.1. */
  lemma Log2OfOnePointOne()
    ensures Log2(1100000000000) == Returns(Some((137503523743, false)))
  {
    Pow2Examples();
    OneIsPow10();
    assert Magnitude(1100000000000, ONE) == 1100000000000;
    assert FloorDiv(1100000000000, ONE) == 1;
    BitLengthUnique(1, 0);
    assert FloorDiv(1100000000000, Pow2(0)) == 1100000000000;
    LogOfMagnitudeParts(1100000000000, ONE, 0, 1100000000000);
    DigitsOnePointOne();
  }

  lemma TracePointNine0()
    ensures FracLoop(1111111111111, 500000000000, 1_000_000_000_000, 0) == FracLoop(1820202536702, 15625000000, 1_000_000_000_000, 125000000000)
  {
    FracStep(1111111111111, 500000000000, 0, 1234567901234, 250000000000, 0);
    FracStep(1234567901234, 250000000000, 0, 1524157902757, 125000000000, 0);
    FracStep(1524157902757, 125000000000, 0, 1161528656268, 62500000000, 125000000000);
    FracStep(1161528656268, 62500000000, 125000000000, 1349148819331, 31250000000, 125000000000);
    FracStep(1349148819331, 31250000000, 125000000000, 1820202536702, 15625000000, 125000000000);
  }

  lemma TracePointNine1()
    ensures FracLoop(1820202536702, 15625000000, 1_000_000_000_000, 125000000000) == FracLoop(1570438761836, 488281250, 1_000_000_000_000, 151367187500)
  {
    FracStep(1820202536702, 15625000000, 125000000000, 1656568637308, 7812500000, 140625000000);
    FracStep(1656568637308, 7812500000, 140625000000, 1372109825056, 3906250000, 148437500000);
    FracStep(1372109825056, 3906250000, 148437500000, 1882685372015, 1953125000, 148437500000);
    FracStep(1882685372015, 1953125000, 148437500000, 1772252104999, 976562500, 150390625000);
    FracStep(1772252104999, 976562500, 150390625000, 1570438761836, 488281250, 151367187500);
  }

  lemma TracePointNine2()
    ensures FracLoop(1570438761836, 488281250, 1_000_000_000_000, 151367187500) == FracLoop(1786784928114, 15258789, 1_000_000_000_000, 151977539062)
  {
    FracStep(1570438761836, 488281250, 151367187500, 1233138952338, 244140625, 151855468750);
    FracStep(1233138952338, 244140625, 151855468750, 1520631675773, 122070312, 151855468750);
    FracStep(1520631675773, 122070312, 151855468750, 1156160346682, 61035156, 151977539062);
    FracStep(1156160346682, 61035156, 151977539062, 1336706747239, 30517578, 151977539062);
    FracStep(1336706747239, 30517578, 151977539062, 1786784928114, 15258789, 151977539062);
  }

  lemma TracePointNine3()
    ensures FracLoop(1786784928114, 15258789, 1_000_000_000_000, 151977539062) == FracLoop(1735933512187, 476837, 1_000_000_000_000, 152002334593)
  {
    FracStep(1786784928114, 15258789, 151977539062, 1596300189667, 7629394, 151992797851);
    FracStep(1596300189667, 7629394, 151992797851, 1274087147765, 3814697, 152000427245);
    FracStep(1274087147765, 3814697, 152000427245, 1623298060099, 1907348, 152000427245);
    FracStep(1623298060099, 1907348, 152000427245, 1317548295960, 953674, 152002334593);
    FracStep(1317548295960, 953674, 152002334593, 1735933512187, 476837, 152002334593);
  }

  lemma TracePointNine4()
    ensures FracLoop(1735933512187, 476837, 1_000_000_000_000, 152002334593) == FracLoop(1378189388436, 14901, 1_000_000_000_000, 152003079650)
  {
    FracStep(1735933512187, 476837, 152002334593, 1506732579366, 238418, 152002811430);
    FracStep(1506732579366, 238418, 152002811430, 1135121532861, 119209, 152003049848);
    FracStep(1135121532861, 119209, 152003049848, 1288500894364, 59604, 152003049848);
    FracStep(1288500894364, 59604, 152003049848, 1660234554776, 29802, 152003049848);
    FracStep(1660234554776, 29802, 152003049848, 1378189388436, 14901, 152003079650);
  }

  lemma TracePointNine5()
    ensures FracLoop(1378189388436, 14901, 1_000_000_000_000, 152003079650) == FracLoop(1751720911417, 465, 1_000_000_000_000, 152003092687)
  {
    FracStep(1378189388436, 14901, 152003079650, 1899405990397, 7450, 152003079650);
    FracStep(1899405990397, 7450, 152003079650, 1803871558178, 3725, 152003087100);
    FracStep(1803871558178, 3725, 152003087100, 1626976299201, 1862, 152003090825);
    FracStep(1626976299201, 1862, 152003090825, 1323525939080, 931, 152003092687);
    FracStep(1323525939080, 931, 152003092687, 1751720911417, 465, 152003092687);
  }

  lemma TracePointNine6()
    ensures FracLoop(1751720911417, 465, 1_000_000_000_000, 152003092687) == FracLoop(1841311946643, 14, 1_000_000_000_000, 152003093413)
  {
    FracStep(1751720911417, 465, 152003092687, 1534263075747, 232, 152003093152);
    FracStep(1534263075747, 232, 152003093152, 1176981592800, 116, 152003093384);
    FracStep(1176981592800, 116, 152003093384, 1385285669790, 58, 152003093384);
    FracStep(1385285669790, 58, 152003093384, 1919016386925, 29, 152003093384);
    FracStep(1919016386925, 29, 152003093384, 1841311946643, 14, 152003093413);
  }

  lemma TracePointNine7()
    ensures FracLoop(1841311946643, 14, 1_000_000_000_000, 152003093413) == FracLoop(1065658357883, 0, 1_000_000_000_000, 152003093437)
  {
    FracStep(1841311946643, 14, 152003093413, 1695214842425, 7, 152003093427);
    FracStep(1695214842425, 7, 152003093427, 1436876680989, 3, 152003093434);
    FracStep(1436876680989, 3, 152003093434, 1032307298184, 1, 152003093437);
    FracStep(1032307298184, 1, 152003093437, 1065658357883, 0, 152003093437);
  }

  /** The digit loop for 0.9. */
  lemma DigitsPointNine()
    ensures FracLoop(1111111111111, 500000000000, 1_000_000_000_000, 0) == Some(152003093437)
  {
    TracePointNine0();
    TracePointNine1();
    TracePointNine2();
    TracePointNine3();
    TracePointNine4();
    TracePointNine5();
    TracePointNine6();
    TracePointNine7();
    assert FracLoop(1065658357883, 0, 1_000_000_000_000, 152003093437) == Some(152003093437);
  }

  /** The binary logarithm of 0.9. */
  lemma Log2OfPointNine()
    ensures Log2(900000000000) == Returns(Some((152003093437, true)))
  {
    Pow2Examples();
    OneIsPow10();
    assert Magnitude(900000000000, ONE) == 1111111111111;
    assert FloorDiv(1111111111111, ONE) == 1;
    BitLengthUnique(1, 0);
    assert FloorDiv(1111111111111, Pow2(0)) == 1111111111111;
    LogOfMagnitudeParts(1111111111111, ONE, 0, 1111111111111);
    DigitsPointNine();
  }

  lemma TracePoint938590630()
    ensures FracLoop(1065427213992, 500000000000, 1_000_000_000_000, 0) == FracLoop(1899770548361, 15625000000, 1_000_000_000_000, 62500000000)
  {
    FracStep(1065427213992, 500000000000, 0, 1135135148314, 250000000000, 0);
    FracStep(1135135148314, 250000000000, 0, 1288531804937, 125000000000, 0);
    FracStep(1288531804937, 125000000000, 0, 1660314212334, 62500000000, 0);
    FracStep(1660314212334, 62500000000, 0, 1378321641839, 31250000000, 62500000000);
    FracStep(1378321641839, 31250000000, 62500000000, 1899770548361, 15625000000, 62500000000);
  }

  lemma TracePoint938590631()
    ensures FracLoop(1899770548361, 15625000000, 1_000_000_000_000, 62500000000) == FracLoop(1543714367344, 488281250, 1_000_000_000_000, 90820312500)
  {
    FracStep(1899770548361, 15625000000, 62500000000, 1804564068209, 7812500000, 78125000000);
    FracStep(1804564068209, 7812500000, 78125000000, 1628225738135, 3906250000, 85937500000);
    FracStep(1628225738135, 3906250000, 85937500000, 1325559527162, 1953125000, 89843750000);
    FracStep(1325559527162, 1953125000, 89843750000, 1757108060049, 976562500, 89843750000);
    FracStep(1757108060049, 976562500, 89843750000, 1543714367344, 488281250, 90820312500);
  }

  lemma TracePoint938590632()
    ensures FracLoop(1543714367344, 488281250, 1_000_000_000_000, 90820312500) == FracLoop(1031673710061, 15258789, 1_000_000_000_000, 91430664062)
  {
    FracStep(1543714367344, 488281250, 90820312500, 1191527023972, 244140625, 91308593750);
    FracStep(1191527023972, 244140625, 91308593750, 1419736648855, 122070312, 91308593750);
    FracStep(1419736648855, 122070312, 91308593750, 1007826076051, 61035156, 91430664062);
    FracStep(1007826076051, 61035156, 91430664062, 1015713399568, 30517578, 91430664062);
    FracStep(1015713399568, 30517578, 91430664062, 1031673710061, 15258789, 91430664062);
  }

  lemma TracePoint938590633()
    ensures FracLoop(1031673710061, 15258789, 1_000_000_000_000, 91430664062) == FracLoop(1356205935832, 476837, 1_000_000_000_000, 91431617736)
  {
    FracStep(1031673710061, 15258789, 91430664062, 1064350644031, 7629394, 91430664062);
    FracStep(1064350644031, 7629394, 91430664062, 1132842293449, 3814697, 91430664062);
    FracStep(1132842293449, 3814697, 91430664062, 1283331661826, 1907348, 91430664062);
    FracStep(1283331661826, 1907348, 91430664062, 1646940154245, 953674, 91430664062);
    FracStep(1646940154245, 953674, 91430664062, 1356205935832, 476837, 91431617736);
  }

  lemma TracePoint938590634()
    ensures FracLoop(1356205935832, 476837, 1_000_000_000_000, 91431617736) == FracLoop(1047129918241, 14901, 1_000_000_000_000, 91432034967)
  {
    FracStep(1356205935832, 476837, 91431617736, 1839294540385, 238418, 91431617736);
    FracStep(1839294540385, 238418, 91431617736, 1691502203145, 119209, 91431856154);
    FracStep(1691502203145, 119209, 91431856154, 1430589851622, 59604, 91431975363);
    FracStep(1430589851622, 59604, 91431975363, 1023293661781, 29802, 91432034967);
    FracStep(1023293661781, 29802, 91432034967, 1047129918241, 14901, 91432034967);
  }

  lemma TracePoint938590635()
    ensures FracLoop(1047129918241, 14901, 1_000_000_000_000, 91432034967) == FracLoop(1091335276738, 465, 1_000_000_000_000, 91432036829)
  {
    FracStep(1047129918241, 14901, 91432034967, 1096481065675, 7450, 91432034967);
    FracStep(1096481065675, 7450, 91432034967, 1202270727383, 3725, 91432034967);
    FracStep(1202270727383, 3725, 91432034967, 1445454901922, 1862, 91432034967);
    FracStep(1445454901922, 1862, 91432034967, 1044669936745, 931, 91432036829);
    FracStep(1044669936745, 931, 91432036829, 1091335276738, 465, 91432036829);
  }

  lemma TracePoint938590636()
    ensures FracLoop(1091335276738, 465, 1_000_000_000_000, 91432036829) == FracLoop(1024571371576, 14, 1_000_000_000_000, 91432036945)
  {
    FracStep(1091335276738, 465, 91432036829, 1191012686252, 232, 91432036829);
    FracStep(1191012686252, 232, 91432036829, 1418511218813, 116, 91432036829);
    FracStep(1418511218813, 116, 91432036829, 1006087038949, 58, 91432036945);
    FracStep(1006087038949, 58, 91432036945, 1012211129941, 29, 91432036945);
    FracStep(1012211129941, 29, 91432036945, 1024571371576, 14, 91432036945);
  }

  lemma TracePoint938590637()
    ensures FracLoop(1024571371576, 14, 1_000_000_000_000, 91432036945) == FracLoop(1474604203154, 0, 1_000_000_000_000, 91432036945)
  {
    FracStep(1024571371576, 14, 91432036945, 1049746495453, 7, 91432036945);
    FracStep(1049746495453, 7, 91432036945, 1101967704715, 3, 91432036945);
    FracStep(1101967704715, 3, 91432036945, 1214332822234, 1, 91432036945);
    FracStep(1214332822234, 1, 91432036945, 1474604203154, 0, 91432036945);
  }

  /** The digit loop for 0.93859063. */
  lemma DigitsPoint93859063()
    ensures FracLoop(1065427213992, 500000000000, 1_000_000_000_000, 0) == Some(91432036945)
  {
    TracePoint938590630();
    TracePoint938590631();
    TracePoint938590632();
    TracePoint938590633();
    TracePoint938590634();
    TracePoint938590635();
    TracePoint938590636();
    TracePoint938590637();
    assert FracLoop(1474604203154, 0, 1_000_000_000_000, 91432036945) == Some(91432036945);
  }

  /** The binary logarithm of 0.93859063. */
  lemma Log2OfPoint93859063()
    ensures Log2(938590630000) == Returns(Some((91432036945, true)))
  {
    Pow2Examples();
    OneIsPow10();
    assert Magnitude(938590630000, ONE) == 1065427213992;
    assert FloorDiv(1065427213992, ONE) == 1;
    BitLengthUnique(1, 0);
    assert FloorDiv(1065427213992, Pow2(0)) == 1065427213992;
    LogOfMagnitudeParts(1065427213992, ONE, 0, 1065427213992);
    DigitsPoint93859063();
  }

  lemma TraceTen0()
    ensures FracLoop(1250000000000, 500000000000, 1_000_000_000_000, 3000000000000) == FracLoop(1232595164405, 15625000000, 1_000_000_000_000, 3312500000000)
  {
    FracStep(1250000000000, 500000000000, 3000000000000, 1562500000000, 250000000000, 3000000000000);
    FracStep(1562500000000, 250000000000, 3000000000000, 1220703125000, 125000000000, 3250000000000);
    FracStep(1220703125000, 125000000000, 3250000000000, 1490116119384, 62500000000, 3250000000000);
    FracStep(1490116119384, 62500000000, 3250000000000, 1110223024624, 31250000000, 3312500000000);
    FracStep(1110223024624, 31250000000, 3312500000000, 1232595164405, 15625000000, 3312500000000);
  }

  lemma TraceTen1()
    ensures FracLoop(1232595164405, 15625000000, 1_000_000_000_000, 3312500000000) == FracLoop(1573927584200, 488281250, 1_000_000_000_000, 3321289062500)
  {
    FracStep(1232595164405, 15625000000, 3312500000000, 1519290839314, 7812500000, 3312500000000);
    FracStep(1519290839314, 7812500000, 3312500000000, 1154122327211, 3906250000, 3320312500000);
    FracStep(1154122327211, 3906250000, 3320312500000, 1331998346166, 1953125000, 3320312500000);
    FracStep(1331998346166, 1953125000, 3320312500000, 1774219594188, 976562500, 3320312500000);
    FracStep(1774219594188, 976562500, 3320312500000, 1573927584200, 488281250, 3321289062500);
  }

  lemma TraceTen2()
    ensures FracLoop(1573927584200, 488281250, 1_000_000_000_000, 3321289062500) == FracLoop(1918279930282, 15258789, 1_000_000_000_000, 3321899414062)
  {
    FracStep(1573927584200, 488281250, 3321289062500, 1238624020152, 244140625, 3321777343750);
    FracStep(1238624020152, 244140625, 3321777343750, 1534189463297, 122070312, 3321777343750);
    FracStep(1534189463297, 122070312, 3321777343750, 1176868654645, 61035156, 3321899414062);
    FracStep(1176868654645, 61035156, 3321899414062, 1385019830285, 30517578, 3321899414062);
    FracStep(1385019830285, 30517578, 3321899414062, 1918279930282, 15258789, 3321899414062);
  }

  lemma TraceTen3()
    ensures FracLoop(1918279930282, 15258789, 1_000_000_000_000, 3321899414062) == FracLoop(1052649015355, 476837, 1_000_000_000_000, 3321928024290)
  {
    FracStep(1918279930282, 15258789, 3321899414062, 1839898945461, 7629394, 3321914672851);
    FracStep(1839898945461, 7629394, 3321914672851, 1692614064754, 3814697, 3321922302245);
    FracStep(1692614064754, 3814697, 3321922302245, 1432471186101, 1907348, 3321926116942);
    FracStep(1432471186101, 1907348, 3321926116942, 1025986849504, 953674, 3321928024290);
    FracStep(1025986849504, 953674, 3321928024290, 1052649015355, 476837, 3321928024290);
  }

  lemma TraceTen4()
    ensures FracLoop(1052649015355, 476837, 1_000_000_000_000, 3321928024290) == FracLoop(1291263403520, 14901, 1_000_000_000_000, 3321928083894)
  {
    FracStep(1052649015355, 476837, 3321928024290, 1108069949527, 238418, 3321928024290);
    FracStep(1108069949527, 238418, 3321928024290, 1227819013044, 119209, 3321928024290);
    FracStep(1227819013044, 119209, 3321928024290, 1507539528792, 59604, 3321928024290);
    FracStep(1507539528792, 59604, 3321928024290, 1136337715435, 29802, 3321928083894);
    FracStep(1136337715435, 29802, 3321928083894, 1291263403520, 14901, 3321928083894);
  }

  lemma TraceTen5()
    ensures FracLoop(1291263403520, 14901, 1_000_000_000_000, 3321928083894) == FracLoop(1742388559296, 465, 1_000_000_000_000, 3321928094137)
  {
    FracStep(1291263403520, 14901, 3321928083894, 1667361177270, 7450, 3321928083894);
    FracStep(1667361177270, 7450, 3321928083894, 1390046647733, 3725, 3321928091344);
    FracStep(1390046647733, 3725, 3321928091344, 1932229682873, 1862, 3321928091344);
    FracStep(1932229682873, 1862, 3321928091344, 1866755773687, 931, 3321928093206);
    FracStep(1866755773687, 931, 3321928093206, 1742388559296, 465, 3321928094137);
  }

  lemma TraceTen6()
    ensures FracLoop(1742388559296, 465, 1_000_000_000_000, 3321928094137) == FracLoop(1551995486614, 14, 1_000_000_000_000, 3321928094863)
  {
    FracStep(1742388559296, 465, 3321928094137, 1517958945782, 232, 3321928094602);
    FracStep(1517958945782, 232, 3321928094602, 1152099680539, 116, 3321928094834);
    FracStep(1152099680539, 116, 3321928094834, 1327333673898, 58, 3321928094834);
    FracStep(1327333673898, 58, 3321928094834, 1761814681863, 29, 3321928094834);
    FracStep(1761814681863, 29, 3321928094834, 1551995486614, 14, 3321928094863);
  }

  lemma TraceTen7()
    ensures FracLoop(1551995486614, 14, 1_000_000_000_000, 3321928094863) == FracLoop(1106489523978, 0, 1_000_000_000_000, 3321928094880)
  {
    FracStep(1551995486614, 14, 3321928094863, 1204344995235, 7, 3321928094877);
    FracStep(1204344995235, 7, 3321928094877, 1450446867547, 3, 3321928094877);
    FracStep(1450446867547, 3, 3321928094877, 1051898057788, 1, 3321928094880);
    FracStep(1051898057788, 1, 3321928094880, 1106489523978, 0, 3321928094880);
  }

  /** The digit loop for 10. */
  lemma DigitsTen()
    ensures FracLoop(1250000000000, 500000000000, 1_000_000_000_000, 3000000000000) == Some(3321928094880)
  {
    TraceTen0();
    TraceTen1();
    TraceTen2();
    TraceTen3();
    TraceTen4();
    TraceTen5();
    TraceTen6();
    TraceTen7();
    assert FracLoop(1106489523978, 0, 1_000_000_000_000, 3321928094880) == Some(3321928094880);
  }

  /** The binary logarithm of 10. */
  lemma Log2OfTen()
    ensures Log2(10000000000000) == Returns(Some((3321928094880, false)))
  {
    Pow2Examples();
    OneIsPow10();
    assert Magnitude(10000000000000, ONE) == 10000000000000;
    assert FloorDiv(10000000000000, ONE) == 10;
    BitLengthUnique(10, 3);
    assert FloorDiv(10000000000000, Pow2(3)) == 1250000000000;
    LogOfMagnitudeParts(10000000000000, ONE, 3, 1250000000000);
    DigitsTen();
  }

  /** The binary logarithm of 0.1. */
  lemma Log2OfPointOne()
    ensures Log2(100000000000) == Returns(Some((3321928094880, true)))
  {
    Pow2Examples();
    OneIsPow10();
    assert Magnitude(100000000000, ONE) == 10000000000000;
    assert FloorDiv(10000000000000, ONE) == 10;
    BitLengthUnique(10, 3);
    assert FloorDiv(10000000000000, Pow2(3)) == 1250000000000;
    LogOfMagnitudeParts(10000000000000, ONE, 3, 1250000000000);
    DigitsTen();
  }

  /** ln(2.25) = 0.810930216211, as a `FixedPoint` and as a raw u128. */
  lemma LnOf2_25()
    ensures Ln(2250000000000) == Returns(Some((810930216211, false)))
    ensures RawLn(2250000000000) == Returns(Some(810930216211))
  {
    Log2OfTwo25();
    RawLnIsMagnitude(2250000000000);
  }

  /** ln(0.810930216211) = -0.209573275158. */
  lemma LnOf0_81()
    ensures Ln(810930216211) == Returns(Some((209573275158, true)))
    ensures RawLn(810930216211) == Returns(Some(209573275158))
  {
    Log2OfPointEight();
    RawLnIsMagnitude(810930216211);
  }

  /** ln(0.000000000001) = -27.631021115941. */
  lemma LnOfTiny()
    ensures Ln(1) == Returns(Some((27631021115941, true)))
    ensures RawLn(1) == Returns(Some(27631021115941))
  {
    Log2OfTiny();
    RawLnIsMagnitude(1);
  }

  /** log10(1.1) = 0.041392685156. */
  lemma Log10Of1_1()
    ensures Log10(1100000000000) == Returns(Some((41392685156, false)))
  {
    assert TableExponent(1100000000000) == 0;
    Log2OfOnePointOne();
  }

  /** log10(18446744.073709551615) = 7.265919722493. */
  lemma Log10OfU64Max()
    ensures Log10(18446744073709551615) == Returns(Some((7265919722493, false)))
  {
    assert TableExponent(18446744073709551615) == 0;
    Log2OfU64Max();
  }
}
