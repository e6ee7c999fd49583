/** The constants of MD5: section 3.4 of RFC 1321 takes them from the sine function. */
module SineTable {
  import opened Md5Model

  // Sines and cosines in fixed point, with sixteen digits behind the point.

  /** The power series of the sine of 1 from the term 1/n! on, for odd n, and of the cosine for even n. */
  function Series(term: nat, n: nat): int
    decreases term
  {
    var d := (n + 1) * (n + 2);
    assert d >= 2;
    if term == 0 then 0 else term - Series(term / d, n + 2)
  }

  lemma NoTerms(n: nat)
    ensures Series(0, n) == 0
  {
  }

  lemma MoreTerms(term: nat, n: nat, next: nat, rest: int)
    requires term > 0 && next == term / ((n + 1) * (n + 2)) && Series(next, n + 2) == rest
    ensures Series(term, n) == term - rest
  {
  }

  /** The sine and the cosine of 1 radian. */
  lemma OneRadian()
    ensures Series(1_0000_0000_0000_0000, 1) == 8414_7098_4807_8966
    ensures Series(1_0000_0000_0000_0000, 0) == 5403_0230_5868_1396
  {
    hide Series;
    NoTerms(19);
    MoreTerms(28, 17, 0, 0);
    MoreTerms(7647, 15, 28, 28);
    MoreTerms(160_5904, 13, 7647, 7619);
    MoreTerms(2_5052_1083, 11, 160_5904, 159_8285);
    MoreTerms(275_5731_9223, 9, 2_5052_1083, 2_4892_2798);
    MoreTerms(1_9841_2698_4126, 7, 275_5731_9223, 273_0839_6425);
    MoreTerms(83_3333_3333_3333, 5, 1_9841_2698_4126, 1_9568_1858_7701);
    MoreTerms(1666_6666_6666_6666, 3, 83_3333_3333_3333, 81_3765_1474_5632);
    MoreTerms(1_0000_0000_0000_0000, 1, 1666_6666_6666_6666, 1585_2901_5192_1034);
    NoTerms(20);
    MoreTerms(1, 18, 0, 0);
    MoreTerms(477, 16, 1, 1);
    MoreTerms(11_4707, 14, 477, 476);
    MoreTerms(2087_6756, 12, 11_4707, 11_4231);
    MoreTerms(27_5573_1922, 10, 2087_6756, 2076_2525);
    MoreTerms(2480_1587_3015, 8, 27_5573_1922, 27_3496_9397);
    MoreTerms(13_8888_8888_8888, 6, 2480_1587_3015, 2452_8090_3618);
    MoreTerms(416_6666_6666_6666, 4, 13_8888_8888_8888, 13_6436_0798_5270);
    MoreTerms(5000_0000_0000_0000, 2, 416_6666_6666_6666, 403_0230_5868_1396);
    MoreTerms(1_0000_0000_0000_0000, 0, 5000_0000_0000_0000, 4596_9769_4131_8604);
  }

  /** The addition theorems: one radian more. */
  function More(p: (int, int)): (int, int) {
    ((p.0 * 5403_0230_5868_1396 + p.1 * 8414_7098_4807_8966) / 1_0000_0000_0000_0000,
     (p.1 * 5403_0230_5868_1396 - p.0 * 8414_7098_4807_8966) / 1_0000_0000_0000_0000)
  }

  /** The sine and the cosine of n radians. */
  function Turn(n: nat): (int, int) {
    if n == 0 then (0, 1_0000_0000_0000_0000) else More(Turn(n - 1))
  }

  /** Entry i of the table is the integer part of 4294967296 times the absolute sine of i + 1 radians. */
  predicate IsSine(i: nat, sine: int) {
    Sine(i) == (if sine < 0 then -sine else sine) * 4294967296 / 1_0000_0000_0000_0000
  }

  predicate Entry(i: nat) {
    IsSine(i, Turn(i + 1).0)
  }

  lemma Next(i: nat, s: int, c: int, sine: int, cosine: int)
    requires Turn(i) == (s, c)
    requires sine == (s * 5403_0230_5868_1396 + c * 8414_7098_4807_8966) / 1_0000_0000_0000_0000
    requires cosine == (c * 5403_0230_5868_1396 - s * 8414_7098_4807_8966) / 1_0000_0000_0000_0000
    requires Sine(i) == (if sine < 0 then -sine else sine) * 4294967296 / 1_0000_0000_0000_0000
    ensures Turn(i + 1) == (sine, cosine) && Entry(i)
  {
    hide More, IsSine, Sine;
    MoreIs(s, c, sine, cosine);
    SineFits(i, sine);
  }

  lemma MoreIs(s: int, c: int, sine: int, cosine: int)
    requires sine == (s * 5403_0230_5868_1396 + c * 8414_7098_4807_8966) / 1_0000_0000_0000_0000
    requires cosine == (c * 5403_0230_5868_1396 - s * 8414_7098_4807_8966) / 1_0000_0000_0000_0000
    ensures More((s, c)) == (sine, cosine)
  {
  }

  lemma SineFits(i: nat, sine: int)
    requires Sine(i) == (if sine < 0 then -sine else sine) * 4294967296 / 1_0000_0000_0000_0000
    ensures IsSine(i, sine)
  {
    hide Sine;
  }

  lemma Sines0()
    ensures Turn(8) == (9893_5824_6623_3816, -1455_0003_3808_6147)
    ensures forall i :: 0 <= i < 8 ==> Entry(i)
  {
    hide Turn, Entry;
    Zero();
    Next(0, 0, 1_0000_0000_0000_0000, 8414_7098_4807_8966, 5403_0230_5868_1396);
    Next(1, 8414_7098_4807_8966, 5403_0230_5868_1396, 9092_9742_6825_6815, -4161_4683_6547_1427);
    Next(2, 9092_9742_6825_6815, -4161_4683_6547_1427, 1411_2000_8059_8667, -9899_9249_6600_4455);
    Next(3, 1411_2000_8059_8667, -9899_9249_6600_4455, -7568_0249_5307_9287, -6536_4362_0863_6114);
    Next(4, -7568_0249_5307_9287, -6536_4362_0863_6114, -9589_2427_4663_1383, 2836_6218_5463_2270);
    Next(5, -9589_2427_4663_1383, 2836_6218_5463_2270, -2794_1549_8198_9251, 9601_7028_6650_3663);
    Next(6, -2794_1549_8198_9251, 9601_7028_6650_3663, 6569_8659_8718_7898, 7539_0225_4343_3040);
    Next(7, 6569_8659_8718_7898, 7539_0225_4343_3040, 9893_5824_6623_3816, -1455_0003_3808_6147);
  }

  lemma Sines8()
    requires Turn(8) == (9893_5824_6623_3816, -1455_0003_3808_6147)
    ensures Turn(16) == (-2879_0331_6665_0678, -9576_5948_0323_3841)
    ensures forall i :: 8 <= i < 16 ==> Entry(i)
  {
    hide Turn, Entry;
    Next(8, 9893_5824_6623_3816, -1455_0003_3808_6147, 4121_1848_5241_7553, -9111_3026_1884_6776);
    Next(9, 4121_1848_5241_7553, -9111_3026_1884_6776, -5440_2111_0889_3712, -8390_7152_9076_4517);
    Next(10, -5440_2111_0889_3712, -8390_7152_9076_4517, -9999_9020_6550_7036, 44_2569_7988_0525);
    Next(11, -9999_9020_6550_7036, 44_2569_7988_0525, -5365_7291_8000_4335, 8438_5395_8732_4932);
    Next(12, -5365_7291_8000_4335, 8438_5395_8732_4932, 4201_6703_6826_6427, 9074_4678_1450_1955);
    Next(13, 4201_6703_6826_6427, 9074_4678_1450_1955, 9906_0735_5694_8707, 1367_3721_8207_8315);
    Next(14, 9906_0735_5694_8707, 1367_3721_8207_8315, 6502_8784_0157_1152, -7596_8791_2858_8229);
    Next(15, 6502_8784_0157_1152, -7596_8791_2858_8229, -2879_0331_6665_0678, -9576_5948_0323_3841);
  }

  lemma Sines16()
    requires Turn(16) == (-2879_0331_6665_0678, -9576_5948_0323_3841)
    ensures Turn(24) == (-9055_7836_2006_6226, 4241_7900_7337_0007)
    ensures forall i :: 16 <= i < 24 ==> Entry(i)
  {
    hide Turn, Entry;
    Next(16, -2879_0331_6665_0678, -9576_5948_0323_3841, -9613_9749_1879_5579, -2751_6333_8051_5944);
    Next(17, -9613_9749_1879_5579, -2751_6333_8051_5944, -7509_8724_6771_6745, 6603_1670_8244_0825);
    Next(18, -7509_8724_6771_6745, 6603_1670_8244_0825, 1498_7720_9662_9553, 9887_0461_8186_6691);
    Next(19, 1498_7720_9662_9553, 9887_0461_8186_6691, 9129_4525_0727_6292, 4080_8206_1813_3892);
    Next(20, 9129_4525_0727_6292, 4080_8206_1813_3892, 8366_5563_8536_0544, -5477_2926_0224_2714);
    Next(21, 8366_5563_8536_0544, -5477_2926_0224_2714, -88_5130_9290_4075, -9999_6082_6394_6374);
    Next(22, -88_5130_9290_4075, -9999_6082_6394_6374, -8462_2040_4175_1730, -5328_3302_0333_3946);
    Next(23, -8462_2040_4175_1730, -5328_3302_0333_3946, -9055_7836_2006_6226, 4241_7900_7337_0007);
  }

  lemma Sines24()
    requires Turn(24) == (-9055_7836_2006_6226, 4241_7900_7337_0007)
    ensures Turn(32) == (5514_2668_1241_6951, 8342_2336_0506_5079)
    ensures forall i :: 24 <= i < 32 ==> Entry(i)
  {
    hide Turn, Entry;
    Next(24, -9055_7836_2006_6226, 4241_7900_7337_0007, -1323_5175_0097_7691, 9912_0281_1863_4745);
    Next(25, -1323_5175_0097_7691, 9912_0281_1863_4745, 7625_5845_0479_6057, 6469_1932_2328_6374);
    Next(26, 7625_5845_0479_6057, 6469_1932_2328_6374, 9563_7592_8404_5021, -2921_3880_8733_8405);
    Next(27, 9563_7592_8404_5021, -2921_3880_8733_8405, 2709_0578_8307_8647, -9626_0586_6313_5683);
    Next(28, 2709_0578_8307_8647, -9626_0586_6313_5683, -6636_3388_4212_9714, -7480_5752_9688_9976);
    Next(29, -6636_3388_4212_9714, -7480_5752_9688_9976, -9880_3162_4092_8616, 1542_5144_9887_5889);
    Next(30, -9880_3162_4092_8616, 1542_5144_9887_5889, -4040_3764_5323_0607, 9147_4235_7804_5338);
    Next(31, -4040_3764_5323_0607, 9147_4235_7804_5338, 5514_2668_1241_6951, 8342_2336_0506_5079);
  }

  lemma Sines32()
    requires Turn(32) == (5514_2668_1241_6951, 8342_2336_0506_5079)
    ensures Turn(40) == (7451_1316_0479_3449, -6669_3806_1652_2671)
    ensures forall i :: 32 <= i < 40 ==> Entry(i)
  {
    hide Turn, Entry;
    Next(32, 5514_2668_1241_6951, 8342_2336_0506_5079, 9999_1186_0107_2676, -132_7674_7223_0648);
    Next(33, 9999_1186_0107_2676, -132_7674_7223_0648, 5290_8268_6120_0194, -8485_7027_4784_6086);
    Next(34, 5290_8268_6120_0194, -8485_7027_4784_6086, -4281_8266_9496_1565, -9036_9220_5091_5049);
    Next(35, -4281_8266_9496_1565, -9036_9220_5091_5049, -9917_7885_3443_1172, -1279_6368_9627_3990);
    Next(36, -9917_7885_3443_1172, -1279_6368_9627_3990, -6435_3813_3356_9954, 7654_1405_1945_3477);
    Next(37, -6435_3813_3356_9954, 7654_1405_1945_3477, 2963_6857_8709_3913, 9550_7364_4047_2937);
    Next(38, 2963_6857_8709_3913, 9550_7364_4047_2937, 9637_9538_6284_0900, 2666_4293_2359_9314);
    Next(39, 9637_9538_6284_0900, 2666_4293_2359_9314, 7451_1316_0479_3449, -6669_3806_1652_2671);
  }

  lemma Sines40()
    requires Turn(40) == (7451_1316_0479_3449, -6669_3806_1652_2671)
    ensures Turn(48) == (-7682_5466_1323_6723, -6401_4433_9469_1944)
    ensures forall i :: 40 <= i < 48 ==> Entry(i)
  {
    hide Turn, Entry;
    Next(40, 7451_1316_0479_3449, -6669_3806_1652_2671, -1586_2266_8804_7157, -9873_3927_7523_8261);
    Next(41, -1586_2266_8804_7157, -9873_3927_7523_8261, -9165_2154_7915_6372, -3999_8531_4988_3454);
    Next(42, -9165_2154_7915_6372, -3999_8531_4988_3454, -8317_7474_2628_5952, 5551_1330_1520_6318);
    Next(43, -8317_7474_2628_5952, 5551_1330_1520_6318, 177_0192_5105_4205, 9998_4330_8647_6919);
    Next(44, 177_0192_5105_4205, 9998_4330_8647_6919, 8509_0352_4534_1228, 5253_2198_8817_7241);
    Next(45, 8509_0352_4534_1228, 5253_2198_8817_7241, 9017_8834_7648_8067, -4321_7794_4884_7852);
    Next(46, 9017_8834_7648_8067, -4321_7794_4884_7852, 1235_7312_2745_2167, -9923_3546_9150_9304);
    Next(47, 1235_7312_2745_2167, -9923_3546_9150_9304, -7682_5466_1323_6723, -6401_4433_9469_1944);
  }

  lemma Sines48()
    requires Turn(48) == (-7682_5466_1323_6723, -6401_4433_9469_1944)
    ensures Turn(56) == (-5215_5100_2086_9049, 8532_2010_7722_5895)
    ensures forall i :: 48 <= i < 56 ==> Entry(i)
  {
    hide Turn, Entry;
    Next(48, -7682_5466_1323_6723, -6401_4433_9469_1944, -9537_5265_2759_4703, 3005_9254_3743_6447);
    Next(49, -9537_5265_2759_4703, 3005_9254_3743_6447, -2623_7485_3703_9215, 9649_6602_8492_1161);
    Next(50, -2623_7485_3703_9215, 9649_6602_8492_1161, 6702_2917_5843_3811, 7421_5419_6813_7778);
    Next(51, 6702_2917_5843_3811, 7421_5419_6813_7778, 9866_2759_2040_4847, -1629_9078_0795_7136);
    Next(52, 9866_2759_2040_4847, -1629_9078_0795_7136, 3959_2515_0181_8268, -9182_8278_6212_1229);
    Next(53, 3959_2515_0181_8268, -9182_8278_6212_1229, -5587_8904_8851_6238, -8293_0983_2863_1461);
    Next(54, -5587_8904_8851_6238, -8293_0983_2863_1461, -9997_5517_3358_6206, 221_2675_6261_9644);
    Next(55, -9997_5517_3358_6206, 221_2675_6261_9644, -5215_5100_2086_9049, 8532_2010_7722_5895);
  }

  lemma Sines56()
    requires Turn(56) == (-5215_5100_2086_9049, 8532_2010_7722_5895)
    ensures Turn(64) == (9200_2603_8196_7954, 3918_5723_0429_5412)
    ensures forall i :: 56 <= i < 64 ==> Entry(i)
  {
    hide Turn, Entry;
    Next(56, -5215_5100_2086_9049, 8532_2010_7722_5895, 4361_6475_5247_8334, 8998_6682_6969_1907);
    Next(57, 4361_6475_5247_8334, 8998_6682_6969_1907, 9928_7264_8084_5391, 1191_8013_5448_8103);
    Next(58, 9928_7264_8084_5391, 1191_8013_5448_8103, 6367_3800_7139_1312, -7710_8022_2975_8519);
    Next(59, 6367_3800_7139_1312, -7710_8022_2975_8519, -3048_1062_1102_2261, -9524_1298_0415_1543);
    Next(60, -3048_1062_1102_2261, -9524_1298_0415_1543, -9661_1777_0008_3964, -2581_0163_5938_2584);
    Next(61, -9661_1777_0008_3964, -2581_0163_5938_2584, -7391_8069_6649_2171, 6735_0716_2323_5941);
    Next(62, -7391_8069_6649_2171, 6735_0716_2323_5941, 1673_5570_0302_8167, 9858_9658_1582_5490);
    Next(63, 1673_5570_0302_8167, 9858_9658_1582_5490, 9200_2603_8196_7954, 3918_5723_0429_5412);
  }

  lemma Zero()
    ensures Turn(0) == (0, 1_0000_0000_0000_0000)
  {
  }

  lemma SineIsSine(i: nat)
    requires i < 64
    ensures Entry(i)
  {
    hide Turn, Entry;
    Sines0();
    Sines8();
    Sines16();
    Sines24();
    Sines32();
    Sines40();
    Sines48();
    Sines56();
  }
}
