/** That the late FCS of frames with up to eight digipeaters passes after two flips at no detectable length (protocol/aprs.py). */
module LateFcsLengths {
  import opened Crc
  import opened CrcDetection
  import opened CrcOrder
  import opened LateFcs

  // ----- Multiples of x + 1: every one but zero is a power of x times x + 1 -----

  lemma ThreeShifted(k: nat)
    ensures Shifts(3, k) == Xor(Power(k), Shift(Power(k)))
  {
    ThreeIs();
    hide Xor, Shift;
    ShiftsLinear(1, 2, k);
    PowerNext(k);
    assert Shifts(1, k + 1) == Shifts(Shift(1), k);
  }

  lemma ThreeIs()
    ensures Xor(1, 2) == 3 && Shift(1) == 2
  {}

  lemma FixedPoint(y: bv16)
    requires Shift(y) == y
    ensures y == 0 || Parity(y)
  {}

  lemma ParityOfXorOne(p: bv16)
    ensures Parity(Xor(p, 1)) == !Parity(p) && Parity(1)
  {}

  lemma {:induction false} ParityOfShifts(r: bv16, n: nat)
    ensures Parity(Shifts(r, n)) == Parity(r)
    decreases n
  {
    hide Shift, Parity;
    if n > 0 {
      ParityOfShift(r);
      ParityOfShifts(Shift(r), n - 1);
    }
  }

  lemma ThreeReturns(d: nat)
    requires Shifts(3, d) == 3
    ensures d % 32767 == 0
  {
    var y := Xor(Power(d), 1);
    ThreeShifted(d);
    ThreeIs();
    XorOfSums(Power(d), 1, Shift(Power(d)), 2);
    ShiftLinear(Power(d), 1);
    XorLaws(3, 3, 0);
    XorLaws(y, Shift(y), 0);
    ParityOfShifts(1, d);
    ParityOfXorOne(Power(d));
    XorLaws(Power(d), 1, 0);
    hide Xor, Shift, Shifts, Parity;
    FixedPoint(y);
    PeriodIff(d);
  }

  lemma {:induction false} SameLogarithm(x: nat, y: nat)
    requires Shifts(3, x) == Shifts(3, y)
    ensures x % 32767 == y % 32767
    decreases x > y
  {
    if x > y {
      SameLogarithm(y, x);
    } else {
      ShiftsAdd(3, y - x, x);
      hide Shifts;
      ShiftsInjective(Shifts(3, y - x), 3, x);
      ThreeReturns(y - x);
    }
  }

  // ----- The logarithms, by squaring -----

  lemma ThreeTo(k: nat, p: bv16, v: bv16)
    requires Power(k) == p && Xor(p, Shift(p)) == v
    ensures Shifts(3, k) == v
  {
    ThreeShifted(k);
    hide Shifts;
  }

  lemma LogOfTarget()
    ensures Shifts(3, 29744) == 0x82FF
  {
    assert Power(7) == 0x0080;
    hide Power, Shifts;
    PowerEven(7, 0x0080, 0x4000);
    PowerOdd(14, 0x4000, 0x06E6);
    PowerEven(29, 0x06E6, 0x06A1);
    PowerEven(58, 0x06A1, 0x16B4);
    PowerEven(116, 0x16B4, 0x2494);
    PowerEven(232, 0x2494, 0x9FE5);
    PowerOdd(464, 0x9FE5, 0xC178);
    PowerOdd(929, 0xC178, 0x17BC);
    PowerEven(1859, 0x17BC, 0x34F5);
    PowerEven(3718, 0x34F5, 0xB8D5);
    PowerEven(7436, 0xB8D5, 0xEBEC);
    PowerEven(14872, 0xEBEC, 0x8E4A);
    ThreeTo(29744, 0x8E4A, 0x82FF);
  }

  lemma LogAt14()
    ensures Shifts(3, 18843) == 0x7A86
  {
    assert Power(9) == 0x0200;
    hide Power, Shifts;
    PowerEven(9, 0x0200, 0x4084);
    PowerEven(18, 0x4084, 0x4363);
    PowerOdd(36, 0x4363, 0x8FA6);
    PowerOdd(73, 0x8FA6, 0x8710);
    PowerEven(147, 0x8710, 0x4E58);
    PowerEven(294, 0x4E58, 0x0842);
    PowerOdd(588, 0x0842, 0xB180);
    PowerOdd(1177, 0xB180, 0x5411);
    PowerEven(2355, 0x5411, 0x2372);
    PowerOdd(4710, 0x2372, 0x02EB);
    PowerOdd(9421, 0x02EB, 0x2982);
    ThreeTo(18843, 0x2982, 0x7A86);
  }

  lemma LogAt21()
    ensures Shifts(3, 28898) == 0x0517
  {
    assert Power(7) == 0x0080;
    hide Power, Shifts;
    PowerEven(7, 0x0080, 0x4000);
    PowerEven(14, 0x4000, 0x0373);
    PowerEven(28, 0x0373, 0x45A0);
    PowerEven(56, 0x45A0, 0x4563);
    PowerOdd(112, 0x4563, 0x2ACC);
    PowerOdd(225, 0x2ACC, 0x3989);
    PowerOdd(451, 0x3989, 0xDE83);
    PowerEven(903, 0xDE83, 0x67FA);
    PowerEven(1806, 0x67FA, 0xD867);
    PowerEven(3612, 0xD867, 0x615F);
    PowerOdd(7224, 0x615F, 0x8DA7);
    PowerEven(14449, 0x8DA7, 0x030D);
    ThreeTo(28898, 0x030D, 0x0517);
  }

  lemma LogAt28()
    ensures Shifts(3, 26199) == 0x809B
  {
    assert Power(12) == 0x1000;
    hide Power, Shifts;
    PowerOdd(12, 0x1000, 0x6662);
    PowerOdd(25, 0x6662, 0x022D);
    PowerEven(51, 0x022D, 0x44D5);
    PowerEven(102, 0x44D5, 0x4053);
    PowerOdd(204, 0x4053, 0x24EC);
    PowerEven(409, 0x24EC, 0x8AA5);
    PowerOdd(818, 0x8AA5, 0x833A);
    PowerEven(1637, 0x833A, 0x582D);
    PowerOdd(3274, 0x582D, 0xF9AE);
    PowerOdd(6549, 0xF9AE, 0xCBD7);
    PowerOdd(13099, 0xCBD7, 0x8F96);
    ThreeTo(26199, 0x8F96, 0x809B);
  }

  lemma LogAt35()
    ensures Shifts(3, 8135) == 0x8D06
  {
    assert Power(7) == 0x0080;
    hide Power, Shifts;
    PowerOdd(7, 0x0080, 0x8000);
    PowerOdd(15, 0x8000, 0x1B98);
    PowerOdd(31, 0x1B98, 0xD420);
    PowerOdd(63, 0xD420, 0x577E);
    PowerEven(127, 0x577E, 0x6782);
    PowerEven(254, 0x6782, 0xCD27);
    PowerEven(508, 0xCD27, 0x407E);
    PowerOdd(1016, 0x407E, 0x2C4E);
    PowerOdd(2033, 0x2C4E, 0x1CEB);
    PowerOdd(4067, 0x1CEB, 0x7B02);
    ThreeTo(8135, 0x7B02, 0x8D06);
  }

  lemma LogAt42()
    ensures Shifts(3, 15046) == 0xE7EB
  {
    assert Power(7) == 0x0080;
    hide Power, Shifts;
    PowerEven(7, 0x0080, 0x4000);
    PowerOdd(14, 0x4000, 0x06E6);
    PowerEven(29, 0x06E6, 0x06A1);
    PowerOdd(58, 0x06A1, 0x2D68);
    PowerOdd(117, 0x2D68, 0x3481);
    PowerEven(235, 0x3481, 0xADC5);
    PowerEven(470, 0xADC5, 0xDBCD);
    PowerEven(940, 0xDBCD, 0x75BE);
    PowerOdd(1880, 0x75BE, 0x67A5);
    PowerOdd(3761, 0x67A5, 0x8245);
    PowerEven(7523, 0x8245, 0x5D59);
    ThreeTo(15046, 0x5D59, 0xE7EB);
  }

  lemma LogAt49()
    ensures Shifts(3, 20366) == 0x62C4
  {
    assert Power(9) == 0x0200;
    hide Power, Shifts;
    PowerOdd(9, 0x0200, 0x8108);
    PowerOdd(19, 0x8108, 0x3B5A);
    PowerOdd(39, 0x3B5A, 0xFD81);
    PowerOdd(79, 0xFD81, 0xE71F);
    PowerEven(159, 0xE71F, 0x81BA);
    PowerEven(318, 0x81BA, 0x58A9);
    PowerEven(636, 0x58A9, 0x3CC7);
    PowerOdd(1272, 0x3CC7, 0xFA0B);
    PowerOdd(2545, 0xFA0B, 0xE2BF);
    PowerOdd(5091, 0xE2BF, 0x9F75);
    PowerEven(10183, 0x9F75, 0x21BC);
    ThreeTo(20366, 0x21BC, 0x62C4);
  }

  lemma LogAt56()
    ensures Shifts(3, 23459) == 0x4091
  {
    assert Power(11) == 0x0800;
    hide Power, Shifts;
    PowerEven(11, 0x0800, 0x48C4);
    PowerOdd(22, 0x48C4, 0x374E);
    PowerOdd(45, 0x374E, 0x4A4B);
    PowerOdd(91, 0x4A4B, 0x36EC);
    PowerEven(183, 0x36EC, 0xF910);
    PowerOdd(366, 0xF910, 0x417F);
    PowerEven(733, 0x417F, 0x0607);
    PowerEven(1466, 0x0607, 0x52A0);
    PowerEven(2932, 0x52A0, 0x34C6);
    PowerOdd(5864, 0x34C6, 0x6B81);
    PowerOdd(11729, 0x6B81, 0x3F8F);
    ThreeTo(23459, 0x3F8F, 0x4091);
  }

  lemma LogAt63()
    ensures Shifts(3, 1026) == 0x7D11
  {
    assert Power(8) == 0x0100;
    hide Power, Shifts;
    PowerEven(8, 0x0100, 0x1021);
    PowerEven(16, 0x1021, 0x3730);
    PowerEven(32, 0x3730, 0xB861);
    PowerEven(64, 0xB861, 0xAEFC);
    PowerEven(128, 0xAEFC, 0x8E29);
    PowerOdd(256, 0x8E29, 0x27F8);
    PowerEven(513, 0x27F8, 0xDB10);
    ThreeTo(1026, 0xDB10, 0x7D11);
  }

  lemma LogAt70()
    ensures Shifts(3, 29590) == 0x1AB6
  {
    assert Power(7) == 0x0080;
    hide Power, Shifts;
    PowerEven(7, 0x0080, 0x4000);
    PowerEven(14, 0x4000, 0x0373);
    PowerOdd(28, 0x0373, 0x8B40);
    PowerOdd(57, 0x8B40, 0x0B5A);
    PowerOdd(115, 0x0B5A, 0x124A);
    PowerEven(231, 0x124A, 0x63F1);
    PowerEven(462, 0x63F1, 0xCA13);
    PowerOdd(924, 0xCA13, 0x0FF4);
    PowerEven(1849, 0x0FF4, 0x5F40);
    PowerOdd(3698, 0x5F40, 0x5424);
    PowerOdd(7397, 0x5424, 0x4CC6);
    PowerEven(14795, 0x4CC6, 0x0992);
    ThreeTo(29590, 0x0992, 0x1AB6);
  }

  // ----- The register at the control byte, for two to ten addresses -----

  /** The register k zero bytes behind the first. */
  function After(k: nat): bv16 { Shifts(0x005E, 8 * k) }

  function ZeroByte(r: bv16): bv16 { Shift(Shift(Shift(Shift(Shift(Shift(Shift(Shift(r)))))))) }

  function ZeroAddress(r: bv16): bv16 { ZeroByte(ZeroByte(ZeroByte(ZeroByte(ZeroByte(ZeroByte(ZeroByte(r))))))) }

  lemma NextByte(k: nat)
    ensures After(k + 1) == ZeroByte(After(k))
  {
    var r := After(k);
    ShiftsAdd(0x005E, 8 * k, 8);
    assert 8 * (k + 1) == 8 * k + 8;
    hide Shift;
    assert Shifts(r, 8) == Shifts(Shift(Shift(Shift(Shift(r)))), 4);
  }

  lemma NextAddress(k: nat, r: bv16, s: bv16)
    requires After(k) == r && ZeroAddress(r) == s
    ensures After(k + 7) == s
  {
    hide After, ZeroByte;
    NextByte(k);
    NextByte(k + 1);
    NextByte(k + 2);
    NextByte(k + 3);
    NextByte(k + 4);
    NextByte(k + 5);
    NextByte(k + 6);
  }

  lemma AtFirst()
    ensures After(6) == 0xDA9A
  {
    assert After(0) == 0x005E;
    hide After;
    NextByte(0);
    NextByte(1);
    NextByte(2);
    NextByte(3);
    NextByte(4);
    NextByte(5);
  }

  lemma At14()
    ensures After(13) == 0xFA86 && Xor(0xFA86, 0x8000) == 0x7A86
  {
    AtFirst();
    hide After;
    NextAddress(6, 0xDA9A, 0xFA86);
  }

  lemma At21()
    ensures After(20) == 0x8517 && Xor(0x8517, 0x8000) == 0x0517
  {
    At14();
    hide After;
    NextAddress(13, 0xFA86, 0x8517);
  }

  lemma At28()
    ensures After(27) == 0x009B && Xor(0x009B, 0x8000) == 0x809B
  {
    At21();
    hide After;
    NextAddress(20, 0x8517, 0x009B);
  }

  lemma At35()
    ensures After(34) == 0x0D06 && Xor(0x0D06, 0x8000) == 0x8D06
  {
    At28();
    hide After;
    NextAddress(27, 0x009B, 0x0D06);
  }

  lemma At42()
    ensures After(41) == 0x67EB && Xor(0x67EB, 0x8000) == 0xE7EB
  {
    At35();
    hide After;
    NextAddress(34, 0x0D06, 0x67EB);
  }

  lemma At49()
    ensures After(48) == 0xE2C4 && Xor(0xE2C4, 0x8000) == 0x62C4
  {
    At42();
    hide After;
    NextAddress(41, 0x67EB, 0xE2C4);
  }

  lemma At56()
    ensures After(55) == 0xC091 && Xor(0xC091, 0x8000) == 0x4091
  {
    At49();
    hide After;
    NextAddress(48, 0xE2C4, 0xC091);
  }

  lemma At63()
    ensures After(62) == 0xFD11 && Xor(0xFD11, 0x8000) == 0x7D11
  {
    At56();
    hide After;
    NextAddress(55, 0xC091, 0xFD11);
  }

  lemma At70()
    ensures After(69) == 0x9AB6 && Xor(0x9AB6, 0x8000) == 0x1AB6
  {
    At63();
    hide After;
    NextAddress(62, 0xFD11, 0x9AB6);
  }

  /** With a logarithm that is out of step, no whole number of bytes leads to the target. */
  lemma OutOfStep(v: bv16, j: nat, m: nat)
    requires Shifts(3, j) == v && j < 32767 && m <= 4095 && (29744 - j) % 32767 % 8 != 0
    ensures Shifts(v, 8 * m) != 0x82FF
  {
    LogOfTarget();
    hide Shifts;
    if Shifts(v, 8 * m) == 0x82FF {
      ShiftsAdd(3, j, 8 * m);
      SameLogarithm(j + 8 * m, 29744);
      Distance(j, 8 * m);
    }
  }

  lemma Distance(j: nat, d: nat)
    requires d < 32767 && (j + d) % 32767 == 29744
    ensures (29744 - j) % 32767 == d
  {}

  lemma PassesFrom(n: nat, p: nat)
    requires 1 <= p < n
    ensures LateFcsPasses(n, p) <==> Shifts(Xor(After(p - 1), 0x8000), 8 * (n - 1 - p)) == 0x82FF
  {}

  /** Up to ten addresses, which are eight digipeaters, and 4095 bytes. */
  lemma TenAddressesNeverPass(n: nat, addresses: nat)
    requires 2 <= addresses <= 10 && 7 * addresses < n <= 4095
    ensures !LateFcsPasses(n, 7 * addresses)
  {
    hide Shifts, Xor, After;
    PassesFrom(n, 7 * addresses);
    match addresses
    case 2 =>
      At14();
      LogAt14();
      OutOfStep(0x7A86, 18843, n - 1 - 14);
    case 3 =>
      At21();
      LogAt21();
      OutOfStep(0x0517, 28898, n - 1 - 21);
    case 4 =>
      At28();
      LogAt28();
      OutOfStep(0x809B, 26199, n - 1 - 28);
    case 5 =>
      At35();
      LogAt35();
      OutOfStep(0x8D06, 8135, n - 1 - 35);
    case 6 =>
      At42();
      LogAt42();
      OutOfStep(0xE7EB, 15046, n - 1 - 42);
    case 7 =>
      At49();
      LogAt49();
      OutOfStep(0x62C4, 20366, n - 1 - 49);
    case 8 =>
      At56();
      LogAt56();
      OutOfStep(0x4091, 23459, n - 1 - 56);
    case 9 =>
      At63();
      LogAt63();
      OutOfStep(0x7D11, 1026, n - 1 - 63);
    case 10 =>
      At70();
      LogAt70();
      OutOfStep(0x1AB6, 29590, n - 1 - 70);
  }
}
