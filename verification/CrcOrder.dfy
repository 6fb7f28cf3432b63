/** The order of x modulo x^16 + x^12 + x^5 + 1 is 32767, so two flipped bits that are closer than that are noticed. */
module CrcOrder {
  import opened Arithmetic
  import opened Bytes
  import opened Crc
  import opened CrcDetection

  /** x^n modulo the polynomial. */
  function Power(n: nat): bv16 { Shifts(1, n) }

  lemma {:induction false} ShiftsAdd(r: bv16, m: nat, n: nat)
    ensures Shifts(r, m + n) == Shifts(Shifts(r, m), n)
    decreases m
  {
    hide Shift;
    if m > 0 {
      ShiftsAdd(Shift(r), m - 1, n);
    }
  }

  // ----- Squaring is linear: it sends x^i to x^2i -----

  /** The sum of c * x^2i over the ones i < n of r. */
  function Spread(r: bv16, c: bv16, n: nat): bv16
    decreases n
  {
    if n == 0 then 0 else Xor(if Odd(r) then c else 0, Spread(Half(r), Shift(Shift(c)), n - 1))
  }

  function Half(r: bv16): bv16 { r >> 1 }

  predicate Odd(r: bv16) { r & 1 != 0 }

  function Square(r: bv16): bv16 { Spread(r, 1, 16) }

  lemma HalfLinear(a: bv16, b: bv16)
    ensures Half(Xor(a, b)) == Xor(Half(a), Half(b))
    ensures Odd(Xor(a, b)) == (Odd(a) != Odd(b))
  {
    HalfBits(a, b);
  }

  lemma HalfBits(a: bv16, b: bv16)
    ensures (a ^ b) >> 1 == (a >> 1) ^ (b >> 1)
    ensures (a ^ b) & 1 == (a & 1) ^ (b & 1)
    ensures a & 1 == 0 || a & 1 == 1
    ensures b & 1 == 0 || b & 1 == 1
  {}

  lemma XorOfSums(a: bv16, b: bv16, s: bv16, t: bv16)
    ensures Xor(Xor(a, s), Xor(b, t)) == Xor(Xor(a, b), Xor(s, t))
  {
    XorLaws(a, s, Xor(b, t));
    XorLaws(s, b, t);
    XorLaws(b, s, t);
    XorLaws(a, b, Xor(s, t));
    hide Xor;
  }

  lemma {:induction false} SpreadLinear(a: bv16, b: bv16, c: bv16, n: nat)
    ensures Spread(Xor(a, b), c, n) == Xor(Spread(a, c, n), Spread(b, c, n))
    decreases n
  {
    XorLaws(0, 0, 0);
    if n > 0 {
      HalfLinear(a, b);
      XorLaws(c, 0, 0);
      hide Xor, Half, Odd, Shift;
      SpreadLinear(Half(a), Half(b), Shift(Shift(c)), n - 1);
      XorOfSums(if Odd(a) then c else 0, if Odd(b) then c else 0,
                Spread(Half(a), Shift(Shift(c)), n - 1), Spread(Half(b), Shift(Shift(c)), n - 1));
    }
  }

  lemma {:induction false} SpreadTimesSquare(r: bv16, c: bv16, n: nat)
    ensures Spread(r, Shift(Shift(c)), n) == Shift(Shift(Spread(r, c, n)))
    decreases n
  {
    assert Shift(0) == 0;
    if n > 0 {
      hide Xor, Half, Odd, Shift;
      var d := Shift(Shift(c));
      SpreadTimesSquare(Half(r), d, n - 1);
      var head := if Odd(r) then c else 0;
      var tail := Spread(Half(r), d, n - 1);
      ShiftLinear(head, tail);
      ShiftLinear(Shift(head), Shift(tail));
    }
  }

  predicate Below(r: bv16, n: nat)
    decreases n
  {
    if n == 0 then r == 0 else Below(Half(r), n - 1)
  }

  lemma {:induction false} SpreadBelow(r: bv16, c: bv16, n: nat)
    requires Below(r, n)
    ensures Spread(r, c, n + 1) == Spread(r, c, n)
    decreases n
  {
    if n == 0 {
      XorLaws(0, 0, 0);
    } else {
      hide Xor, Half, Odd, Shift;
      SpreadBelow(Half(r), Shift(Shift(c)), n - 1);
    }
  }

  lemma TopClearIsBelow(r: bv16)
    requires !Top(r)
    ensures Below(r, 15)
  {}

  lemma SquareOfDouble(r: bv16)
    requires !Top(r)
    ensures Square(Double(r)) == Shift(Shift(Square(r)))
  {
    hide Xor, Half, Odd, Shift, Spread, Below, Double, Top;
    HalfOfDouble(r);
    ShiftOneTwice();
    SpreadOnce(Double(r), 1, 4, 15);
    XorZero(Spread(r, 4, 15));
    TopClearIsBelow(r);
    SpreadBelow(r, 4, 15);
    SpreadTimesSquare(r, 1, 16);
  }

  lemma HalfOfDouble(r: bv16)
    requires !Top(r)
    ensures !Odd(Double(r)) && Half(Double(r)) == r
  {}

  lemma ShiftOneTwice()
    ensures Shift(Shift(1)) == 4
  {}

  lemma XorZero(x: bv16)
    ensures Xor(0, x) == x
  {}

  lemma SpreadOnce(r: bv16, c: bv16, d: bv16, n: nat)
    requires Shift(Shift(c)) == d
    ensures Spread(r, c, n + 1) == Xor(if Odd(r) then c else 0, Spread(Half(r), d, n))
  {}

  // ----- Squaring by table: the images of x^0..x^15, four at a time -----

  function Quarter(r: bv16, a: bv16, b: bv16, c: bv16, d: bv16): bv16 {
    Xor(if Odd(r) then a else 0, Xor(if Odd(Half(r)) then b else 0,
    Xor(if Odd(Half(Half(r))) then c else 0, if Odd(Half(Half(Half(r)))) then d else 0)))
  }

  lemma FourBits(r: bv16, a: bv16, b: bv16, c: bv16, d: bv16, e: bv16, n: nat)
    requires Shift(Shift(a)) == b && Shift(Shift(b)) == c && Shift(Shift(c)) == d && Shift(Shift(d)) == e
    ensures Spread(r, a, n + 4) == Xor(Quarter(r, a, b, c, d), Spread(Half(Half(Half(Half(r)))), e, n))
  {
    hide Half, Odd, Shift, Xor, Spread, Quarter;
    var r1 := Half(r);
    var r2 := Half(r1);
    var r3 := Half(r2);
    SpreadOnce(r, a, b, n + 3);
    SpreadOnce(r1, b, c, n + 2);
    SpreadOnce(r2, c, d, n + 1);
    SpreadOnce(r3, d, e, n);
    var w, x, y, z := if Odd(r) then a else 0, if Odd(r1) then b else 0, if Odd(r2) then c else 0, if Odd(r3) then d else 0;
    FourThenRest(w, x, y, z, Spread(Half(r3), e, n));
    QuarterTerms(r, a, b, c, d);
  }

  lemma QuarterTerms(r: bv16, a: bv16, b: bv16, c: bv16, d: bv16)
    ensures Quarter(r, a, b, c, d) ==
            Xor(if Odd(r) then a else 0, Xor(if Odd(Half(r)) then b else 0,
            Xor(if Odd(Half(Half(r))) then c else 0, if Odd(Half(Half(Half(r)))) then d else 0)))
  {
    hide Xor, Odd, Half;
  }

  lemma FourThenRest(w: bv16, x: bv16, y: bv16, z: bv16, rest: bv16)
    ensures Xor(w, Xor(x, Xor(y, Xor(z, rest)))) == Xor(Xor(w, Xor(x, Xor(y, z))), rest)
  {
    hide Xor;
    XorLaws(w, Xor(x, Xor(y, z)), rest);
    XorLaws(x, Xor(y, z), rest);
    XorLaws(y, z, rest);
  }

  /** The same from the lowest four bits themselves. */
  function Images(r: bv16, a: bv16, b: bv16, c: bv16, d: bv16): bv16 {
    Four(if r & 0x1 != 0 then a else 0, if r & 0x2 != 0 then b else 0,
         if r & 0x4 != 0 then c else 0, if r & 0x8 != 0 then d else 0)
  }

  function Four(w: bv16, x: bv16, y: bv16, z: bv16): bv16 { Xor(w ^ x, y ^ z) }

  lemma QuarterIs(r: bv16, a: bv16, b: bv16, c: bv16, d: bv16)
    ensures Quarter(r, a, b, c, d) == Images(r, a, b, c, d)
  {
    OddHalves(r);
    hide Odd, Half, Xor, Four;
    XorFour(if r & 0x1 != 0 then a else 0, if r & 0x2 != 0 then b else 0,
            if r & 0x4 != 0 then c else 0, if r & 0x8 != 0 then d else 0);
  }

  lemma XorFour(w: bv16, x: bv16, y: bv16, z: bv16)
    ensures Xor(w, Xor(x, Xor(y, z))) == Four(w, x, y, z)
  {
    hide Xor;
    XorIs(w, x);
    XorIs(y, z);
    XorLaws(w, x, Xor(y, z));
  }

  lemma XorIs(a: bv16, b: bv16)
    ensures Xor(a, b) == a ^ b
  {}

  lemma OddHalves(r: bv16)
    ensures Odd(r) <==> r & 0x1 != 0
    ensures Odd(Half(r)) <==> r & 0x2 != 0
    ensures Odd(Half(Half(r))) <==> r & 0x4 != 0
    ensures Odd(Half(Half(Half(r)))) <==> r & 0x8 != 0
  {}

  function SquareTable(r: bv16): bv16 {
    Xor(Images(r, 0x0001, 0x0004, 0x0010, 0x0040),
    Xor(Images(r >> 4, 0x0100, 0x0400, 0x1000, 0x4000),
    Xor(Images(r >> 8, 0x1021, 0x4084, 0x1231, 0x48C4), Images(r >> 12, 0x3331, 0xCCC4, 0x0373, 0x0DCC))))
  }

  lemma SixteenBits(r: bv16)
    ensures Spread(r, 0x0001, 16) ==
            Xor(Quarter(r, 0x0001, 0x0004, 0x0010, 0x0040),
            Xor(Quarter(r >> 4, 0x0100, 0x0400, 0x1000, 0x4000),
            Xor(Quarter(r >> 8, 0x1021, 0x4084, 0x1231, 0x48C4), Quarter(r >> 12, 0x3331, 0xCCC4, 0x0373, 0x0DCC))))
  {
    Halves(r);
    ImagesInTurn();
    hide Half, Odd, Shift, Xor, Spread, Quarter;
    FourBits(r, 0x0001, 0x0004, 0x0010, 0x0040, 0x0100, 12);
    FourBits(r >> 4, 0x0100, 0x0400, 0x1000, 0x4000, 0x1021, 8);
    FourBits(r >> 8, 0x1021, 0x4084, 0x1231, 0x48C4, 0x3331, 4);
    FourBits(r >> 12, 0x3331, 0xCCC4, 0x0373, 0x0DCC, 0x3730, 0);
    EmptySpread(Half(Half(Half(Half(r >> 12)))), 0x3730);
    XorLaws(Quarter(r >> 12, 0x3331, 0xCCC4, 0x0373, 0x0DCC), 0, 0);
  }

  lemma ImagesInTurn()
    ensures Shift(Shift(0x0001)) == 0x0004 && Shift(Shift(0x0004)) == 0x0010
    ensures Shift(Shift(0x0010)) == 0x0040 && Shift(Shift(0x0040)) == 0x0100
    ensures Shift(Shift(0x0100)) == 0x0400 && Shift(Shift(0x0400)) == 0x1000
    ensures Shift(Shift(0x1000)) == 0x4000 && Shift(Shift(0x4000)) == 0x1021
    ensures Shift(Shift(0x1021)) == 0x4084 && Shift(Shift(0x4084)) == 0x1231
    ensures Shift(Shift(0x1231)) == 0x48C4 && Shift(Shift(0x48C4)) == 0x3331
    ensures Shift(Shift(0x3331)) == 0xCCC4 && Shift(Shift(0xCCC4)) == 0x0373
    ensures Shift(Shift(0x0373)) == 0x0DCC && Shift(Shift(0x0DCC)) == 0x3730
  {}

  lemma Halves(r: bv16)
    ensures Half(Half(Half(Half(r)))) == r >> 4
    ensures Half(Half(Half(Half(r >> 4)))) == r >> 8
    ensures Half(Half(Half(Half(r >> 8)))) == r >> 12
  {}

  lemma SquareByTable(r: bv16)
    ensures Square(r) == SquareTable(r)
  {
    SixteenBits(r);
    hide Spread, Quarter, Images, Xor;
    QuarterIs(r, 0x0001, 0x0004, 0x0010, 0x0040);
    QuarterIs(r >> 4, 0x0100, 0x0400, 0x1000, 0x4000);
    QuarterIs(r >> 8, 0x1021, 0x4084, 0x1231, 0x48C4);
    QuarterIs(r >> 12, 0x3331, 0xCCC4, 0x0373, 0x0DCC);
  }

  lemma EmptySpread(r: bv16, c: bv16)
    ensures Spread(r, c, 0) == 0
  {}

  lemma SquareConstants()
    ensures Square(1) == 1
    ensures Square(0x1021) == Shift(Shift(Square(0x8000)))
  {
    SquareByTable(1);
    SquareByTable(0x1021);
    SquareByTable(0x8000);
    hide Square;
  }

  lemma SquareOfShift(r: bv16)
    ensures Square(Shift(r)) == Shift(Shift(Square(r)))
  {
    hide Spread, Shift, Xor, Double, Top;
    if !Top(r) {
      SquareOfDouble(r);
      ShiftWithoutCarry(r);
    } else {
      var low := Xor(r, 0x8000);
      TopSplit(r);
      SquareOfDouble(low);
      SquareConstants();
      SpreadLinear(Double(low), 0x1021, 1, 16);
      SpreadLinear(low, 0x8000, 1, 16);
      ShiftLinear(Square(low), Square(0x8000));
      ShiftLinear(Shift(Square(low)), Shift(Square(0x8000)));
    }
  }

  lemma ShiftWithoutCarry(r: bv16)
    requires !Top(r)
    ensures Shift(r) == Double(r)
  {}

  lemma TopSplit(r: bv16)
    requires Top(r)
    ensures var low := Xor(r, 0x8000);
      !Top(low) && Xor(low, 0x8000) == r && Shift(r) == Xor(Double(low), 0x1021)
  {
    TopSplitBits(r);
    ShiftWithTop(r);
    hide Shift;
    FlipTop(r);
  }

  lemma FlipTop(r: bv16)
    ensures Xor(r, 0x8000) == r ^ 0x8000 && Xor(r ^ 0x8000, 0x8000) == (r ^ 0x8000) ^ 0x8000
    ensures Xor((r ^ 0x8000) << 1, 0x1021) == ((r ^ 0x8000) << 1) ^ 0x1021
  {}

  lemma ShiftWithTop(r: bv16)
    requires r & 0x8000 != 0
    ensures Shift(r) == (r << 1) ^ 0x1021
  {}

  lemma TopSplitBits(r: bv16)
    ensures r & 0x8000 != 0 ==> (r ^ 0x8000) & 0x8000 == 0
    ensures (r ^ 0x8000) ^ 0x8000 == r && (r ^ 0x8000) << 1 == r << 1
  {}

  lemma {:induction false} PowerDouble(n: nat)
    ensures Power(2 * n) == Square(Power(n))
    decreases n
  {
    hide Square, Shift;
    SquareConstants();
    if n > 0 {
      PowerDouble(n - 1);
      PowerNext(n - 1);
      PowerNext(2 * n - 2);
      PowerNext(2 * n - 1);
      SquareOfShift(Power(n - 1));
    }
  }

  lemma PowerNext(n: nat)
    ensures Power(n + 1) == Shift(Power(n))
  {
    ShiftsAdd(1, n, 1);
    assert Shifts(Power(n), 1) == Shifts(Shift(Power(n)), 0);
  }

  lemma PowerStep(n: nat, p: bv16)
    requires Power(n) == p
    ensures Power(2 * n) == SquareTable(p)
    ensures Power(2 * n + 1) == Shift(SquareTable(p))
  {
    PowerDouble(n);
    SquareByTable(p);
    PowerNext(2 * n);
    hide Power, SquareTable, Square, Shift;
  }

  lemma PowerEven(n: nat, p: bv16, q: bv16)
    requires Power(n) == p && SquareTable(p) == q
    ensures Power(2 * n) == q
  {
    PowerStep(n, p);
  }

  lemma PowerOdd(n: nat, p: bv16, q: bv16)
    requires Power(n) == p && Shift(SquareTable(p)) == q
    ensures Power(2 * n + 1) == q
  {
    PowerStep(n, p);
  }

  lemma Power217()
    ensures Power(217) == 0x48E3
  {
    assert Power(13) == 0x2000;
    hide Power;
    PowerOdd(13, 0x2000, 0x89A9);
    PowerEven(27, 0x89A9, 0x1168);
    PowerEven(54, 0x1168, 0x3750);
    PowerOdd(108, 0x3750, 0x48E3);
  }

  lemma Power1057()
    ensures Power(1057) == 0xF2AF
  {
    assert Power(8) == 0x0100;
    hide Power;
    PowerEven(8, 0x0100, 0x1021);
    PowerOdd(16, 0x1021, 0x6E60);
    PowerEven(33, 0x6E60, 0xC1C6);
    PowerEven(66, 0xC1C6, 0x4E8A);
    PowerEven(132, 0x4E8A, 0x5946);
    PowerEven(264, 0x5946, 0x78B3);
    PowerOdd(528, 0x78B3, 0xF2AF);
  }

  lemma Power4681()
    ensures Power(4681) == 0x2C42
  {
    assert Power(9) == 0x0200;
    hide Power;
    PowerEven(9, 0x0200, 0x4084);
    PowerEven(18, 0x4084, 0x4363);
    PowerOdd(36, 0x4363, 0x8FA6);
    PowerEven(73, 0x8FA6, 0x4388);
    PowerEven(146, 0x4388, 0x1396);
    PowerOdd(292, 0x1396, 0x4500);
    PowerEven(585, 0x4500, 0x0163);
    PowerEven(1170, 0x0163, 0x0424);
    PowerOdd(2340, 0x0424, 0x2C42);
  }

  lemma Power32767()
    ensures Power(32767) == 0x0001
  {
    assert Power(7) == 0x0080;
    hide Power;
    PowerOdd(7, 0x0080, 0x8000);
    PowerOdd(15, 0x8000, 0x1B98);
    PowerOdd(31, 0x1B98, 0xD420);
    PowerOdd(63, 0xD420, 0x577E);
    PowerOdd(127, 0x577E, 0xCF04);
    PowerOdd(255, 0xCF04, 0x09FE);
    PowerOdd(511, 0x09FE, 0x1B62);
    PowerOdd(1023, 0x1B62, 0x7EA8);
    PowerOdd(2047, 0x7EA8, 0x554F);
    PowerOdd(4095, 0x554F, 0x440E);
    PowerOdd(8191, 0x440E, 0x222C);
    PowerOdd(16383, 0x222C, 0x0001);
  }

  // ----- Any period below 32767 would divide 217, 1057 or 4681 -----

  ghost predicate Period(d: nat) { Power(d) == 1 }

  lemma {:induction false} PeriodMultiples(d: nat, q: nat)
    requires Period(d)
    ensures Period(d * q)
    decreases q
  {
    hide Shift;
    if q > 0 {
      PeriodMultiples(d, q - 1);
      assert d * q == d * (q - 1) + d;
      ShiftsAdd(1, d * (q - 1), d);
    }
  }

  lemma PeriodRemainder(d: nat, n: nat)
    requires 0 < d && Period(d) && Period(n)
    ensures Period(n % d)
  {
    PeriodMultiples(d, n / d);
    assert n == d * (n / d) + n % d;
    ShiftsAdd(1, d * (n / d), n % d);
  }

  lemma {:induction false} LeastPeriod(d: nat) returns (k: nat)
    requires 0 < d && Period(d)
    ensures 0 < k <= d && Period(k) && forall j | 0 < j < k :: !Period(j)
    decreases d
  {
    hide Period;
    if j: nat :| 0 < j < d && Period(j) {
      k := LeastPeriod(j);
    } else {
      k := d;
    }
  }

  lemma LeastPeriodDivides(k: nat, n: nat)
    requires 0 < k && Period(k) && forall j | 0 < j < k :: !Period(j)
    requires Period(n)
    ensures n % k == 0
  {
    PeriodRemainder(k, n);
  }

  predicate OnlyKnownDivisors(n: nat) {
    n < 2 || ((32767 % n != 0 || n == 7 || n == 31 || n == 151) && OnlyKnownDivisors(n - 1))
  }

  lemma {:induction false} KnownDivisor(n: nat, q: nat)
    requires OnlyKnownDivisors(n) && 2 <= q <= n && 32767 % q == 0
    ensures q == 7 || q == 31 || q == 151
    decreases n
  {
    if q < n {
      KnownDivisor(n - 1, q);
    }
  }

  lemma DivisorsTo90()
    ensures OnlyKnownDivisors(90)
  {
    assert OnlyKnownDivisors(10);
    assert OnlyKnownDivisors(20);
    assert OnlyKnownDivisors(30);
    assert OnlyKnownDivisors(40);
    assert OnlyKnownDivisors(50);
    assert OnlyKnownDivisors(60);
    assert OnlyKnownDivisors(70);
    assert OnlyKnownDivisors(80);
    assert OnlyKnownDivisors(90);
  }

  lemma DivisorsTo181()
    ensures OnlyKnownDivisors(181)
  {
    DivisorsTo90();
    assert OnlyKnownDivisors(100);
    assert OnlyKnownDivisors(110);
    assert OnlyKnownDivisors(120);
    assert OnlyKnownDivisors(130);
    assert OnlyKnownDivisors(140);
    assert OnlyKnownDivisors(150);
    assert OnlyKnownDivisors(160);
    assert OnlyKnownDivisors(170);
    assert OnlyKnownDivisors(180);
    assert OnlyKnownDivisors(181);
  }

  lemma ProperDivisors(k: nat)
    requires 0 < k < 32767 && 32767 % k == 0
    ensures 4681 % k == 0 || 1057 % k == 0 || 217 % k == 0
  {
    hide OnlyKnownDivisors;
    DivisorsTo181();
    var q := 32767 / k;
    Cofactor(k, q);
    if k <= 181 {
      if k > 1 {
        KnownDivisor(181, k);
      }
    } else {
      KnownDivisor(181, q);
    }
  }

  lemma Cofactor(k: nat, q: nat)
    requires 0 < k < 32767 && 32767 % k == 0 && q == 32767 / k
    ensures k * q == 32767 && 2 <= q && 32767 % q == 0
    ensures k > 181 ==> q <= 181
  {
    assert k * q == 32767;
    QuotientRemainder(32767, q, k, 0);
  }

  lemma NoShortPeriod(d: nat)
    requires 0 < d < 32767
    ensures !Period(d)
  {
    if Period(d) {
      Power217();
      Power1057();
      Power4681();
      Power32767();
      var k := LeastPeriod(d);
      LeastPeriodDivides(k, 32767);
      ProperDivisors(k);
      PeriodOfMultiple(k, 4681);
      PeriodOfMultiple(k, 1057);
      PeriodOfMultiple(k, 217);
      hide Power;
      assert false;
    }
  }

  lemma PeriodOfMultiple(k: nat, n: nat)
    requires 0 < k && Period(k)
    ensures n % k == 0 ==> Period(n)
  {
    hide Power;
    if n % k == 0 {
      PeriodMultiples(k, n / k);
      assert k * (n / k) == n;
    }
  }

  /** Exactly the multiples of 32767 shifts bring 1 back. */
  lemma PeriodIff(d: nat)
    ensures Period(d) <==> d % 32767 == 0
  {
    Power32767();
    PeriodMultiples(32767, d / 32767);
    hide Power;
    if Period(d) && d % 32767 != 0 {
      PeriodRemainder(32767, d);
      NoShortPeriod(d % 32767);
      assert false;
    }
  }

  /** And so it is for x^15. */
  lemma TopReturnsIff(d: nat)
    ensures Shifts(0x8000, d) == 0x8000 <==> d % 32767 == 0
  {
    PowerStep(7, 0x80);
    assert Power(15) == 0x8000;
    PeriodIff(d);
    hide Shift;
    ShiftsAdd(1, 15, d);
    ShiftsAdd(1, d, 15);
    assert 15 + d == d + 15;
    if Shifts(0x8000, d) == 0x8000 {
      ShiftsInjective(Power(d), 1, 15);
    }
  }

  lemma ShiftsInjective(a: bv16, b: bv16, n: nat)
    requires Shifts(a, n) == Shifts(b, n)
    ensures a == b
  {
    ShiftsLinear(a, b, n);
    ShiftsZero(Xor(a, b), n);
    XorLaws(a, b, 0);
    XorLaws(Shifts(a, n), Shifts(b, n), 0);
    hide Xor, Shifts;
  }

  // ----- Two flipped bits -----

  lemma {:induction false} NoMoreOnes(d: seq<bool>)
    requires Ones(d) == 0
    ensures forall i | 0 <= i < |d| :: !d[i]
    decreases d
  {
    if d != [] {
      NoMoreOnes(d[1..]);
      forall i | 0 <= i < |d|
        ensures !d[i]
      {
        if i > 0 { assert d[i] == d[1..][i - 1]; }
      }
    }
  }

  lemma {:induction false} OnesFromFirst(d: seq<bool>, k: nat)
    requires k < |d| && d[k] && forall i | 0 <= i < k :: !d[i]
    ensures Ones(d) == 1 + Ones(d[k + 1..])
    decreases k
  {
    if k > 0 {
      OnesFromFirst(d[1..], k - 1);
      assert d[1..][k..] == d[k + 1..];
    }
  }

  lemma {:induction false} SomeOne(d: seq<bool>)
    requires Ones(d) > 0
    ensures exists i | 0 <= i < |d| :: d[i]
    decreases d
  {
    if d[0] {
    } else {
      SomeOne(d[1..]);
      var i :| 0 <= i < |d[1..]| && d[1..][i];
      assert d[i + 1];
    }
  }

  /** Two ones cancel exactly when their distance is a multiple of 32767. */
  lemma TwoOnes(d: seq<bool>, i: nat, j: nat)
    requires i < j < |d| && forall k | 0 <= k < |d| :: d[k] <==> k == i || k == j
    ensures BitRegister(0, d) == 0 <==> (j - i) % 32767 == 0
  {
    var e := d[i + 1..];
    var n := j - i - 1;
    SplitAtFlip(d, i);
    FlipAgain(n);
    var r := FeedBit(Shifts(FeedBit(0, true), n), true);
    hide FeedBit, Shifts;
    assert e == e[..n] + e[n..] && e[n] && e[n..][1..] == d[j + 1..];
    BitRegisterConcat(FeedBit(0, true), e[..n], e[n..]);
    FeedZeros(FeedBit(0, true), e[..n]);
    FeedZeros(r, d[j + 1..]);
    ShiftsZero(r, |d[j + 1..]|);
  }

  lemma DoubleDiff(d: seq<bool>)
    requires |d| <= 32767 && Ones(d) == 2
    ensures BitRegister(0, d) != 0
  {
    SomeOne(d);
    var i := FirstTrue(d);
    var e := d[i + 1..];
    OnesFromFirst(d, i);
    SomeOne(e);
    var j := FirstTrue(e);
    OnesFromFirst(e, j);
    NoMoreOnes(e[j + 1..]);
    forall k | 0 <= k < |d|
      ensures d[k] <==> k == i || k == i + 1 + j
    {
      if k > i + 1 + j {
        assert d[k] == e[j + 1..][k - i - j - 2];
      } else if k > i {
        assert d[k] == e[k - i - 1];
      }
    }
    TwoOnes(d, i, i + 1 + j);
  }

  lemma FlipAgain(j: nat)
    ensures FeedBit(Shifts(FeedBit(0, true), j), true) == 0 <==> (j + 1) % 32767 == 0
  {
    XorLaws(0x8000, 0, 0);
    XorLaws(0, 0x8000, 0);
    assert FeedBit(0, true) == Shift(0x8000);
    assert Shifts(0x8000, j + 1) == Shifts(Shift(0x8000), j);
    TopReturnsIff(j + 1);
    XorLaws(Shifts(0x8000, j + 1), 0x8000, 0);
    ShiftZero(Xor(Shifts(0x8000, j + 1), 0x8000));
    hide Shift, Xor;
  }

  /** Two flips go unnoticed exactly when they are a multiple of 32767 bits apart, so no longer bound would do. */
  lemma TwoFlipsMissedIff(r: bv16, a: seq<bool>, i: nat, j: nat)
    requires i < j < |a|
    ensures BitRegister(r, a) == BitRegister(r, a[i := !a[i]][j := !a[j]]) <==> (j - i) % 32767 == 0
  {
    var b := a[i := !a[i]][j := !a[j]];
    hide FeedBit;
    TwoOnes(Diff(a, b), i, j);
    SameRegister(r, a, b);
  }

  /** Up to 32767 bits, the CRC has Hamming distance 4: one, two or three flips never go unnoticed. */
  lemma UpToThreeFlipsDetected(r: bv16, a: seq<bool>, b: seq<bool>)
    requires |a| == |b| <= 32767 && 1 <= Flips(a, b) <= 3
    ensures BitRegister(r, a) != BitRegister(r, b)
  {
    if Flips(a, b) == 2 {
      DoubleDiff(Diff(a, b));
      SameRegister(r, a, b);
    } else {
      OddDetected(r, a, b);
    }
  }

  // ----- What the register never misses -----

  const ORDER := 32767

  /** Differences inside one window of 16 bits, in an odd number of places, or in one to three places close enough together. */
  ghost predicate Detectable(a: seq<bool>, b: seq<bool>)
    requires |a| == |b|
  {
    || (a != b && BurstOf16(a, b))
    || Flips(a, b) % 2 == 1
    || (1 <= Flips(a, b) <= 3 && |a| <= ORDER)
  }

  lemma Detected(r: bv16, a: seq<bool>, b: seq<bool>)
    requires |a| == |b| && Detectable(a, b)
    ensures BitRegister(r, a) != BitRegister(r, b)
  {
    if a != b && BurstOf16(a, b) {
      BurstDetected(r, a, b);
    } else if Flips(a, b) % 2 == 1 {
      OddDetected(r, a, b);
    } else {
      UpToThreeFlipsDetected(r, a, b);
    }
  }

  /** The same for byte strings, in the bits as `spell` sends them. */
  ghost predicate DetectableCorruption(spell: byte -> seq<bool>, sent: seq<byte>, received: seq<byte>) {
    |AllBits(spell, sent)| == |AllBits(spell, received)| && Detectable(AllBits(spell, sent), AllBits(spell, received))
  }
}
