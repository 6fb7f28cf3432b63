/** The pseudo-random generator behind comfort noise (native/include/packet_loss_recovery.h). */
module Noise {

  /** The state of the generator, a static uint32_t. */
  datatype Lfsr = Lfsr(bits: bv32)

  const SEED := Lfsr(0xACE1)

  function Both(x: bv32, y: bv32): bv32 { x ^ y }

  function Left(x: bv32, n: bv5): bv32 { x << n }

  function XorLeft(x: bv32, n: bv5): bv32 { Both(x, Left(x, n)) }

  function Right(x: bv32, n: bv5): bv32 { x >> n }

  function XorRight(x: bv32, n: bv5): bv32 { Both(x, Right(x, n)) }

  function Shifted(l: Lfsr): Lfsr {
    Lfsr(XorLeft(XorRight(XorLeft(l.bits, 13), 17), 5))
  }

  function ShiftedBy(l: Lfsr, n: nat): Lfsr {
    if n == 0 then l else Shifted(ShiftedBy(l, n - 1))
  }

  /** What a sample is made of. */
  function Low(l: Lfsr): bv32 { l.bits & 0xFFFF }

  lemma {:induction false} ShiftedByMore(l: Lfsr, m: nat, n: nat)
    ensures ShiftedBy(ShiftedBy(l, m), n) == ShiftedBy(l, m + n)
    decreases n
  {
    hide Shifted;
    if n > 0 {
      ShiftedByMore(l, m, n - 1);
    }
  }

  lemma ShiftedZero(l: Lfsr)
    ensures Shifted(l) == Lfsr(0) <==> l == Lfsr(0)
  {
    XorZero(l.bits);
    XorZero(XorLeft(l.bits, 13));
    XorZero(XorRight(XorLeft(l.bits, 13), 17));
    hide XorLeft, XorRight;
  }

  lemma XorZero(x: bv32)
    ensures XorLeft(x, 13) == 0 <==> x == 0
    ensures XorRight(x, 17) == 0 <==> x == 0
    ensures XorLeft(x, 5) == 0 <==> x == 0
  {}

  lemma Cancel(x: bv32, a: bv32, b: bv32)
    ensures Both(Both(x, a), Both(a, b)) == Both(x, b) && Both(Both(x, a), a) == x
  {}

  lemma LeftOf13(x: bv32)
    ensures Left(Both(x, Left(x, 13)), 13) == Both(Left(x, 13), Left(x, 26))
  {}

  lemma LeftOf26(x: bv32)
    ensures Left(Both(x, Left(x, 26)), 26) == Left(x, 26)
  {}

  lemma LeftOf5(x: bv32)
    ensures Left(Both(x, Left(x, 5)), 5) == Both(Left(x, 5), Left(x, 10))
  {}

  lemma LeftOf10(x: bv32)
    ensures Left(Both(x, Left(x, 10)), 10) == Both(Left(x, 10), Left(x, 20))
  {}

  lemma LeftOf20(x: bv32)
    ensures Left(Both(x, Left(x, 20)), 20) == Left(x, 20)
  {}

  /** The shift n and then, in the same way, the shift n again: the shift by 2 n, or nothing where that is the whole word. */
  lemma Twice(x: bv32, n: bv5, m: bv5)
    requires (n == 13 && m == 26) || (n == 5 && m == 10) || (n == 10 && m == 20)
    ensures XorLeft(XorLeft(x, n), n) == XorLeft(x, m)
  {
    hide Both, Left;
    LeftOf13(x);
    LeftOf5(x);
    LeftOf10(x);
    Cancel(x, Left(x, n), Left(x, m));
  }

  lemma TwiceIsNone(x: bv32, n: bv5)
    requires n == 26 || n == 20
    ensures XorLeft(XorLeft(x, n), n) == x
  {
    hide Both, Left;
    LeftOf26(x);
    LeftOf20(x);
    Cancel(x, Left(x, n), 0);
  }

  lemma RightOf17(x: bv32)
    ensures Right(Both(x, Right(x, 17)), 17) == Right(x, 17)
  {}

  lemma SecondUndone(x: bv32)
    ensures XorRight(XorRight(x, 17), 17) == x
  {
    hide Both, Right;
    RightOf17(x);
    Cancel(x, Right(x, 17), 0);
  }

  /** Each shift can be undone. */
  lemma FirstUndone(x: bv32)
    ensures XorLeft(XorLeft(XorLeft(x, 13), 13), 26) == x
  {
    hide XorLeft;
    Twice(x, 13, 26);
    TwiceIsNone(x, 26);
  }

  lemma ThirdUndone(x: bv32)
    ensures XorLeft(XorLeft(XorLeft(XorLeft(x, 5), 5), 10), 20) == x
  {
    hide XorLeft;
    Twice(x, 5, 10);
    Twice(x, 10, 20);
    TwiceIsNone(x, 20);
  }

  /** Different states stay different. */
  lemma {:induction false} NeverMeet(l: Lfsr, m: Lfsr, n: nat)
    ensures ShiftedBy(l, n) == ShiftedBy(m, n) <==> l == m
    decreases n
  {
    hide Shifted;
    if n > 0 {
      NeverMeet(l, m, n - 1);
      ShiftedInjective(ShiftedBy(l, n - 1), ShiftedBy(m, n - 1));
    }
  }

  lemma ShiftedInjective(l: Lfsr, m: Lfsr)
    ensures Shifted(l) == Shifted(m) ==> l == m
  {
    hide XorLeft, XorRight;
    FirstUndone(l.bits);
    FirstUndone(m.bits);
    SecondUndone(XorLeft(l.bits, 13));
    SecondUndone(XorLeft(m.bits, 13));
    ThirdUndone(XorRight(XorLeft(l.bits, 13), 17));
    ThirdUndone(XorRight(XorLeft(m.bits, 13), 17));
  }

  /** The first state after the seed, and what the first sample is made of. */
  lemma FirstState()
    ensures Shifted(SEED) == Lfsr(0xA60C43CF) && Low(Shifted(SEED)) == 0x43CF
  {}

  /** The generator never runs dry: it is at zero only if it started there. */
  lemma {:induction false} NeverDry(l: Lfsr, n: nat)
    ensures ShiftedBy(l, n) == Lfsr(0) <==> l == Lfsr(0)
    decreases n
  {
    hide Shifted;
    if n > 0 {
      NeverDry(l, n - 1);
      ShiftedZero(ShiftedBy(l, n - 1));
    }
  }

  /** The three shifts, one after the other. */
  method Shift(l: Lfsr) returns (r: Lfsr)
    ensures r == Shifted(l)
  {
    hide XorLeft, XorRight;
    var x := XorLeft(l.bits, 13);
    x := XorRight(x, 17);
    x := XorLeft(x, 5);
    r := Lfsr(x);
  }

  class NoiseGenerator {
    var lfsr: Lfsr

    constructor ()
      ensures lfsr == SEED
    {
      lfsr := SEED;
    }

    method Next() returns (low: bv32)
      modifies this
      ensures lfsr == Shifted(old(lfsr)) && low == Low(lfsr)
    {
      hide Shifted, Low;
      lfsr := Shift(lfsr);
      low := Low(lfsr);
    }
  }
}
