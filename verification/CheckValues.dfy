/** The check values by which the two CRCs are known: those of the ASCII digits 1 to 9. */
module CheckValues {
  import opened Bytes
  import opened Crc
  import opened FrameCheck

  const DIGITS: seq<byte> := [0x31, 0x32, 0x33, 0x34, 0x35, 0x36, 0x37, 0x38, 0x39]

  lemma EightShifts(r: bv16)
    ensures Shifts(r, 8) == Shift(Shift(Shift(Shift(Shift(Shift(Shift(Shift(r))))))))
    ensures ShiftsRight(r, 8) == ShiftRight(ShiftRight(ShiftRight(ShiftRight(ShiftRight(ShiftRight(ShiftRight(ShiftRight(r))))))))
  {
    hide Shift, ShiftRight;
    assert forall q: bv16, n: nat {:trigger Shifts(q, n)} :: n > 0 ==> Shifts(q, n) == Shifts(Shift(q), n - 1);
    assert forall q: bv16, n: nat {:trigger ShiftsRight(q, n)} :: n > 0 ==> ShiftsRight(q, n) == ShiftsRight(ShiftRight(q), n - 1);
  }

  lemma Fed(r: bv16, b: byte)
    ensures FeedByte(r, b) == Shift(Shift(Shift(Shift(Shift(Shift(Shift(Shift(r ^ ((b as bv16) << 8)))))))))
    ensures FeedReflected(r, b) == ShiftRight(ShiftRight(ShiftRight(ShiftRight(ShiftRight(ShiftRight(ShiftRight(ShiftRight(r ^ (b as bv16)))))))))
  {
    EightShifts(r ^ ((b as bv16) << 8));
    EightShifts(r ^ (b as bv16));
    hide Shift, ShiftRight, Shifts, ShiftsRight;
  }

  lemma CcittSteps()
    ensures FeedByte(0xFFFF, 0x31) == 0xC782
    ensures FeedByte(0xC782, 0x32) == 0x3DBA
    ensures FeedByte(0x3DBA, 0x33) == 0x5BCE
    ensures FeedByte(0x5BCE, 0x34) == 0x5349
    ensures FeedByte(0x5349, 0x35) == 0x4560
    ensures FeedByte(0x4560, 0x36) == 0x2EF4
    ensures FeedByte(0x2EF4, 0x37) == 0x7718
    ensures FeedByte(0x7718, 0x38) == 0xA12B
    ensures FeedByte(0xA12B, 0x39) == 0x29B1
  {
    Fed(0xFFFF, 0x31);
    Fed(0xC782, 0x32);
    Fed(0x3DBA, 0x33);
    Fed(0x5BCE, 0x34);
    Fed(0x5349, 0x35);
    Fed(0x4560, 0x36);
    Fed(0x2EF4, 0x37);
    Fed(0x7718, 0x38);
    Fed(0xA12B, 0x39);
    hide FeedByte, FeedReflected, Shifts, ShiftsRight;
  }

  lemma X25Steps()
    ensures FeedReflected(0xFFFF, 0x31) == 0x2F8D
    ensures FeedReflected(0x2F8D, 0x32) == 0x4D53
    ensures FeedReflected(0x4D53, 0x33) == 0x634B
    ensures FeedReflected(0x634B, 0x34) == 0x8B13
    ensures FeedReflected(0x8B13, 0x35) == 0x44BF
    ensures FeedReflected(0x44BF, 0x36) == 0x198D
    ensures FeedReflected(0x198D, 0x37) == 0x1AC8
    ensures FeedReflected(0x1AC8, 0x38) == 0xF795
    ensures FeedReflected(0xF795, 0x39) == 0x6F91
  {
    Fed(0xFFFF, 0x31);
    Fed(0x2F8D, 0x32);
    Fed(0x4D53, 0x33);
    Fed(0x634B, 0x34);
    Fed(0x8B13, 0x35);
    Fed(0x44BF, 0x36);
    Fed(0x198D, 0x37);
    Fed(0x1AC8, 0x38);
    Fed(0xF795, 0x39);
    hide FeedByte, FeedReflected, Shifts, ShiftsRight;
  }

  lemma Fold(r: bv16, data: seq<byte>, k: nat)
    requires k < |data|
    ensures Register(r, data[k..]) == Register(FeedByte(r, data[k]), data[k + 1..])
    ensures ReflectedRegister(r, data[k..]) == ReflectedRegister(FeedReflected(r, data[k]), data[k + 1..])
  {
    assert data[k..][1..] == data[k + 1..];
    hide FeedByte, FeedReflected;
  }

  lemma CcittOfDigits()
    ensures Ccitt(DIGITS) == 0x29B1
  {
    hide FeedByte, FeedReflected, Register, ReflectedRegister;
    CcittSteps();
    assert DIGITS[0..] == DIGITS && DIGITS[9..] == [];
    Fold(0xFFFF, DIGITS, 0);
    Fold(0xC782, DIGITS, 1);
    Fold(0x3DBA, DIGITS, 2);
    Fold(0x5BCE, DIGITS, 3);
    Fold(0x5349, DIGITS, 4);
    Fold(0x4560, DIGITS, 5);
    Fold(0x2EF4, DIGITS, 6);
    Fold(0x7718, DIGITS, 7);
    Fold(0xA12B, DIGITS, 8);
    Empty(0x29B1);
  }

  lemma X25OfDigits()
    ensures X25(DIGITS) == 0x906E
  {
    hide FeedByte, FeedReflected, Register, ReflectedRegister;
    X25Steps();
    assert DIGITS[0..] == DIGITS && DIGITS[9..] == [];
    Fold(0xFFFF, DIGITS, 0);
    Fold(0x2F8D, DIGITS, 1);
    Fold(0x4D53, DIGITS, 2);
    Fold(0x634B, DIGITS, 3);
    Fold(0x8B13, DIGITS, 4);
    Fold(0x44BF, DIGITS, 5);
    Fold(0x198D, DIGITS, 6);
    Fold(0x1AC8, DIGITS, 7);
    Fold(0xF795, DIGITS, 8);
    Empty(0x6F91);
  }

  lemma Empty(r: bv16)
    ensures Register(r, []) == r && ReflectedRegister(r, []) == r
  {}
}
