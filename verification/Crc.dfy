/** CRC-16/CCITT (protocol/packet.py), bit by bit and byte by byte. */
module Crc {
  import opened Bytes

  /** One turn of the inner loop: shift left, and subtract the polynomial when a one falls out. */
  function Shift(r: bv16): bv16 {
    if r & 0x8000 != 0 then (r << 1) ^ 0x1021 else r << 1
  }

  function Shifts(r: bv16, n: nat): bv16
    decreases n
  {
    if n == 0 then r else Shifts(Shift(r), n - 1)
  }

  /** One turn of the outer loop. */
  function FeedByte(r: bv16, b: byte): bv16 {
    Shifts(Xor(r, (b as bv16) << 8), 8)
  }

  function Register(r: bv16, data: seq<byte>): bv16
    decreases data
  {
    if data == [] then r else Register(FeedByte(r, data[0]), data[1..])
  }

  function Ccitt(data: seq<byte>): bv16 { Register(0xFFFF, data) }

  method Crc16Ccitt(data: seq<byte>) returns (crc: bv16)
    ensures crc == Ccitt(data)
  {
    crc := 0xFFFF;
    for i := 0 to |data|
      invariant Register(crc, data[i..]) == Ccitt(data)
    {
      ghost var before := crc;
      crc := crc ^ ((data[i] as bv16) << 8);
      crc := EightTurns(crc);
      assert crc == FeedByte(before, data[i]);
      assert data[i..][1..] == data[i + 1..];
    }
  }

  method EightTurns(start: bv16) returns (crc: bv16)
    ensures crc == Shifts(start, 8)
  {
    crc := start;
    for j := 0 to 8
      invariant Shifts(crc, 8 - j) == Shifts(start, 8)
    {
      if crc & 0x8000 != 0 {
        crc := (crc << 1) ^ 0x1021;
      } else {
        crc := crc << 1;
      }
    }
  }

  // ----- Registers form a vector space over GF(2) on which the shift is linear and injective -----

  function Xor(a: bv16, b: bv16): bv16 { a ^ b }

  lemma XorLaws(a: bv16, b: bv16, c: bv16)
    ensures Xor(a, b) == Xor(b, a)
    ensures Xor(Xor(a, b), c) == Xor(a, Xor(b, c))
    ensures Xor(a, 0) == a && Xor(a, a) == 0
    ensures Xor(a, b) == 0 <==> a == b
  {
    BitwiseXorLaws(a, b, c);
  }

  lemma BitwiseXorLaws(a: bv16, b: bv16, c: bv16)
    ensures a ^ b == b ^ a && (a ^ b) ^ c == a ^ (b ^ c)
    ensures a ^ 0 == a && a ^ a == 0
    ensures a ^ b == 0 <==> a == b
  {}

  lemma ShiftLinear(a: bv16, b: bv16)
    ensures Xor(Shift(a), Shift(b)) == Shift(Xor(a, b))
  {
    BitwiseShiftLinear(a, b);
    hide Shift;
  }

  lemma BitwiseShiftLinear(a: bv16, b: bv16)
    ensures Shift(a) ^ Shift(b) == Shift(a ^ b)
  {
    TopBitOfXor(a, b);
    if a & 0x8000 == 0 {
      if b & 0x8000 == 0 { XorOfShifted(a, b); } else { XorOfShifted(a, b); }
    } else {
      if b & 0x8000 == 0 { XorOfShifted(a, b); } else { XorOfShifted(a, b); }
    }
  }

  lemma TopBitOfXor(a: bv16, b: bv16)
    ensures (a ^ b) & 0x8000 == (a & 0x8000) ^ (b & 0x8000)
    ensures a & 0x8000 == 0 || a & 0x8000 == 0x8000
    ensures b & 0x8000 == 0 || b & 0x8000 == 0x8000
  {}

  lemma XorOfShifted(a: bv16, b: bv16)
    ensures ((a << 1) ^ 0x1021) ^ (b << 1) == ((a ^ b) << 1) ^ 0x1021
    ensures (a << 1) ^ ((b << 1) ^ 0x1021) == ((a ^ b) << 1) ^ 0x1021
    ensures ((a << 1) ^ 0x1021) ^ ((b << 1) ^ 0x1021) == (a ^ b) << 1
    ensures (a << 1) ^ (b << 1) == (a ^ b) << 1
  {}

  lemma ShiftZero(r: bv16)
    ensures Shift(r) == 0 <==> r == 0
  {
    OddAfterSubtraction(r);
  }

  lemma OddAfterSubtraction(r: bv16)
    ensures ((r << 1) ^ 0x1021) & 1 == 1 && (r << 1) & 1 == 0
    ensures r & 0x8000 == 0 && r << 1 == 0 ==> r == 0
  {}

  lemma {:induction false} ShiftsZero(r: bv16, n: nat)
    ensures Shifts(r, n) == 0 <==> r == 0
    decreases n
  {
    hide Shift;
    if n > 0 {
      ShiftZero(r);
      ShiftsZero(Shift(r), n - 1);
    }
  }

  lemma {:induction false} ShiftsLinear(a: bv16, b: bv16, n: nat)
    ensures Xor(Shifts(a, n), Shifts(b, n)) == Shifts(Xor(a, b), n)
    decreases n
  {
    hide Shift, Xor;
    if n > 0 {
      ShiftLinear(a, b);
      ShiftsLinear(Shift(a), Shift(b), n - 1);
    }
  }

  // ----- The same register, fed one bit at a time -----

  function FeedBit(r: bv16, bit: bool): bv16 {
    Shift(if bit then Xor(r, 0x8000) else r)
  }

  function BitRegister(r: bv16, bits: seq<bool>): bv16
    decreases bits
  {
    if bits == [] then r else BitRegister(FeedBit(r, bits[0]), bits[1..])
  }

  lemma FeedNext(r: bv16, bits: seq<bool>)
    requires bits != []
    ensures BitRegister(r, bits) == BitRegister(FeedBit(r, bits[0]), bits[1..])
    ensures |bits| == 1 ==> BitRegister(r, bits) == FeedBit(r, bits[0])
  {}

  lemma {:induction false} BitRegisterConcat(r: bv16, a: seq<bool>, b: seq<bool>)
    ensures BitRegister(r, a + b) == BitRegister(BitRegister(r, a), b)
    decreases a
  {
    hide FeedBit;
    if a == [] {
      assert a + b == b;
    } else {
      assert (a + b)[1..] == a[1..] + b;
      BitRegisterConcat(FeedBit(r, a[0]), a[1..], b);
    }
  }

  /** Bits pre-loaded into the register act like bits fed later. */
  lemma FeedTopBit(r: bv16, x: bv16)
    ensures Shift(Xor(r, x)) == Xor(FeedBit(r, x & 0x8000 != 0), x << 1)
  {
    hide Shift;
    var top := x & 0x8000;
    var rest := x & 0x7FFF;
    SplitTop(r, x);
    ShiftLinear(Xor(r, top), rest);
    ShiftWithoutTop(rest);
  }

  lemma ShiftWithoutTop(x: bv16)
    requires x & 0x8000 == 0
    ensures Shift(x) == x << 1
  {}

  lemma SplitTop(r: bv16, x: bv16)
    ensures Xor(Xor(r, x & 0x8000), x & 0x7FFF) == Xor(r, x)
    ensures (x & 0x7FFF) & 0x8000 == 0
    ensures (x & 0x7FFF) << 1 == x << 1
    ensures x & 0x8000 == 0 || x & 0x8000 == 0x8000
    ensures Xor(r, 0) == r
  {
    XorLaws(r, x & 0x8000, x & 0x7FFF);
    SplitWord(x);
    assert Xor(x & 0x8000, x & 0x7FFF) == x;
    hide Xor;
  }

  lemma SplitWord(x: bv16)
    ensures (x & 0x8000) ^ (x & 0x7FFF) == x
    ensures (x & 0x7FFF) & 0x8000 == 0
    ensures (x & 0x7FFF) << 1 == x << 1
    ensures x & 0x8000 == 0 || x & 0x8000 == 0x8000
  {}

  function Dropped(x: bv16, n: nat): bv16
    decreases n
  {
    if n == 0 then x else Dropped(Double(x), n - 1)
  }

  function Double(x: bv16): bv16 { x << 1 }

  predicate Top(x: bv16) { x & 0x8000 != 0 }

  predicate TopBits(x: bv16, bits: seq<bool>)
    decreases bits
  {
    bits == [] || (bits[0] == Top(x) && TopBits(Double(x), bits[1..]))
  }

  lemma {:induction false} PreloadedBits(r: bv16, x: bv16, bits: seq<bool>)
    requires TopBits(x, bits)
    ensures Shifts(Xor(r, x), |bits|) == Xor(BitRegister(r, bits), Dropped(x, |bits|))
    decreases bits
  {
    if bits != [] {
      assert Shift(Xor(r, x)) == Xor(FeedBit(r, bits[0]), Double(x)) by { FeedTopBit(r, x); }
      hide Shift, Xor, FeedBit, Double, Top;
      PreloadedBits(FeedBit(r, bits[0]), Double(x), bits[1..]);
    }
  }

  lemma ByteIsEightBits(r: bv16, b: byte)
    ensures FeedByte(r, b) == BitRegister(r, MsbBits(b))
  {
    PreloadedByte(b);
    PreloadedBits(r, (b as bv16) << 8, MsbBits(b));
    XorLaws(BitRegister(r, MsbBits(b)), 0, 0);
    hide Xor, MsbBits, Shifts;
  }

  lemma PreloadedByte(b: byte)
    ensures TopBits((b as bv16) << 8, MsbBits(b)) && Dropped((b as bv16) << 8, 8) == 0
  {
    var x := (b as bv16) << 8;
    DroppedNext(x, 0);
    DroppedNext(x, 1);
    DroppedNext(x, 2);
    DroppedNext(x, 3);
    DroppedNext(x, 4);
    DroppedNext(x, 5);
    DroppedNext(x, 6);
    DroppedNext(x, 7);
    TopBitsOfByte(b);
    TopBitsFromIndices(x, MsbBits(b));
  }

  lemma {:induction false} TopBitsFromIndices(x: bv16, bits: seq<bool>)
    requires forall i | 0 <= i < |bits| :: bits[i] == Top(Dropped(x, i))
    ensures TopBits(x, bits)
    decreases bits
  {
    hide Top, Double;
    if bits != [] {
      assert bits[0] == Top(Dropped(x, 0));
      forall i | 0 <= i < |bits| - 1
        ensures bits[1..][i] == Top(Dropped(Double(x), i))
      {
        assert bits[i + 1] == Top(Dropped(x, i + 1));
      }
      TopBitsFromIndices(Double(x), bits[1..]);
    }
  }

  lemma {:induction false} DroppedNext(x: bv16, n: nat)
    ensures Dropped(x, n + 1) == Double(Dropped(x, n))
    decreases n
  {
    hide Double;
    if n > 0 {
      DroppedNext(Double(x), n - 1);
    }
  }

  lemma TopBitsOfByte(b: byte)
    ensures var x := (b as bv16) << 8;
      && (b & 0x80 != 0 <==> x & 0x8000 != 0)
      && (b & 0x40 != 0 <==> (x << 1) & 0x8000 != 0)
      && (b & 0x20 != 0 <==> (x << 1 << 1) & 0x8000 != 0)
      && (b & 0x10 != 0 <==> (x << 1 << 1 << 1) & 0x8000 != 0)
      && (b & 0x08 != 0 <==> (x << 1 << 1 << 1 << 1) & 0x8000 != 0)
      && (b & 0x04 != 0 <==> (x << 1 << 1 << 1 << 1 << 1) & 0x8000 != 0)
      && (b & 0x02 != 0 <==> (x << 1 << 1 << 1 << 1 << 1 << 1) & 0x8000 != 0)
      && (b & 0x01 != 0 <==> (x << 1 << 1 << 1 << 1 << 1 << 1 << 1) & 0x8000 != 0)
      && x << 1 << 1 << 1 << 1 << 1 << 1 << 1 << 1 == 0
  {}

  lemma {:induction false} RegisterIsBitRegister(r: bv16, data: seq<byte>)
    ensures Register(r, data) == BitRegister(r, AllBits(MsbBits, data))
    decreases data
  {
    hide FeedByte, MsbBits;
    if data != [] {
      ByteIsEightBits(r, data[0]);
      RegisterIsBitRegister(FeedByte(r, data[0]), data[1..]);
      BitRegisterConcat(r, MsbBits(data[0]), AllBits(MsbBits, data[1..]));
    }
  }

  lemma {:induction false} RegisterConcat(r: bv16, a: seq<byte>, b: seq<byte>)
    ensures Register(r, a + b) == Register(Register(r, a), b)
    decreases a
  {
    hide FeedByte;
    if a == [] {
      assert a + b == b;
    } else {
      assert (a + b)[1..] == a[1..] + b;
      RegisterConcat(FeedByte(r, a[0]), a[1..], b);
    }
  }

  // ----- The residue: a message followed by its own CRC clears the register -----

  function HighByte(r: bv16): byte { (r >> 8) as byte }

  function LowByte(r: bv16): byte { (r & 0xFF) as byte }

  function Trailer(crc: bv16): seq<byte> { [HighByte(crc), LowByte(crc)] }

  lemma Residue(r: bv16, hi: byte, lo: byte)
    ensures Register(r, [hi, lo]) == 0 <==> [hi, lo] == Trailer(r)
  {
    hide Trailer, Xor, Shifts;
    assert [hi, lo][1..] == [lo];
    assert Register(FeedByte(r, hi), [lo]) == Register(FeedByte(FeedByte(r, hi), lo), []);
    LastByteClears(FeedByte(r, hi), lo);
    FirstByteLeaves(r, hi, lo);
    JoinBytes(r, hi, lo);
  }

  lemma LastByteClears(t: bv16, lo: byte)
    ensures FeedByte(t, lo) == 0 <==> t == (lo as bv16) << 8
  {
    ShiftsZero(Xor(t, (lo as bv16) << 8), 8);
    XorLaws(t, (lo as bv16) << 8, 0);
    hide Xor, Shifts;
  }

  lemma FirstByteLeaves(r: bv16, hi: byte, lo: byte)
    ensures FeedByte(r, hi) == (lo as bv16) << 8 <==> Xor(r, (hi as bv16) << 8) == lo as bv16
  {
    var x := Xor(r, (hi as bv16) << 8);
    var low := lo as bv16;
    ShiftLowByte(lo);
    ShiftsLinear(x, low, 8);
    ShiftsZero(Xor(x, low), 8);
    XorLaws(Shifts(x, 8), Shifts(low, 8), 0);
    XorLaws(x, low, 0);
    hide Xor, Shifts;
  }

  lemma JoinBytes(r: bv16, hi: byte, lo: byte)
    ensures Xor(r, (hi as bv16) << 8) == lo as bv16 <==> [hi, lo] == Trailer(r)
  {
    WordOfBytes(r, hi, lo);
    var t := Trailer(r);
    assert [hi, lo] == t <==> hi == t[0] && lo == t[1];
  }

  lemma WordOfBytes(r: bv16, hi: byte, lo: byte)
    ensures r ^ ((hi as bv16) << 8) == lo as bv16 <==> hi == (r >> 8) as byte && lo == (r & 0xFF) as byte
  {}

  lemma ShiftLowByte(lo: byte)
    ensures Shifts(lo as bv16, 8) == (lo as bv16) << 8
  {}
}
