/** CRC-16/X-25 (protocol/bpv7.py), the AX.25 frame check sequence, as the mirror image of CRC-16/CCITT. */
module FrameCheck {
  import opened Bytes
  import opened Crc
  import opened CrcDetection
  import opened CrcOrder

  /** One turn of the inner loop of crc16_x25. */
  function ShiftRight(r: bv16): bv16 {
    if r & 1 != 0 then (r >> 1) ^ 0x8408 else r >> 1
  }

  function ShiftsRight(r: bv16, n: nat): bv16
    decreases n
  {
    if n == 0 then r else ShiftsRight(ShiftRight(r), n - 1)
  }

  function ReflectedRegister(r: bv16, data: seq<byte>): bv16
    decreases data
  {
    if data == [] then r else ReflectedRegister(FeedReflected(r, data[0]), data[1..])
  }

  function FeedReflected(r: bv16, x: byte): bv16 { ShiftsRight(Xor(r, x as bv16), 8) }

  function X25(data: seq<byte>): bv16 { Xor(ReflectedRegister(0xFFFF, data), 0xFFFF) }

  method Crc16X25(data: seq<byte>) returns (crc: bv16)
    ensures crc == X25(data)
  {
    crc := 0xFFFF;
    for i := 0 to |data|
      invariant ReflectedRegister(crc, data[i..]) == ReflectedRegister(0xFFFF, data)
    {
      ghost var before := crc;
      crc := crc ^ (data[i] as bv16);
      crc := EightTurnsRight(crc);
      assert crc == FeedReflected(before, data[i]);
      assert data[i..][1..] == data[i + 1..];
    }
    crc := crc ^ 0xFFFF;
  }

  method EightTurnsRight(start: bv16) returns (crc: bv16)
    ensures crc == ShiftsRight(start, 8)
  {
    crc := start;
    for j := 0 to 8
      invariant ShiftsRight(crc, 8 - j) == ShiftsRight(start, 8)
    {
      if crc & 1 != 0 {
        crc := (crc >> 1) ^ 0x8408;
      } else {
        crc := crc >> 1;
      }
    }
  }

  // ----- Mirror images -----

  function Mirror(r: bv16): bv16 {
    var a := ((r & 0x5555) << 1) | ((r >> 1) & 0x5555);
    var b := ((a & 0x3333) << 2) | ((a >> 2) & 0x3333);
    var c := ((b & 0x0F0F) << 4) | ((b >> 4) & 0x0F0F);
    (c << 8) | (c >> 8)
  }

  function MirrorByte(x: byte): byte {
    var a := ((x & 0x55) << 1) | ((x >> 1) & 0x55);
    var b := ((a & 0x33) << 2) | ((a >> 2) & 0x33);
    (b << 4) | (b >> 4)
  }

  function MirrorBytes(data: seq<byte>): (m: seq<byte>)
    ensures |m| == |data|
  {
    if data == [] then [] else [MirrorByte(data[0])] + MirrorBytes(data[1..])
  }

  lemma MirrorShift(r: bv16)
    ensures Mirror(Shift(r)) == ShiftRight(Mirror(r))
  {
    if r & 0x8000 != 0 { MirrorShiftTop(r); } else { MirrorShiftClear(r); }
  }

  lemma MirrorShiftTop(r: bv16)
    requires r & 0x8000 != 0
    ensures Mirror(r) & 1 != 0 && Mirror((r << 1) ^ 0x1021) == (Mirror(r) >> 1) ^ 0x8408
  {}

  lemma MirrorShiftClear(r: bv16)
    requires r & 0x8000 == 0
    ensures Mirror(r) & 1 == 0 && Mirror(r << 1) == Mirror(r) >> 1
  {}

  lemma MirrorXorByte(r: bv16, x: byte)
    ensures Mirror(Xor(r, (MirrorByte(x) as bv16) << 8)) == Xor(Mirror(r), x as bv16)
  {}

  lemma MirrorBits(x: byte)
    ensures MsbBits(MirrorByte(x)) == LsbBits(x)
  {}

  lemma {:induction false} MirrorShifts(r: bv16, n: nat)
    ensures Mirror(Shifts(r, n)) == ShiftsRight(Mirror(r), n)
    decreases n
  {
    hide Mirror, Shift, ShiftRight;
    if n > 0 {
      MirrorShift(r);
      MirrorShifts(Shift(r), n - 1);
    }
  }

  lemma MirrorFeed(r: bv16, x: byte)
    ensures FeedReflected(Mirror(r), x) == Mirror(FeedByte(r, MirrorByte(x)))
  {
    MirrorXorByte(r, x);
    MirrorShifts(Xor(r, (MirrorByte(x) as bv16) << 8), 8);
    hide Mirror, MirrorByte, Xor, Shifts, ShiftsRight;
  }

  lemma {:induction false} MirrorRegister(r: bv16, data: seq<byte>)
    ensures ReflectedRegister(Mirror(r), data) == Mirror(Register(r, MirrorBytes(data)))
    decreases data
  {
    hide Mirror, MirrorByte, FeedByte, FeedReflected;
    if data != [] {
      MirrorFeed(r, data[0]);
      assert MirrorBytes(data)[1..] == MirrorBytes(data[1..]);
      MirrorRegister(FeedByte(r, MirrorByte(data[0])), data[1..]);
    }
  }

  /** For every byte string, the X-25 value is the mirrored CCITT value of the mirrored bytes, complemented. */
  lemma MirrorImage(data: seq<byte>)
    ensures X25(data) == Xor(Mirror(Ccitt(MirrorBytes(data))), 0xFFFF)
  {
    assert Mirror(0xFFFF) == 0xFFFF;
    hide Mirror, Xor;
    MirrorRegister(0xFFFF, data);
  }

  lemma {:induction false} MirrorBytesBits(data: seq<byte>)
    ensures AllBits(MsbBits, MirrorBytes(data)) == AllBits(LsbBits, data)
    decreases data
  {
    hide MirrorByte, MsbBits, LsbBits;
    if data != [] {
      MirrorBits(data[0]);
      assert MirrorBytes(data)[1..] == MirrorBytes(data[1..]);
      MirrorBytesBits(data[1..]);
    }
  }

  // ----- The frame check sequence -----

  /** The two FCS bytes, least significant first. */
  function Fcs(body: seq<byte>): seq<byte> {
    var crc := X25(body);
    [LowByte(crc), HighByte(crc)]
  }

  function Not(x: byte): byte { !x }

  lemma MirroredFcs(r: bv16)
    ensures var crc := Xor(Mirror(r), 0xFFFF);
      MirrorByte(LowByte(crc)) == Not(HighByte(r)) && MirrorByte(HighByte(crc)) == Not(LowByte(r))
  {
    MirroredWord(r);
  }

  lemma MirroredWord(r: bv16)
    ensures var crc := Mirror(r) ^ 0xFFFF;
      MirrorByte((crc & 0xFF) as byte) == !((r >> 8) as byte) && MirrorByte((crc >> 8) as byte) == !((r & 0xFF) as byte)
  {}

  lemma ComplementBits(x: byte)
    ensures MsbBits(Not(x)) == Diff(MsbBits(x), seq(8, _ => true))
  {
    ComplementMasks(x);
    var y := Not(x);
    hide Not;
    assert MsbBits(y) == [x & 0x80 == 0, x & 0x40 == 0, x & 0x20 == 0, x & 0x10 == 0,
                          x & 0x08 == 0, x & 0x04 == 0, x & 0x02 == 0, x & 0x01 == 0];
  }

  lemma ComplementMasks(x: byte)
    ensures (Not(x) & 0x80 != 0) == (x & 0x80 == 0) && (Not(x) & 0x40 != 0) == (x & 0x40 == 0)
    ensures (Not(x) & 0x20 != 0) == (x & 0x20 == 0) && (Not(x) & 0x10 != 0) == (x & 0x10 == 0)
    ensures (Not(x) & 0x08 != 0) == (x & 0x08 == 0) && (Not(x) & 0x04 != 0) == (x & 0x04 == 0)
    ensures (Not(x) & 0x02 != 0) == (x & 0x02 == 0) && (Not(x) & 0x01 != 0) == (x & 0x01 == 0)
  {}

  lemma ComplementedTrailer(r: bv16, hi: byte, lo: byte)
    requires Trailer(r) == [hi, lo]
    ensures BitRegister(r, AllBits(MsbBits, [Not(hi), Not(lo)])) == BitRegister(0, seq(16, _ => true))
  {
    hide Xor, FeedBit, Trailer;
    TwoBytes(hi, lo);
    TwoBytes(Not(hi), Not(lo));
    var bits := AllBits(MsbBits, [hi, lo]);
    var ones := seq(16, _ => true);
    ComplementBits(hi);
    ComplementBits(lo);
    assert |MsbBits(hi)| == |MsbBits(lo)| == 8;
    hide MsbBits, Not;
    assert AllBits(MsbBits, [Not(hi), Not(lo)]) == Diff(bits, ones);
    RegisterOfDiff(r, 0, bits, ones);
    Residue(r, hi, lo);
    RegisterIsBitRegister(r, [hi, lo]);
    XorLaws(r, 0, 0);
    XorLaws(0, BitRegister(0, ones), 0);
    XorLaws(BitRegister(0, ones), 0, 0);
  }

  lemma TwoBytes(hi: byte, lo: byte)
    ensures AllBits(MsbBits, [hi, lo]) == MsbBits(hi) + MsbBits(lo)
  {
    hide MsbBits;
    assert [hi, lo][1..] == [lo];
    assert AllBits(MsbBits, [lo]) == MsbBits(lo) + AllBits(MsbBits, []);
  }

  lemma {:induction false} MirrorBytesConcat(a: seq<byte>, b: seq<byte>)
    ensures MirrorBytes(a + b) == MirrorBytes(a) + MirrorBytes(b)
  {
    hide MirrorByte;
    if a == [] {
      assert a + b == b;
    } else {
      assert (a + b)[1..] == a[1..] + b;
      MirrorBytesConcat(a[1..], b);
    }
  }

  /** Every frame that carries its own FCS leaves the same residue, read in transmission order. */
  lemma GoodFrameResidue(body: seq<byte>)
    ensures BitRegister(0xFFFF, AllBits(LsbBits, body + Fcs(body))) == BitRegister(0, seq(16, _ => true))
  {
    hide Mirror, MirrorByte, Xor, FeedBit, Trailer, LsbBits, MsbBits, X25, Fcs, FeedByte;
    var r := Ccitt(MirrorBytes(body));
    var hi, lo := MirroredTrailer(body);
    ComplementedTrailer(r, hi, lo);
    var fcs := Fcs(body);
    MirrorBytesConcat(body, fcs);
    MirrorBytesBits(body + fcs);
    AllBitsConcat(MsbBits, MirrorBytes(body), MirrorBytes(fcs));
    BitRegisterConcat(0xFFFF, AllBits(MsbBits, MirrorBytes(body)), AllBits(MsbBits, MirrorBytes(fcs)));
    RegisterIsBitRegister(0xFFFF, MirrorBytes(body));
  }

  lemma MirroredTrailer(body: seq<byte>) returns (hi: byte, lo: byte)
    ensures Trailer(Ccitt(MirrorBytes(body))) == [hi, lo] && MirrorBytes(Fcs(body)) == [Not(hi), Not(lo)]
  {
    hide Mirror, MirrorByte, Xor, Ccitt, HighByte, LowByte, Not, X25;
    var r := Ccitt(MirrorBytes(body));
    MirrorImage(body);
    MirroredFcs(r);
    hi, lo := HighByte(r), LowByte(r);
    MirrorTwoBytes(LowByte(X25(body)), HighByte(X25(body)));
  }

  lemma MirrorTwoBytes(x: byte, y: byte)
    ensures MirrorBytes([x, y]) == [MirrorByte(x), MirrorByte(y)]
  {
    hide MirrorByte;
    assert [x, y][1..] == [y];
    assert MirrorBytes([y]) == [MirrorByte(y)] + MirrorBytes([]);
  }

  /** Corruption of a frame, counted in the bits as they are sent, is always revealed by the FCS. */
  lemma CorruptFrameHasBadFcs(body: seq<byte>, received: seq<byte>)
    requires |received| >= 2 && DetectableCorruption(LsbBits, body + Fcs(body), received)
    ensures received[|received| - 2..] != Fcs(received[..|received| - 2])
  {
    hide LsbBits, Fcs, FeedBit;
    var sent := body + Fcs(body);
    var body' := received[..|received| - 2];
    var a, b := AllBits(LsbBits, sent), AllBits(LsbBits, received);
    if received[|received| - 2..] == Fcs(body') {
      assert received == body' + Fcs(body');
      GoodFrameResidue(body);
      GoodFrameResidue(body');
      Detected(0xFFFF, a, b);
      assert false;
    }
  }
}
