/** Any two bytes of a body can be chosen so that its FCS comes out as wanted. */
module FcsSteering {
  import opened Bytes
  import opened Crc
  import opened CrcDetection
  import opened FrameCheck

  function Unshift(r: bv16): bv16 {
    if r & 1 != 0 then ((r ^ 0x1021) >> 1) | 0x8000 else r >> 1
  }

  lemma ShiftOfUnshift(r: bv16)
    ensures Shift(Unshift(r)) == r
  {}

  function Unshifts(r: bv16, n: nat): bv16 {
    if n == 0 then r else Unshift(Unshifts(r, n - 1))
  }

  lemma {:induction false} ShiftsOfUnshifts(r: bv16, n: nat)
    ensures Shifts(Unshifts(r, n), n) == r
    decreases n
  {
    hide Shift, Unshift;
    if n > 0 {
      ShiftOfUnshift(Unshifts(r, n - 1));
      ShiftsOfUnshifts(r, n - 1);
    }
  }

  /** The register from which the data leads to t. */
  function Before(t: bv16, data: seq<byte>): bv16
    decreases data
  {
    if data == [] then t else Xor(Unshifts(Before(t, data[1..]), 8), (data[0] as bv16) << 8)
  }

  lemma FeedsBack(r: bv16, b: byte)
    ensures FeedByte(Xor(Unshifts(r, 8), (b as bv16) << 8), b) == r
  {
    var x := (b as bv16) << 8;
    XorLaws(Unshifts(r, 8), x, x);
    XorLaws(x, x, 0);
    ShiftsOfUnshifts(r, 8);
    XorLaws(Unshifts(r, 8), 0, 0);
    hide Xor, Shifts, Unshifts;
  }

  lemma {:induction false} LeadsTo(t: bv16, data: seq<byte>)
    ensures Register(Before(t, data), data) == t
    decreases data
  {
    hide FeedByte, Xor, Unshifts;
    if data != [] {
      FeedsBack(Before(t, data[1..]), data[0]);
      LeadsTo(t, data[1..]);
    }
  }

  lemma ZeroBits()
    ensures AllBits(MsbBits, [0, 0]) == seq(16, _ => false)
  {
    TwoBytes(0, 0);
    assert MsbBits(0) == [false, false, false, false, false, false, false, false];
    hide MsbBits;
  }

  /** Two bytes take any register to any other. */
  lemma TwoBytesLead(r: bv16, t: bv16) returns (hi: byte, lo: byte)
    ensures Register(r, [hi, lo]) == t
  {
    var q := Before(t, [0, 0]);
    hi, lo := HighByte(Xor(r, q)), LowByte(Xor(r, q));
    LeadsTo(t, [0, 0]);
    ZeroBits();
    TwoBytes(hi, lo);
    assert |MsbBits(hi)| == |MsbBits(lo)| == 8;
    hide MsbBits, FeedBit, FeedByte, HighByte, LowByte, Before, Xor;
    var bits, zeros := AllBits(MsbBits, [hi, lo]), AllBits(MsbBits, [0, 0]);
    assert Diff(bits, zeros) == bits;
    RegisterOfDiff(r, q, bits, zeros);
    RegisterIsBitRegister(r, [hi, lo]);
    RegisterIsBitRegister(q, [0, 0]);
    RegisterIsBitRegister(Xor(r, q), [hi, lo]);
    Residue(Xor(r, q), hi, lo);
    XorLaws(Register(r, [hi, lo]), t, 0);
  }

  lemma MirrorTwice(x: byte)
    ensures MirrorByte(MirrorByte(x)) == x
  {}

  lemma TargetFcs()
    ensures HighByte(Xor(Mirror(0xFF81), 0xFFFF)) == 0x7E
  {}

  /** The last FCS byte can be made a flag. */
  lemma EndsWithFlag(head: seq<byte>, tail: seq<byte>) returns (x: byte, y: byte)
    ensures HighByte(X25(head + [x, y] + tail)) == 0x7E
  {
    var r := Register(0xFFFF, MirrorBytes(head));
    var hi, lo := TwoBytesLead(r, Before(0xFF81, MirrorBytes(tail)));
    x, y := MirrorByte(hi), MirrorByte(lo);
    MirrorTwice(hi);
    MirrorTwice(lo);
    MirrorTwoBytes(x, y);
    LeadsTo(0xFF81, MirrorBytes(tail));
    TargetFcs();
    hide MirrorByte, Mirror, Register, Before, HighByte, Xor;
    MirrorBytesConcat(head + [x, y], tail);
    MirrorBytesConcat(head, [x, y]);
    RegisterConcat(0xFFFF, MirrorBytes(head) + [hi, lo], MirrorBytes(tail));
    RegisterConcat(0xFFFF, MirrorBytes(head), [hi, lo]);
    MirrorImage(head + [x, y] + tail);
  }
}
