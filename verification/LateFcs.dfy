/** The FCS of a frame that is read one byte late, with its first byte and one more bit changed (protocol/aprs.py). */
module LateFcs {
  import opened Bytes
  import opened Crc
  import opened CrcDetection
  import opened FlipCounts
  import opened FrameCheck

  /** What every good frame leaves in the register. */
  const RESIDUE: bv16 := 0x1D0F

  lemma ResidueValue()
    ensures BitRegister(0, seq(16, _ => true)) == RESIDUE
  {
    var eight := seq(8, _ => true);
    assert eight == [true, true, true, true, true, true, true, true];
    assert seq(16, _ => true) == eight + eight;
    BitRegisterConcat(0, eight, eight);
    EightBitsFed(0, eight, 0x1EF0);
    EightBitsFed(0x1EF0, eight, RESIDUE);
  }

  function Fed(r: bv16, bits: seq<bool>): bv16
    requires |bits| == 8
  {
    FeedBit(FeedBit(FeedBit(FeedBit(FeedBit(FeedBit(FeedBit(FeedBit(r, bits[0]), bits[1]), bits[2]), bits[3]), bits[4]), bits[5]), bits[6]), bits[7])
  }

  lemma EightBitsFed(r: bv16, bits: seq<bool>, s: bv16)
    requires |bits| == 8 && Fed(r, bits) == s
    ensures BitRegister(r, bits) == s
  {
    hide FeedBit;
    FeedNext(r, bits);
    var r1 := FeedBit(r, bits[0]);
    FeedNext(r1, bits[1..]);
    var r2 := FeedBit(r1, bits[1]);
    FeedNext(r2, bits[2..]);
    var r3 := FeedBit(r2, bits[2]);
    FeedNext(r3, bits[3..]);
    var r4 := FeedBit(r3, bits[3]);
    FeedNext(r4, bits[4..]);
    var r5 := FeedBit(r4, bits[4]);
    FeedNext(r5, bits[5..]);
    var r6 := FeedBit(r5, bits[5]);
    FeedNext(r6, bits[6..]);
    var r7 := FeedBit(r6, bits[6]);
    FeedNext(r7, bits[7..]);
    assert bits[1..][1..] == bits[2..] && bits[2..][1..] == bits[3..] && bits[3..][1..] == bits[4..];
    assert bits[4..][1..] == bits[5..] && bits[5..][1..] == bits[6..] && bits[6..][1..] == bits[7..];
  }

  lemma RegisterInjective(r: bv16, s: bv16, bits: seq<bool>)
    ensures BitRegister(r, bits) == BitRegister(s, bits) <==> r == s
  {
    hide FeedBit, Xor, Shifts;
    RegisterOfDiff(r, s, bits, bits);
    FeedZeros(Xor(r, s), Diff(bits, bits));
    ShiftsZero(Xor(r, s), |bits|);
    XorLaws(r, s, 0);
    XorLaws(BitRegister(r, bits), BitRegister(s, bits), 0);
  }

  /** The FCS at the end is right exactly when the residue is. */
  lemma ResidueIff(data: seq<byte>)
    requires |data| >= 2
    ensures data[|data| - 2..] == Fcs(data[..|data| - 2]) <==> BitRegister(0xFFFF, AllBits(LsbBits, data)) == RESIDUE
  {
    hide LsbBits, X25, FeedBit;
    var body := data[..|data| - 2];
    var tail := data[|data| - 2..];
    ResidueValue();
    GoodFrameResidue(body);
    assert data == body + tail;
    if tail != Fcs(body) {
      LastTwoDiffer(body, Fcs(body), tail);
      BurstDetected(0xFFFF, AllBits(LsbBits, body + Fcs(body)), AllBits(LsbBits, data));
    }
  }

  /** Different last two bytes make a burst. */
  lemma LastTwoDiffer(head: seq<byte>, p: seq<byte>, q: seq<byte>)
    requires |p| == |q| == 2 && p != q
    ensures var x, y := AllBits(LsbBits, head + p), AllBits(LsbBits, head + q); |x| == |y| && x != y && BurstOf16(x, y)
  {
    BitLengths(p, q);
    hide LsbBits, BurstOf16;
    AllBitsConcat(LsbBits, head, p);
    AllBitsConcat(LsbBits, head, q);
    var i :| 0 <= i < 2 && p[i] != q[i];
    var k := DifferingByte(p, q, i);
    hide AllBits;
    TailsDiffer(AllBits(LsbBits, head), AllBits(LsbBits, p), AllBits(LsbBits, q), k);
  }

  lemma TailsDiffer(head: seq<bool>, x: seq<bool>, y: seq<bool>, k: nat)
    requires |x| == |y| == 16 && k < 16 && x[k] != y[k]
    ensures head + x != head + y && BurstOf16(head + x, head + y)
  {
    assert (head + x)[|head| + k] != (head + y)[|head| + k];
    assert InWindow(Diff(head + x, head + y), |head|);
  }

  lemma BitLengths(a: seq<byte>, b: seq<byte>)
    ensures |AllBits(LsbBits, a)| == 8 * |a| && |AllBits(LsbBits, b)| == 8 * |b|
  {
    AllBitsLength(LsbBits, a);
    AllBitsLength(LsbBits, b);
  }

  // ----- The late reader's register -----

  lemma FlippedRegister(r: bv16, d: seq<bool>, k: nat)
    requires k < |d| && forall i | 0 <= i < |d| :: d[i] <==> i == k
    ensures BitRegister(r, d) == Shifts(Xor(Shifts(r, k), 0x8000), |d| - k)
  {
    hide Shift, Xor;
    assert d == d[..k] + d[k..] && d[k..] == [true] + d[k + 1..];
    BitRegisterConcat(r, d[..k], d[k..]);
    FeedZeros(r, d[..k]);
    var x := Xor(Shifts(r, k), 0x8000);
    assert BitRegister(Shifts(r, k), d[k..]) == BitRegister(Shift(x), d[k..][1..]);
    assert d[k..][1..] == d[k + 1..];
    FeedZeros(Shift(x), d[k + 1..]);
  }

  lemma SevenThenFlag()
    ensures BitRegister(0xFFFF, LsbBits(0x6E)) == 0xFFA1
    ensures BitRegister(0x9FF0, LsbBits(0x7E)) == RESIDUE
    ensures Xor(0xFFA1, 0xFFFF) == 0x005E && Xor(0x9FF0, RESIDUE) == 0x82FF
  {
    EightBitsFed(0xFFFF, LsbBits(0x6E), 0xFFA1);
    EightBitsFed(0x9FF0, LsbBits(0x7E), RESIDUE);
  }

  /**
   * Whether a good frame of n bytes that starts with 7 and ends with a flag keeps a good FCS when it is read from its
   * second byte to its last but one, with the low bit of byte p flipped. It does not depend on the frame's contents.
   */
  predicate LateFcsPasses(n: nat, p: nat)
    requires 1 <= p < n
  {
    Shifts(Xor(Shifts(0x005E, 8 * (p - 1)), 0x8000), 8 * (n - 1 - p)) == 0x82FF
  }

  lemma FirstAndLast(spell: byte -> seq<bool>, first: byte, inner: seq<byte>, last: byte)
    ensures AllBits(spell, [first] + (inner + [last])) == spell(first) + (AllBits(spell, inner) + spell(last))
  {
    assert AllBits(spell, [last]) == spell(last) + AllBits(spell, [last][1..]);
    AllBitsConcat(spell, inner, [last]);
    assert ([first] + (inner + [last]))[1..] == inner + [last];
  }

  lemma InnerOfSent(sent: seq<byte>)
    requires |sent| >= 2 && sent[0] == 0x6E && sent[|sent| - 1] == 0x7E
    requires BitRegister(0xFFFF, AllBits(LsbBits, sent)) == RESIDUE
    ensures BitRegister(0xFFA1, AllBits(LsbBits, sent[1..|sent| - 1])) == 0x9FF0
  {
    hide LsbBits, FeedBit;
    var inner := AllBits(LsbBits, sent[1..|sent| - 1]);
    assert sent == [sent[0]] + (sent[1..|sent| - 1] + [sent[|sent| - 1]]);
    FirstAndLast(LsbBits, sent[0], sent[1..|sent| - 1], sent[|sent| - 1]);
    SevenThenFlag();
    BitRegisterConcat(0xFFFF, LsbBits(0x6E), inner + LsbBits(0x7E));
    BitRegisterConcat(0xFFA1, inner, LsbBits(0x7E));
    RegisterInjective(BitRegister(0xFFA1, inner), 0x9FF0, LsbBits(0x7E));
  }

  lemma InnerDiff(sent: seq<byte>, inner: seq<byte>, p: nat)
    requires p < |sent| == |inner|
    requires forall i | 0 <= i < |sent| && i != p :: inner[i] == sent[i]
    requires LsbBits(inner[p]) == LsbBits(sent[p])[0 := !LsbBits(sent[p])[0]]
    ensures var x, y := AllBits(LsbBits, sent), AllBits(LsbBits, inner);
      |x| == |y| == 8 * |sent| && forall i | 0 <= i < |x| :: Diff(x, y)[i] <==> i == 8 * p
  {
    BitLengths(sent, inner);
    EightBits(sent[p]);
    hide LsbBits;
    forall i | 0 <= i < 8 * |sent|
      ensures AllBits(LsbBits, sent)[i] != AllBits(LsbBits, inner)[i] <==> i == 8 * p
    {
      var byteAt, bit := i / 8, i % 8;
      assert i == 8 * byteAt + bit;
      BitOfByte(sent, byteAt, bit);
      BitOfByte(inner, byteAt, bit);
    }
  }

  lemma LateFcsIff(sent: seq<byte>, received: seq<byte>, p: nat)
    requires 1 <= p < |sent| - 1 && |received| == |sent| && sent[0] == 0x6E && sent[|sent| - 1] == 0x7E
    requires forall i | 1 <= i < |sent| - 1 && i != p :: received[i] == sent[i]
    requires LsbBits(received[p]) == LsbBits(sent[p])[0 := !LsbBits(sent[p])[0]]
    requires BitRegister(0xFFFF, AllBits(LsbBits, sent)) == RESIDUE
    ensures BitRegister(0xFFFF, AllBits(LsbBits, received[1..|sent| - 1])) == RESIDUE <==> LateFcsPasses(|sent|, p)
  {
    hide LsbBits, FeedBit, Xor, Shifts;
    hide AllBits, BitRegister;
    var n := |sent|;
    var m, m' := sent[1..n - 1], received[1..n - 1];
    InnerOfSent(sent);
    forall i | 0 <= i < n - 2 && i != p - 1
      ensures m'[i] == m[i]
    {
      assert received[i + 1] == sent[i + 1];
    }
    InnerDiff(m, m', p - 1);
    LateRegister(AllBits(LsbBits, m), AllBits(LsbBits, m'), 8 * (p - 1));
  }

  /** Two registers that differ in what came first and in one later bit. */
  lemma TwoRegisters(r: bv16, s: bv16, x: seq<bool>, y: seq<bool>, k: nat)
    requires |x| == |y| && k < |x| && forall i | 0 <= i < |x| :: Diff(x, y)[i] <==> i == k
    ensures Xor(BitRegister(r, x), BitRegister(s, y)) == Shifts(Xor(Shifts(Xor(r, s), k), 0x8000), |x| - k)
  {
    hide FeedBit, Xor, Shifts;
    RegisterOfDiff(r, s, x, y);
    FlippedRegister(Xor(r, s), Diff(x, y), k);
  }

  lemma LateRegister(x: seq<bool>, y: seq<bool>, k: nat)
    requires |x| == |y| && k < |x| && BitRegister(0xFFA1, x) == 0x9FF0
    requires forall i | 0 <= i < |x| :: Diff(x, y)[i] <==> i == k
    ensures BitRegister(0xFFFF, y) == RESIDUE <==> Shifts(Xor(Shifts(0x005E, k), 0x8000), |x| - k) == 0x82FF
  {
    TwoRegisters(0xFFA1, 0xFFFF, x, y, k);
    SevenThenFlag();
    XorCancels(0x9FF0, BitRegister(0xFFFF, y), RESIDUE);
    hide BitRegister, Xor, Shifts, LsbBits, Diff;
  }

  lemma XorCancels(a: bv16, b: bv16, c: bv16)
    ensures Xor(a, b) == Xor(a, c) <==> b == c
  {}
}
