/** Frames received without flags, whose damage makes them look flagged (protocol/aprs.py). */
module Ax25Damage {
  import opened Bytes
  import opened Crc
  import opened CrcDetection
  import opened CrcOrder
  import opened FlipCounts
  import opened FrameCheck
  import opened Ax25
  import opened LateRead

  // ----- A burst that reaches the first byte leaves the marks alone -----

  lemma BurstStaysNear(sent: seq<byte>, received: seq<byte>, i: nat)
    requires 3 <= i < |sent| == |received| && sent[0] != received[0]
    requires |AllBits(LsbBits, sent)| == |AllBits(LsbBits, received)|
    requires BurstOf16(AllBits(LsbBits, sent), AllBits(LsbBits, received))
    ensures sent[i] == received[i]
  {
    hide LsbBits;
    var near := DifferingByte(sent, received, 0);
    var d := Diff(AllBits(LsbBits, sent), AllBits(LsbBits, received));
    var k: nat :| InWindow(d, k);
    if sent[i] != received[i] {
      var far := DifferingByte(sent, received, i);
      assert false;
    }
  }

  lemma BurstRejected(a: seq<Address>, information: seq<byte>, trailer: seq<byte>, received: seq<byte>, validate: bool)
    requires |a| >= 2 && AllCanonical(a) && LooksFlagged(received)
    requires var sent := BodyOf(a, information) + trailer;
      && |received| == |sent| && |AllBits(LsbBits, sent)| == |AllBits(LsbBits, received)|
      && BurstOf16(AllBits(LsbBits, sent), AllBits(LsbBits, received))
    ensures Decoded(received, validate).Failure?
  {
    hide BodyOf, Decoded, LowBit, Canonical, LsbBits, BurstOf16;
    var sent := BodyOf(a, information) + trailer;
    SentMarks(a, information, trailer, 0);
    SentBehind(a, information, trailer);
    FirstByteIsNoFlag(a, information);
    ControlIsOdd();
    forall i | 3 <= i < |sent|
      ensures received[i] == sent[i]
    {
      BurstStaysNear(sent, received, i);
    }
    LateReadRejected(a, information, trailer, received, validate);
  }

  // ----- An odd number of flips: all good frames have one parity, and two flags do not change it -----

  lemma SameParity(body: seq<byte>, other: seq<byte>)
    ensures Ones(AllBits(LsbBits, body + Fcs(body))) % 2 == Ones(AllBits(LsbBits, other + Fcs(other))) % 2
  {
    hide Parity, LsbBits, Fcs, FeedBit;
    GoodFrameResidue(body);
    GoodFrameResidue(other);
    ParityOfRegister(0xFFFF, AllBits(LsbBits, body + Fcs(body)));
    ParityOfRegister(0xFFFF, AllBits(LsbBits, other + Fcs(other)));
  }

  lemma OnesOfFlagged(received: seq<byte>)
    requires LooksFlagged(received)
    ensures Ones(AllBits(LsbBits, received)) == 12 + Ones(AllBits(LsbBits, received[1..|received| - 1]))
  {
    var inner := received[1..|received| - 1];
    assert received == [AX25_FLAG] + inner + [AX25_FLAG];
    FlagBits();
    hide LsbBits;
    AllBitsConcat(LsbBits, [AX25_FLAG], inner);
    AllBitsConcat(LsbBits, [AX25_FLAG] + inner, [AX25_FLAG]);
    OnesConcat(AllBits(LsbBits, [AX25_FLAG]), AllBits(LsbBits, inner));
    OnesConcat(AllBits(LsbBits, [AX25_FLAG] + inner), AllBits(LsbBits, [AX25_FLAG]));
  }

  lemma FlagBits()
    ensures Ones(AllBits(LsbBits, [AX25_FLAG])) == 6
  {
    var three := [true, true, true];
    assert LsbBits(AX25_FLAG) == [false] + (three + three) + [false];
    assert [AX25_FLAG][1..] == [] && AllBits(LsbBits, [AX25_FLAG]) == [false] + (three + three) + [false];
    hide LsbBits, AllBits;
    assert three[1..] == [true, true] && three[1..][1..] == [true] && three[1..][1..][1..] == [];
    OnesConcat(three, three);
    NoOnes([false]);
    hide Ones;
    OnesConcat([false], three + three);
    OnesConcat([false] + (three + three), [false]);
  }

  /** Behind an FCS check that passes, what is between the first and the last byte carries its own FCS. */
  lemma LateFcsIsGood(received: seq<byte>) returns (inner: seq<byte>)
    requires LooksFlagged(received) && |received| >= 20 && Decoded(received, true).Success?
    ensures received[1..|received| - 1] == inner + Fcs(inner)
  {
    hide ParseBody, Fcs;
    var data := received[1..|received| - 1];
    inner := data[..|data| - 2];
    assert data == inner + data[|data| - 2..];
  }

  lemma LongOddRejected(body: seq<byte>, received: seq<byte>)
    requires LooksFlagged(received) && 20 <= |received| == |body + Fcs(body)|
    requires AllFlips(body + Fcs(body), received) % 2 == 1
    ensures Decoded(received, true).Failure?
  {
    hide LsbBits, Fcs, Decoded, AllFlips, LooksFlagged;
    if Decoded(received, true).Success? {
      var inner := LateFcsIsGood(received);
      OnesOfFlagged(received);
      SameParity(body, inner);
      FlipsByByte(body + Fcs(body), received);
      OnesParity(AllBits(LsbBits, body + Fcs(body)), AllBits(LsbBits, received));
      assert false;
    }
  }

  /** Eighteen or nineteen bytes that look flagged are too short for an FCS check. */
  lemma ShortFrameDecodes(received: seq<byte>)
    requires 18 <= |received| <= 19 && LooksFlagged(received)
    requires !IsSpace(UnshiftedChar(received[1])) && !IsSpace(UnshiftedChar(received[13])) && LowBit(received[14])
    requires received[15] == AX25_UI_CONTROL && received[16] == AX25_NO_LAYER3_PID
    ensures Decoded(received, true).Success?
  {
    hide IsSpace, UnshiftedChar, DecodeAddress, LowBit;
    var data := received[1..|received| - 1];
    assert StripFlags(received) == data && FcsValid(data) == None;
    assert data[..7][0] == received[1] && data[7..14][5] == received[13] && data[7..14][6] == received[14];
    NotBlankDecodes(data[..7], 0);
    NotBlankDecodes(data[7..14], 5);
    LastBit(data[7..14]);
    assert data[14..][0] == received[15] && data[14..][1] == received[16];
  }

  lemma LetterBytes()
    ensures ShiftedChar('A') == 0x82 && ShiftedChar('C') == 0x86
  {
    TwiceTheCode('A', 0x82);
    TwiceTheCode('C', 0x86);
    hide ShiftedChar;
  }

  lemma TwiceTheCode(c: char, b: byte)
    requires (c as int) < 128 && b as int == 2 * (c as int)
    ensures ShiftedChar(c) == b
  {
    hide ByteOf, ShiftedChar, HalfChar;
    Ax25.HalfOfDouble(c);
    SameValue(ShiftedChar(c), b);
  }

  lemma NeighbouringLetters()
    ensures ByteFlips(ShiftedChar('A'), ShiftedChar('A')) == 0 && ByteFlips(ShiftedChar('A'), ShiftedChar('C')) == 1
  {
    LetterBytes();
    hide ShiftedChar, LsbBits, Ones;
    OneBitApart();
    NoOnes(Diff(LsbBits(0x82), LsbBits(0x82)));
    OneOne(Diff(LsbBits(0x82), LsbBits(0x86)), 2);
  }

  lemma OneBitApart()
    ensures |LsbBits(0x82)| == |LsbBits(0x86)| == 8
    ensures forall k | 0 <= k < 8 :: LsbBits(0x82)[k] != LsbBits(0x86)[k] <==> k == 2
  {
    assert LsbBits(0x82) == [false, true, false, false, false, false, false, true];
    assert LsbBits(0x86) == [false, true, true, false, false, false, false, true];
  }

  /** Whatever a byte is, it differs from these two in numbers of bits of different parity. */
  lemma EitherParity(x: byte)
    ensures ByteFlips(x, ShiftedChar('A')) % 2 != ByteFlips(x, ShiftedChar('C')) % 2
  {
    NeighbouringLetters();
    var a, c := ShiftedChar('A'), ShiftedChar('C');
    EightBits(x);
    EightBits(a);
    EightBits(c);
    hide LsbBits, Ones, ShiftedChar;
    OnesParity(LsbBits(x), LsbBits(a));
    OnesParity(LsbBits(x), LsbBits(c));
    OnesParity(LsbBits(a), LsbBits(c));
  }

  lemma NotBlank()
    ensures !IsSpace(UnshiftedChar(ShiftedChar('A'))) && !IsSpace(UnshiftedChar(ShiftedChar('C')))
  {
    CharRoundTrip('A');
    CharRoundTrip('C');
  }

  /** Every frame that short can be damaged in an odd number of bits so that it decodes. */
  lemma ShortOddDecodes(sent: seq<byte>) returns (received: seq<byte>)
    requires 18 <= |sent| <= 19
    ensures |received| == |sent| && AllFlips(sent, received) % 2 == 1 && Decoded(received, true).Success?
  {
    hide Decoded, ByteFlips, AllFlips, LowBit, IsSpace, UnshiftedChar, ShiftedChar;
    var a, c := ShiftedChar('A'), ShiftedChar('C');
    var first := [AX25_FLAG, a] + seq(11, _ => 0) + [a, AX25_UI_CONTROL, AX25_UI_CONTROL, AX25_NO_LAYER3_PID]
      + seq(|sent| - 18, _ => 0) + [AX25_FLAG];
    var second := first[1 := c];
    NotBlank();
    ControlIsOdd();
    ShortFrameDecodes(first);
    ShortFrameDecodes(second);
    FlipsUpdated(sent, first, 1, c);
    EitherParity(sent[1]);
    received := if AllFlips(sent, first) % 2 == 1 then first else second;
  }

  lemma SentFrame(source: string, destination: string, information: seq<byte>, digipeaters: seq<string>) returns (a: seq<Address>)
    requires Built(source, destination, information, digipeaters, false, true).Success?
    ensures |a| == 2 + |digipeaters| && AllCanonical(a)
    ensures Built(source, destination, information, digipeaters, false, true) == Success(BodyOf(a, information) + Fcs(BodyOf(a, information)))
  {
    a := BuiltBody(source, destination, information, digipeaters, false, true);
    hide Built, Fcs, BodyOf, Canonical, ParseCallsign;
    ParseAllLength([source, destination] + digipeaters);
  }

  /** A frame whose first and last byte are not taken for flags fails the FCS check. */
  lemma UnstrippedRejected(body: seq<byte>, received: seq<byte>)
    requires !LooksFlagged(received) && |received| >= 18 && DetectableCorruption(LsbBits, body + Fcs(body), received)
    ensures Decoded(received, true) == Failure(BadFcs)
  {
    hide LsbBits, Fcs, Detectable;
    CorruptFrameHasBadFcs(body, received);
  }

  lemma FrameLength(a: seq<Address>, information: seq<byte>)
    requires |a| >= 2 && AllCanonical(a)
    ensures |BodyOf(a, information)| == 7 * |a| + 2 + |information|
    ensures |BodyOf(a, information) + Fcs(BodyOf(a, information))| == 7 * |a| + 4 + |information|
  {
    hide BodyOf, Canonical, X25;
    SentBehind(a, information, []);
    TwoFcsBytes(BodyOf(a, information));
    assert BodyOf(a, information) + [] == BodyOf(a, information);
  }

  lemma OddIsDetectable(sent: seq<byte>, received: seq<byte>)
    requires |sent| == |received| && AllFlips(sent, received) % 2 == 1
    ensures DetectableCorruption(LsbBits, sent, received)
  {
    hide LsbBits, AllFlips, BurstOf16, Ones;
    FlipsByByte(sent, received);
  }

  /** Every odd damage of this frame is refused. */
  ghost predicate OddRefused(sent: seq<byte>) {
    forall received: seq<byte> | |received| == |sent| && AllFlips(sent, received) % 2 == 1 :: Decoded(received, true).Failure?
  }

  /**
   * A frame sent without flags: every odd damage of it is refused exactly when it has twenty bytes or more, that is,
   * a digipeater or two bytes of information.
   */
  lemma OddDamageRefusedIff(source: string, destination: string, information: seq<byte>, digipeaters: seq<string>)
    requires Built(source, destination, information, digipeaters, false, true).Success?
    ensures var sent := Built(source, destination, information, digipeaters, false, true).value;
      && |sent| == 18 + 7 * |digipeaters| + |information|
      && (OddRefused(sent) <==> |sent| >= 20)
  {
    hide Built, BodyOf, Fcs, Canonical, Decoded, LooksFlagged, AllFlips, LsbBits, Detectable;
    var a := SentFrame(source, destination, information, digipeaters);
    var body := BodyOf(a, information);
    var sent := body + Fcs(body);
    FrameLength(a, information);
    if |sent| >= 20 {
      forall received: seq<byte> | |received| == |sent| && AllFlips(sent, received) % 2 == 1
        ensures Decoded(received, true).Failure?
      {
        if LooksFlagged(received) {
          LongOddRejected(body, received);
        } else {
          OddIsDetectable(sent, received);
          UnstrippedRejected(body, received);
        }
      }
    } else {
      var received := ShortOddDecodes(sent);
    }
  }

  // ----- Few flips -----

  /** A short body parses only if the byte read as control is one. */
  lemma ShortBodyNeedsControl(body: seq<byte>, valid: Option<bool>)
    requires 14 <= |body| < 21 && ParseBody(body, valid).Success?
    ensures |body| > 14 && body[14] == AX25_UI_CONTROL
  {
    hide DecodeAddress;
  }

  lemma ControlFromPid()
    ensures ByteFlips(AX25_NO_LAYER3_PID, AX25_UI_CONTROL) == 6
  {
    var d := Diff(LsbBits(AX25_NO_LAYER3_PID), LsbBits(AX25_UI_CONTROL));
    assert d == ([true, true] + [false, false]) + ([true, true] + [true, true]);
    hide LsbBits, Diff;
    assert [true, true][1..] == [true] && [true][1..] == [];
    assert Ones([true, true]) == 2;
    NoOnes([false, false]);
    hide Ones;
    OnesConcat([true, true], [false, false]);
    OnesConcat([true, true], [true, true]);
    OnesConcat([true, true] + [false, false], [true, true] + [true, true]);
  }

  /** Up to three flips do not make a control byte of the PID of a short frame. */
  lemma ShortFewRejected(a: seq<Address>, information: seq<byte>, trailer: seq<byte>, received: seq<byte>, validate: bool)
    requires |a| >= 2 && AllCanonical(a) && LooksFlagged(received)
    requires var sent := BodyOf(a, information) + trailer; |received| == |sent| < 20 && |trailer| == 2 && AllFlips(sent, received) <= 3
    ensures Decoded(received, validate).Failure?
  {
    hide BodyOf, Decoded, Canonical, ParseBody, LooksFlagged, AllFlips, ByteFlips;
    SentBehind(a, information, trailer);
    var sent := BodyOf(a, information) + trailer;
    if Decoded(received, validate).Success? {
      var body, valid := ParsedIsLate(received, validate);
      ShortBodyNeedsControl(body, valid);
      WithoutByte(sent, received, 15);
      ControlFromPid();
      assert false;
    }
  }
}
