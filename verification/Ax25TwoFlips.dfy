/** Two flips that make a frame sent without flags decode one byte late, and for which frames they can (protocol/aprs.py). */
module Ax25TwoFlips {
  import opened Bytes
  import opened Crc
  import opened CrcDetection
  import opened CrcOrder
  import opened FlipCounts
  import opened FrameCheck
  import opened Ax25
  import opened LateRead
  import opened Ax25Damage
  import opened LateFcs

  // ----- Only the low bit of the control byte can matter -----

  const SEVEN: byte := 0x6E             // '7', shifted
  const CONTROL_FLIPPED: byte := 0x02

  /** The first byte becomes a flag, the last is one already, and the control byte no longer ends the addresses. */
  predicate ControlFlipped(sent: seq<byte>, received: seq<byte>, addresses: nat) {
    && 0 < 7 * addresses && 7 * addresses + 1 < |sent|
    && sent[0] == SEVEN && sent[7 * addresses] == AX25_UI_CONTROL && sent[|sent| - 1] == AX25_FLAG
    && received == sent[0 := AX25_FLAG][7 * addresses := CONTROL_FLIPPED]
  }

  lemma FlippedControl(y: byte)
    requires ByteFlips(AX25_UI_CONTROL, y) == 1 && !LowBit(y)
    ensures y == CONTROL_FLIPPED
  {
    ControlBits();
    EightBits(y);
    assert LsbBits(y)[0] == LowBit(y);
    hide LsbBits, ByteFlips;
    var k := OneFlip(AX25_UI_CONTROL, y);
    assert LsbBits(y) == LsbBits(CONTROL_FLIPPED);
    SameBits(y, CONTROL_FLIPPED);
  }

  lemma ControlBits()
    ensures LsbBits(AX25_UI_CONTROL) == [true, true, false, false, false, false, false, false]
    ensures LsbBits(CONTROL_FLIPPED) == [false, true, false, false, false, false, false, false]
  {}

  /** The bytes one flip away from a flag. */
  function NearFlag(k: nat): byte
    requires k < 8
  {
    [0x7F, 0x7C, 0x7A, 0x76, 0x6E, 0x5E, 0x3E, 0xFE][k]
  }

  lemma NearFlagValue(k: nat)
    requires k < 8
    ensures NearFlag(k) as int == [127, 124, 122, 118, 110, 94, 62, 254][k]
  {}

  lemma NearFlagBits(k: nat)
    requires k < 8
    ensures LsbBits(NearFlag(k)) == LsbBits(AX25_FLAG)[k := !LsbBits(AX25_FLAG)[k]]
  {
    assert LsbBits(0x7E) == [false, true, true, true, true, true, true, false];
    assert LsbBits(0x7F) == [true, true, true, true, true, true, true, false];
    assert LsbBits(0x7C) == [false, false, true, true, true, true, true, false];
    assert LsbBits(0x7A) == [false, true, false, true, true, true, true, false];
    assert LsbBits(0x76) == [false, true, true, false, true, true, true, false];
    assert LsbBits(0x6E) == [false, true, true, true, false, true, true, false];
    assert LsbBits(0x5E) == [false, true, true, true, true, false, true, false];
    assert LsbBits(0x3E) == [false, true, true, true, true, true, false, false];
    assert LsbBits(0xFE) == [false, true, true, true, true, true, true, true];
    hide LsbBits;
  }

  /** Of all callsign characters only 7 is one flip away from a flag. */
  lemma OnlySeven(c: char)
    requires IsDigit(c) || 'A' <= c <= 'Z'
    requires ByteFlips(ShiftedChar(c), AX25_FLAG) == 1
    ensures ShiftedChar(c) == SEVEN
  {
    var x := ShiftedChar(c);
    EightBits(x);
    EightBits(AX25_FLAG);
    hide LsbBits, ByteFlips, ShiftedChar, NearFlag;
    var k := OneFlip(x, AX25_FLAG);
    NearFlagBits(k);
    assert LsbBits(x) == LsbBits(NearFlag(k));
    SameBits(x, NearFlag(k));
    NearFlagValue(k);
    NearFlagIsSeven(k);
  }

  lemma NearFlagIsSeven(k: nat)
    requires k < 8
    ensures k == 4 ==> NearFlag(k) == SEVEN
  {}

  /** A mark set too early ends the addresses at a byte whose low bit is clear: no control byte. */
  lemma EarlyMarkRejected(a: seq<Address>, information: seq<byte>, trailer: seq<byte>, received: seq<byte>, j: nat, validate: bool)
    requires |a| >= 2 && AllCanonical(a) && 2 <= j < |a| && LooksFlagged(received)
    requires var sent := BodyOf(a, information) + trailer;
      && |received| == |sent| == 7 * |a| + 2 + |information| + |trailer|
      && LowBit(received[7 * j]) && forall i | 0 < i < |sent| && i != 7 * j :: received[i] == sent[i]
    ensures Decoded(received, validate).Failure?
  {
    hide BodyOf, Decoded, Canonical, ParseBody, LooksFlagged, LowBit;
    var sent := BodyOf(a, information) + trailer;
    if Decoded(received, validate).Success? {
      var body, valid := ParsedIsLate(received, validate);
      forall k | 0 <= k <= j - 2 && 7 * k + 13 < |body|
        ensures LowBit(body[7 * k + 13]) <==> k == j - 2
      {
        SentMarks(a, information, trailer, k + 2);
        assert body[7 * k + 13] == received[7 * (k + 2)];
      }
      SentMarks(a, information, trailer, j);
      ControlIsOdd();
      assert 7 * (j - 2) + 14 < |body| ==> body[7 * (j - 2) + 14] == received[7 * j + 1];
      LateReadFails(body, j - 2, valid);
    }
  }

  lemma FirstByteOf(a: seq<Address>, information: seq<byte>, trailer: seq<byte>)
    requires |a| >= 2 && AllCanonical(a)
    ensures var c := a[1].callsign; c != [] && (IsDigit(c[0]) || 'A' <= c[0] <= 'Z')
    ensures var sent := BodyOf(a, information) + trailer; sent != [] && sent[0] == ShiftedChar(a[1].callsign[0])
  {
    SentAddress(a, information, trailer, 0);
    SentBehind(a, information, trailer);
    var sent := BodyOf(a, information) + trailer;
    assert sent[0..7][0] == sent[0];
    UpperOfCanonical(a[1]);
    hide BodyOf, ShiftedChar, SsidByte;
  }

  /** The two flips are known once one of the marks is. */
  lemma FlipsAtControl(a: seq<Address>, information: seq<byte>, trailer: seq<byte>, received: seq<byte>)
    requires |a| >= 2 && AllCanonical(a) && LooksFlagged(received) && |trailer| == 2
    requires var sent := BodyOf(a, information) + trailer;
      && |received| == |sent| == 7 * |a| + 2 + |information| + |trailer|
      && sent[0] != received[0] && AllFlips(sent, received) == 2 && LowBit(received[7 * |a|]) != LowBit(sent[7 * |a|])
    ensures ControlFlipped(BodyOf(a, information) + trailer, received, |a|)
  {
    hide BodyOf, Canonical, AllFlips, ByteFlips, LowBit, ShiftedChar, IsDigit;
    var sent := BodyOf(a, information) + trailer;
    SentBehind(a, information, trailer);
    FirstByteOf(a, information, trailer);
    TwoPlaces(sent, received, 0, 7 * |a|);
    ControlIsOdd();
    FlippedControl(received[7 * |a|]);
    OnlySeven(a[1].callsign[0]);
  }

  /** Two flips after which a frame decodes: in the first byte, and in the control byte's low bit. */
  lemma TwoFlipsHitControl(a: seq<Address>, information: seq<byte>, trailer: seq<byte>, received: seq<byte>, validate: bool)
    requires |a| >= 2 && AllCanonical(a) && LooksFlagged(received) && |trailer| == 2
    requires var sent := BodyOf(a, information) + trailer; |received| == |sent| && AllFlips(sent, received) == 2
    requires Decoded(received, validate).Success?
    ensures ControlFlipped(BodyOf(a, information) + trailer, received, |a|)
  {
    hide BodyOf, Decoded, Canonical, AllFlips, ByteFlips, LowBit, LsbBits;
    var sent := BodyOf(a, information) + trailer;
    SentBehind(a, information, trailer);
    FirstByteIsNoFlag(a, information);
    if j :| 2 <= j <= |a| && LowBit(received[7 * j]) != LowBit(sent[7 * j]) {
      if j == |a| {
        FlipsAtControl(a, information, trailer, received);
      } else {
        SentMarks(a, information, trailer, j);
        TwoPlaces(sent, received, 0, 7 * j);
        EarlyMarkRejected(a, information, trailer, received, j, validate);
        assert false;
      }
    } else {
      WithoutByte(sent, received, 7 * |a| + 1);
      ControlFromPid();
      LateReadRejected(a, information, trailer, received, validate);
      assert false;
    }
  }

  /**
   * A frame sent without flags never decodes after a burst, nor after one or three flips, nor after two unless they
   * are those two, nor after any odd number of flips if it has twenty bytes.
   */
  lemma DamagedUnflaggedRejected(source: string, destination: string, information: seq<byte>, digipeaters: seq<string>, received: seq<byte>)
    requires Built(source, destination, information, digipeaters, false, true).Success?
    requires var sent := Built(source, destination, information, digipeaters, false, true).value;
      && |received| == |sent| && DetectableCorruption(LsbBits, sent, received)
      && !ControlFlipped(sent, received, 2 + |digipeaters|)
      && (AllFlips(sent, received) <= 3 || |sent| >= 20 || BurstOf16(AllBits(LsbBits, sent), AllBits(LsbBits, received)))
    ensures Decoded(received, true).Failure?
  {
    hide Built, Decoded, Fcs, BodyOf, LsbBits, Canonical, AllFlips, BurstOf16, LooksFlagged, ControlFlipped;
    var a := SentFrame(source, destination, information, digipeaters);
    var body := BodyOf(a, information);
    var sent := body + Fcs(body);
    FrameLength(a, information);
    TwoFcsBytes(body);
    FlipsByByte(sent, received);
    if !LooksFlagged(received) {
      UnstrippedRejected(body, received);
    } else if BurstOf16(AllBits(LsbBits, sent), AllBits(LsbBits, received)) {
      BurstRejected(a, information, Fcs(body), received, true);
    } else if |sent| < 20 {
      ShortFewRejected(a, information, Fcs(body), received, true);
    } else if AllFlips(sent, received) % 2 == 1 {
      LongOddRejected(body, received);
    } else if Decoded(received, true).Success? {
      TwoFlipsHitControl(a, information, Fcs(body), received, true);
      assert false;
    }
  }

  // ----- What the two flips need -----

  /** With none of its first m marks set, the address loop goes on behind them. */
  lemma {:induction false} LongPath(data: seq<byte>, m: nat)
    requires forall j | 0 <= j < m && 7 * j + 6 < |data| :: !LowBit(data[7 * j + 6])
    requires ParsePath(data, false).Success?
    ensures |data| >= 7 * (m + 1) + |ParsePath(data, false).value.rest|
    decreases m
  {
    LastBit(data[..7]);
    ParsedPathLength(data[7..], DecodeAddress(data[..7]).value.1);
    if m > 0 {
      assert data[..7][6] == data[7 * 0 + 6];
      forall j | 0 <= j < m - 1 && 7 * j + 6 < |data[7..]|
        ensures !LowBit(data[7..][7 * j + 6])
      {
        assert data[7..][7 * j + 6] == data[7 * (j + 1) + 6];
      }
      hide DecodeAddress, LowBit;
      LongPath(data[7..], m - 1);
    }
  }

  lemma LongBody(body: seq<byte>, m: nat, valid: Option<bool>)
    requires |body| >= 14 && ParseBody(body, valid).Success?
    requires forall j | 0 <= j <= m && 7 * j + 13 < |body| :: !LowBit(body[7 * j + 13])
    ensures |body| >= 7 * m + 23
  {
    var src := DecodeAddress(body[7..14]);
    LastBit(body[7..14]);
    hide DecodeAddress, LowBit;
    assert body[7..14][6] == body[7 * 0 + 13];
    forall j | 0 <= j < m && 7 * j + 6 < |body[14..]|
      ensures !LowBit(body[14..][7 * j + 6])
    {
      assert body[14..][7 * j + 6] == body[7 * (j + 1) + 13];
    }
    LongPath(body[14..], m);
  }

  /** The control byte flipped, a frame decodes only with nine bytes of information or more, and only if the late FCS passes. */
  lemma FlippedNeeds(a: seq<Address>, information: seq<byte>, received: seq<byte>)
    requires |a| >= 2 && AllCanonical(a)
    requires var body := BodyOf(a, information); ControlFlipped(body + Fcs(body), received, |a|)
    requires Decoded(received, true).Success?
    ensures |received| >= 7 * |a| + 13 && LateFcsPasses(|received|, 7 * |a|)
  {
    hide BodyOf, Decoded, Canonical, ParseBody, LowBit, Fcs, LateFcsPasses, LsbBits, LooksFlagged;
    var sent := BodyOf(a, information) + Fcs(BodyOf(a, information));
    FlippedLooksFlagged(sent, received, |a|);
    var body, valid := ParsedIsLate(received, true);
    ControlBits();
    forall j | 0 <= j <= |a| - 2 && 7 * j + 13 < |body|
      ensures !LowBit(body[7 * j + 13])
    {
      SentMarks(a, information, Fcs(BodyOf(a, information)), j + 2);
      ControlIsOdd();
      FlippedIsEven();
      assert body[7 * j + 13] == received[7 * (j + 2)];
    }
    LongBody(body, |a| - 2, valid);
    var inner := LateFcsIsGood(received);
    FlippedFcs(BodyOf(a, information), received, |a|, inner);
  }

  lemma FlippedLooksFlagged(sent: seq<byte>, received: seq<byte>, addresses: nat)
    requires ControlFlipped(sent, received, addresses)
    ensures LooksFlagged(received) && |received| == |sent|
  {}

  lemma FlippedIsEven()
    ensures !LowBit(CONTROL_FLIPPED)
  {}

  lemma FlippedFcs(body: seq<byte>, received: seq<byte>, addresses: nat, inner: seq<byte>)
    requires addresses >= 1 && ControlFlipped(body + Fcs(body), received, addresses) && |received| >= 4
    requires received[1..|received| - 1] == inner + Fcs(inner)
    ensures LateFcsPasses(|received|, 7 * addresses)
  {
    var sent := body + Fcs(body);
    ControlBits();
    hide LsbBits, LateFcsPasses, Fcs, FeedBit;
    ResidueValue();
    GoodFrameResidue(body);
    GoodFrameResidue(inner);
    LateFcsIff(sent, received, 7 * addresses);
  }
}
