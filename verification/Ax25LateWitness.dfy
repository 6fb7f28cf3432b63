/** Frames that decode after two flips, wherever the late FCS passes (protocol/aprs.py). */
module Ax25LateWitness {
  import opened Bytes
  import opened Crc
  import opened CrcDetection
  import opened FlipCounts
  import opened FrameCheck
  import opened FcsSteering
  import opened Ax25
  import opened LateRead
  import opened LateFcs
  import opened Ax25Damage
  import opened Ax25TwoFlips

  // ----- Building a frame with any number of plain callsigns -----

  predicate Plain(s: string) {
    1 <= |s| <= 6 && forall i | 0 <= i < |s| :: IsDigit(s[i]) || 'A' <= s[i] <= 'Z'
  }

  lemma {:induction false} PlainRun(s: string)
    requires forall i | 0 <= i < |s| :: IsAlnum(s[i])
    ensures AlnumRun(s) == |s|
    decreases s
  {
    if s != [] {
      PlainRun(s[1..]);
    }
  }

  lemma PlainParses(s: string)
    requires Plain(s)
    ensures ParseCallsign(s) == Success(Address(s, 0, false)) && Canonical(Address(s, 0, false))
  {
    StripPlain(s);
    PlainRun(s);
    assert s[..|s|] == s && UpperAll(s) == s && s[|s|..] == [];
  }

  lemma StripPlain(s: string)
    requires Plain(s)
    ensures Strip(s) == s
  {}

  function Addresses(values: seq<string>): (a: seq<Address>)
    ensures |a| == |values|
  {
    seq(|values|, i requires 0 <= i < |values| => Address(values[i], 0, false))
  }

  lemma {:induction false} AllParse(values: seq<string>)
    requires forall i | 0 <= i < |values| :: Plain(values[i])
    ensures ParseAll(values) == Success(Addresses(values)) && AllCanonical(Addresses(values))
    decreases values
  {
    hide ParseCallsign, Plain, Canonical;
    if values != [] {
      PlainParses(values[0]);
      AllParse(values[1..]);
      assert Addresses(values) == [Address(values[0], 0, false)] + Addresses(values[1..]);
      forall i | 0 <= i < |values|
        ensures Canonical(Addresses(values)[i])
      {
        PlainParses(values[i]);
      }
    }
  }

  lemma BuildsPlain(source: string, destination: string, information: seq<byte>, digipeaters: seq<string>)
    requires Plain(source) && Plain(destination) && forall i | 0 <= i < |digipeaters| :: Plain(digipeaters[i])
    ensures var a := Addresses([source, destination] + digipeaters);
      && AllCanonical(a)
      && Built(source, destination, information, digipeaters, false, true)
         == Success(BodyOf(a, information) + Fcs(BodyOf(a, information)))
  {
    hide ParseCallsign, EncodeAddress, Fcs, Plain, Canonical;
    var values := [source, destination] + digipeaters;
    AllParse(values);
    var a := Addresses(values);
    assert AllCanonical(PathOf(a));
    EncodePathLength(PathOf(a));
  }

  // ----- Reading a path that goes on behind the control byte -----

  predicate Readable(data: seq<byte>, at: nat)
    requires at + 7 <= |data|
  {
    !IsSpace(UnshiftedChar(data[at])) || !IsSpace(UnshiftedChar(data[at + 5]))
  }

  lemma ReadableDecodes(data: seq<byte>)
    requires |data| == 7 && Readable(data, 0)
    ensures DecodeAddress(data).Success? && DecodeAddress(data).value.1 == LowBit(data[6])
  {
    hide IsSpace, UnshiftedChar, DecodeAddress;
    if !IsSpace(UnshiftedChar(data[0])) {
      NotBlankDecodes(data, 0);
    } else {
      NotBlankDecodes(data, 5);
    }
    LastBit(data);
  }

  /** The j-th of m seven-byte groups is an address, marked if it is the last. */
  predicate Group(data: seq<byte>, j: nat, m: nat) {
    7 * j + 7 <= |data| && Readable(data, 7 * j) && (LowBit(data[7 * j + 6]) <==> j + 1 == m)
  }

  lemma {:induction false} GroupsParse(data: seq<byte>, m: nat)
    requires m >= 1 && forall j | 0 <= j < m :: Group(data, j, m)
    ensures |data| >= 7 * m && ParsePath(data, false).Success? && ParsePath(data, false).value.rest == data[7 * m..]
    decreases m
  {
    assert Group(data, 0, m) && Group(data, m - 1, m);
    hide LowBit, IsSpace, UnshiftedChar, DecodeAddress;
    ReadableDecodes(data[..7]);
    if m > 1 {
      var rest, n := data[7..], m - 1;
      forall j | 0 <= j < n
        ensures Group(rest, j, n)
      {
        assert Group(data, j + 1, m);
        assert rest[7 * j] == data[7 * (j + 1)] && rest[7 * j + 5] == data[7 * (j + 1) + 5];
        assert rest[7 * j + 6] == data[7 * (j + 1) + 6];
      }
      GroupsParse(rest, n);
      assert data[7..][7 * (m - 1)..] == data[7 * m..];
    }
  }

  lemma GroupsParseBody(body: seq<byte>, m: nat, valid: Option<bool>)
    requires m >= 3 && forall j | 0 <= j < m :: Group(body, j, m)
    requires |body| >= 7 * m + 2 && body[7 * m] == AX25_UI_CONTROL && body[7 * m + 1] == AX25_NO_LAYER3_PID
    ensures ParseBody(body, valid).Success?
  {
    assert Group(body, 0, m) && Group(body, 1, m);
    hide LowBit, IsSpace, UnshiftedChar, DecodeAddress;
    ReadableDecodes(body[..7]);
    ReadableDecodes(body[7..14]);
    var rest, n := body[14..], m - 2;
    forall j | 0 <= j < n
      ensures Group(rest, j, n)
    {
      assert Group(body, j + 2, m);
      assert rest[7 * j] == body[7 * (j + 2)] && rest[7 * j + 5] == body[7 * (j + 2) + 5];
      assert rest[7 * j + 6] == body[7 * (j + 2) + 6];
    }
    GroupsParse(rest, n);
  }

  // ----- The witness -----

  /** Information that reads as the end of an address, a control byte and a PID; x and y are free. */
  function Bait(x: byte, y: byte, length: nat): (information: seq<byte>)
    requires length >= 9
    ensures |information| == length
  {
    [x, y] + BaitTail(length)
  }

  function BaitTail(length: nat): (tail: seq<byte>)
    requires length >= 9
    ensures |tail| == length - 2
  {
    [0, 0, 0, 0x01, AX25_UI_CONTROL, AX25_NO_LAYER3_PID] + seq(length - 8, _ => 0)
  }

  lemma SsidsReadable()
    ensures !IsSpace(UnshiftedChar(SsidByte(0, false, false))) && !IsSpace(UnshiftedChar(SsidByte(0, false, true)))
    ensures !IsSpace(UnshiftedChar(AX25_NO_LAYER3_PID))
  {
    assert SsidByte(0, false, false) == 0x60 && SsidByte(0, false, true) == 0x61;
    SameValue(0x60, ByteOf(96));
    SameValue(0x61, ByteOf(97));
    SameValue(0xF0, ByteOf(240));
  }

  lemma ByteFacts()
    ensures LowBit(0x01) && !LowBit(CONTROL_FLIPPED)
    ensures ShiftedChar('7') == SEVEN
  {
    Ax25Damage.TwiceTheCode('7', SEVEN);
  }

  /** The frame's parts that a late reader meets. */
  lemma SentByte(a: seq<Address>, information: seq<byte>, trailer: seq<byte>, j: nat)
    requires |a| >= 2 && AllCanonical(a) && j < |a| && PathOf(a)[j].ssid == 0 && !PathOf(a)[j].repeated
    ensures var sent := BodyOf(a, information) + trailer;
      && |sent| == 7 * |a| + 2 + |information| + |trailer|
      && sent[7 * j + 6] == SsidByte(0, false, j == |a| - 1)
  {
    hide BodyOf, EncodeAddress, Canonical;
    SentBehind(a, information, trailer);
    SentAddress(a, information, trailer, j);
    AddressBytes(PathOf(a)[j], j == |a| - 1);
    var sent := BodyOf(a, information) + trailer;
    assert sent[7 * j..7 * j + 7][6] == sent[7 * j + 6];
  }

  lemma WitnessGroup(a: seq<Address>, x: byte, y: byte, length: nat, trailer: seq<byte>, body: seq<byte>, j: nat)
    requires |a| >= 2 && AllCanonical(a) && j <= |a| && length >= 9 && |trailer| == 2
    requires forall i | 0 <= i < |a| :: PathOf(a)[i].ssid == 0 && !PathOf(a)[i].repeated
    requires var sent := BodyOf(a, Bait(x, y, length)) + trailer;
      && |body| == |sent| - 4 == 7 * |a| + length
      && forall k | 0 <= k < |body| :: body[k] == if k + 1 == 7 * |a| then CONTROL_FLIPPED else sent[k + 1]
    ensures Group(body, j, |a| + 1)
  {
    hide BodyOf, Canonical, LowBit, IsSpace, UnshiftedChar, SsidByte;
    var information := Bait(x, y, length);
    var sent := BodyOf(a, information) + trailer;
    SsidsReadable();
    ByteFacts();
    SentBehind(a, information, trailer);
    SentMarks(a, information, trailer, if j < |a| then j + 1 else j);
    if j < |a| {
      SentByte(a, information, trailer, j);
      assert body[7 * j + 5] == sent[7 * j + 6];
      assert j + 1 < |a| ==> body[7 * j + 6] == sent[7 * (j + 1)];
    } else {
      assert information[5] == 0x01;
      assert sent[7 * |a| + 2..7 * |a| + 2 + |information|][5] == sent[7 * |a| + 7];
      assert body[7 * j] == sent[7 * |a| + 1] && body[7 * j + 6] == sent[7 * |a| + 7];
    }
  }

  lemma WitnessParses(a: seq<Address>, x: byte, y: byte, length: nat, trailer: seq<byte>, body: seq<byte>, valid: Option<bool>)
    requires |a| >= 2 && AllCanonical(a) && length >= 9 && |trailer| == 2
    requires forall i | 0 <= i < |a| :: PathOf(a)[i].ssid == 0 && !PathOf(a)[i].repeated
    requires var sent := BodyOf(a, Bait(x, y, length)) + trailer;
      && |body| == |sent| - 4 == 7 * |a| + length
      && forall k | 0 <= k < |body| :: body[k] == if k + 1 == 7 * |a| then CONTROL_FLIPPED else sent[k + 1]
    ensures ParseBody(body, valid).Success?
  {
    hide BodyOf, Canonical, Group, PathOf, ParseBody;
    var information := Bait(x, y, length);
    var sent := BodyOf(a, information) + trailer;
    SentBehind(a, information, trailer);
    var n := |a| + 1;
    forall j | 0 <= j < n
      ensures Group(body, j, n)
    {
      WitnessGroup(a, x, y, length, trailer, body, j);
    }
    var at := 7 * |a| + 2;
    assert sent[at..at + |information|][6] == sent[at + 6] && sent[at..at + |information|][7] == sent[at + 7];
    assert information[6] == AX25_UI_CONTROL && information[7] == AX25_NO_LAYER3_PID;
    assert body[7 * n] == sent[at + 6] && body[7 * n + 1] == sent[at + 7];
    GroupsParseBody(body, n, valid);
  }

  lemma BodyInParts(a: seq<Address>, x: byte, y: byte, length: nat)
    requires |a| >= 2 && AllCanonical(a) && length >= 9
    ensures BodyOf(a, Bait(x, y, length)) == BodyOf(a, []) + [x, y] + BaitTail(length)
  {
    hide EncodePath, BaitTail;
  }

  lemma OneFlipEach()
    ensures ByteFlips(SEVEN, AX25_FLAG) == 1 && ByteFlips(AX25_UI_CONTROL, CONTROL_FLIPPED) == 1
  {
    ControlBits();
    SevenBits();
    assert NearFlag(4) == SEVEN;
    NearFlagBits(4);
    hide LsbBits, Ones;
    OneOne(Diff(LsbBits(SEVEN), LsbBits(AX25_FLAG)), 4);
    OneOne(Diff(LsbBits(AX25_UI_CONTROL), LsbBits(CONTROL_FLIPPED)), 0);
  }

  lemma SevenBits()
    ensures LsbBits(SEVEN) == [false, true, true, true, false, true, true, false]
    ensures LsbBits(AX25_FLAG) == [false, true, true, true, true, true, true, false]
  {}

  lemma FlippedTwice(sent: seq<byte>, received: seq<byte>, addresses: nat)
    requires ControlFlipped(sent, received, addresses)
    ensures AllFlips(sent, received) == 2
  {
    OneFlipEach();
    hide AllFlips, ByteFlips;
    var at := 7 * addresses;
    WithoutByte(sent, received, 0);
    WithoutByte(sent, received[0 := sent[0]], at);
    SameBytesIff(sent, sent);
    assert received[0 := sent[0]][at := sent[at]] == sent;
  }

  /** A good frame whose control byte is flipped this way passes its late FCS check where the length says so. */
  lemma LateFcsHolds(body: seq<byte>, received: seq<byte>, addresses: nat)
    requires addresses >= 1 && ControlFlipped(body + Fcs(body), received, addresses) && |received| >= 20
    requires LateFcsPasses(|received|, 7 * addresses)
    ensures FcsValid(received[1..|received| - 1]) == Some(true)
  {
    var sent := body + Fcs(body);
    ControlBits();
    hide LsbBits, LateFcsPasses, X25, FeedBit;
    ResidueValue();
    GoodFrameResidue(body);
    LateFcsIff(sent, received, 7 * addresses);
    ResidueIff(received[1..|received| - 1]);
  }

  lemma WitnessAddresses(count: nat, digipeaters: seq<string>)
    requires count >= 2 && digipeaters == seq(count - 2, _ => "A")
    ensures var a := Addresses(["A", "7"] + digipeaters);
      && |a| == count && a[1].callsign == "7"
      && forall i | 0 <= i < |a| :: PathOf(a)[i].ssid == 0 && !PathOf(a)[i].repeated
  {}

  /** The frame of those addresses and that length whose last byte is a flag. */
  lemma WitnessFrame(a: seq<Address>, length: nat) returns (information: seq<byte>, x: byte, y: byte)
    requires |a| >= 2 && AllCanonical(a) && a[1].callsign == "7" && length >= 9
    ensures information == Bait(x, y, length)
    ensures var body := BodyOf(a, information);
      && |body + Fcs(body)| == 7 * |a| + 4 + length
      && (body + Fcs(body))[0] == SEVEN && (body + Fcs(body))[7 * |a|] == AX25_UI_CONTROL
      && (body + Fcs(body))[7 * |a| + 3 + length] == AX25_FLAG
  {
    hide BodyOf, Canonical, ShiftedChar, HighByte, LowByte, X25;
    x, y := EndsWithFlag(BodyOf(a, []), BaitTail(length));
    information := Bait(x, y, length);
    var body := BodyOf(a, information);
    BodyInParts(a, x, y, length);
    FrameLength(a, information);
    FirstByteOf(a, information, Fcs(body));
    ByteFacts();
    SentBehind(a, information, Fcs(body));
  }

  lemma LateDecodes(a: seq<Address>, x: byte, y: byte, length: nat, received: seq<byte>)
    requires |a| >= 2 && AllCanonical(a) && length >= 9
    requires forall i | 0 <= i < |a| :: PathOf(a)[i].ssid == 0 && !PathOf(a)[i].repeated
    requires var body := BodyOf(a, Bait(x, y, length));
      ControlFlipped(body + Fcs(body), received, |a|)
    requires |received| == 7 * |a| + 4 + length && LateFcsPasses(|received|, 7 * |a|)
    ensures Decoded(received, true).Success?
  {
    hide BodyOf, Canonical, ParseBody, Bait, LateFcsPasses, PathOf, FcsValid;
    var body := BodyOf(a, Bait(x, y, length));
    LateFcsHolds(body, received, |a|);
    TwoFcsBytes(body);
    hide Fcs;
    var data := received[1..|received| - 1];
    var inner := data[..|data| - 2];
    forall k | 0 <= k < |inner|
      ensures inner[k] == if k + 1 == 7 * |a| then CONTROL_FLIPPED else (body + Fcs(body))[k + 1]
    {
      assert inner[k] == received[k + 1];
    }
    WitnessParses(a, x, y, length, Fcs(body), inner, Some(true));
  }

  /** Wherever the late FCS passes and there is room behind the control byte, two flips make some frame decode. */
  lemma TwoFlipsDecode(addresses: nat, n: nat) returns (digipeaters: seq<string>, information: seq<byte>, received: seq<byte>)
    requires addresses >= 2 && n >= 7 * addresses + 13 && LateFcsPasses(n, 7 * addresses)
    ensures |digipeaters| == addresses - 2
    ensures var built := Built("A", "7", information, digipeaters, false, true);
      && built.Success? && |built.value| == n == |received|
      && AllFlips(built.value, received) == 2 && Decoded(received, true).Success?
  {
    hide Built, BodyOf, Canonical, Decoded, Fcs, LateFcsPasses, AllFlips, Bait, Addresses, PathOf;
    digipeaters := seq(addresses - 2, _ => "A");
    var a := Addresses(["A", "7"] + digipeaters);
    WitnessAddresses(addresses, digipeaters);
    BuildsPlain("A", "7", [], digipeaters);
    var x, y;
    information, x, y := WitnessFrame(a, n - 7 * addresses - 4);
    BuildsPlain("A", "7", information, digipeaters);
    var sent := BodyOf(a, information) + Fcs(BodyOf(a, information));
    received := sent[0 := AX25_FLAG][7 * addresses := CONTROL_FLIPPED];
    FlippedTwice(sent, received, addresses);
    LateDecodes(a, x, y, n - 7 * addresses - 4, received);
  }
}
