/** How a receiver reads a frame sent without flags whose first and last byte it takes for flags (protocol/aprs.py). */
module LateRead {
  import opened Bytes
  import opened Ax25

  predicate LooksFlagged(received: seq<byte>) {
    |received| >= 2 && received[0] == AX25_FLAG && received[|received| - 1] == AX25_FLAG
  }

  predicate LowBit(b: byte) { b & 0x01 != 0 }

  /**
   * What tells a reader who starts one byte late where the addresses end: the low bits of the first byte of every
   * address but the first and of the control byte behind them; and that the PID does not pass for a control byte.
   */
  predicate MarksIntact(sent: seq<byte>, received: seq<byte>, addresses: nat) {
    && 7 * addresses + 1 < |sent| == |received|
    && (forall j | 2 <= j <= addresses :: LowBit(received[7 * j]) == LowBit(sent[7 * j]))
    && received[7 * addresses + 1] != AX25_UI_CONTROL
  }

  // ----- Where a frame's marks are -----

  lemma EvenByte(n: nat)
    requires n < 256 && n % 2 == 0
    ensures !LowBit(ByteOf(n))
  {
    EvenNibble((n / 16) as bv4, (n % 16) as bv4);
    NibbleValue(n % 16);
  }

  lemma EvenNibble(hi: bv4, lo: bv4)
    ensures LowBit(((hi as byte) << 4) | (lo as byte)) <==> lo as int % 2 == 1
  {}

  lemma EvenChar(c: char)
    ensures !LowBit(ShiftedChar(c))
  {
    EvenByte((2 * (c as int)) % 256);
  }

  /** The i-th address of a path. */
  lemma {:induction false} AddressAt(path: seq<Address>, i: nat)
    requires AllCanonical(path) && i < |path|
    ensures EncodePath(path).Success? && |EncodePath(path).value| == 7 * |path|
    ensures EncodeAddress(path[i], i == |path| - 1).Success?
    ensures EncodePath(path).value[7 * i..7 * i + 7] == EncodeAddress(path[i], i == |path| - 1).value
    decreases i
  {
    hide EncodeAddress, Canonical;
    EncodePathLength(path);
    assert Canonical(path[0]) && AllCanonical(path[1..]);
    AddressRoundTrip(path[0], |path| == 1);
    EncodePathLength(path[1..]);
    var first, rest := EncodeAddress(path[0], |path| == 1).value, EncodePath(path[1..]).value;
    assert EncodePath(path).value == first + rest;
    if i > 0 {
      AddressAt(path[1..], i - 1);
      assert (first + rest)[7 * i..7 * i + 7] == rest[7 * (i - 1)..7 * (i - 1) + 7];
    }
  }

  /** The addresses as they are sent. */
  function PathOf(a: seq<Address>): (path: seq<Address>)
    requires |a| >= 2
    ensures |path| == |a|
  {
    [a[1], a[0]] + a[2..]
  }

  lemma SentAddress(a: seq<Address>, information: seq<byte>, trailer: seq<byte>, i: nat)
    requires |a| >= 2 && AllCanonical(a) && i < |a|
    ensures |BodyOf(a, information)| == 7 * |a| + 2 + |information|
    ensures Canonical(PathOf(a)[i])
    ensures EncodeAddress(PathOf(a)[i], i == |a| - 1).Success?
    ensures (BodyOf(a, information) + trailer)[7 * i..7 * i + 7] == EncodeAddress(PathOf(a)[i], i == |a| - 1).value
  {
    hide EncodePath, EncodeAddress, Canonical;
    var path := PathOf(a);
    assert AllCanonical(path);
    AddressAt(path, i);
    assert BodyOf(a, information) + trailer
        == EncodePath(path).value + ([AX25_UI_CONTROL, AX25_NO_LAYER3_PID] + information + trailer);
  }

  lemma SentBehind(a: seq<Address>, information: seq<byte>, trailer: seq<byte>)
    requires |a| >= 2 && AllCanonical(a)
    ensures var sent := BodyOf(a, information) + trailer;
      && |sent| == 7 * |a| + 2 + |information| + |trailer|
      && sent[7 * |a|] == AX25_UI_CONTROL && sent[7 * |a| + 1] == AX25_NO_LAYER3_PID
      && sent[7 * |a| + 2..7 * |a| + 2 + |information|] == information
  {
    hide EncodePath, Canonical;
    assert AllCanonical(PathOf(a));
    EncodePathLength(PathOf(a));
  }

  lemma AddressBytes(a: Address, last: bool)
    requires EncodeAddress(a, last).Success?
    ensures var bytes := EncodeAddress(a, last).value;
      && |bytes| == 7 && !LowBit(bytes[0]) && !LowBit(bytes[1])
      && bytes[6] == SsidByte(a.ssid, a.repeated, last)
  {
    var call := SixColumns(UpperAll(a.callsign));
    EvenChar(call[0]);
    EvenChar(call[1]);
    hide LowBit, ShiftedChar;
  }

  lemma SentMarks(a: seq<Address>, information: seq<byte>, trailer: seq<byte>, j: nat)
    requires |a| >= 2 && AllCanonical(a) && j <= |a|
    ensures var sent := BodyOf(a, information) + trailer;
      && |sent| == 7 * |a| + 2 + |information| + |trailer|
      && (LowBit(sent[7 * j]) <==> j == |a|)
      && (j < |a| ==> !LowBit(sent[7 * j + 1]))
  {
    hide EncodeAddress, LowBit, BodyOf, Canonical;
    SentBehind(a, information, trailer);
    ControlIsOdd();
    if j < |a| {
      SentAddress(a, information, trailer, j);
      AddressBytes(PathOf(a)[j], j == |a| - 1);
      var bytes := EncodeAddress(PathOf(a)[j], j == |a| - 1).value;
      assert (BodyOf(a, information) + trailer)[7 * j..7 * j + 7][0] == bytes[0];
      assert (BodyOf(a, information) + trailer)[7 * j..7 * j + 7][1] == bytes[1];
    }
  }

  lemma ControlIsOdd()
    ensures LowBit(AX25_UI_CONTROL) && AX25_NO_LAYER3_PID != AX25_UI_CONTROL
  {}

  // ----- Reading one byte late -----

  /** With its marks every seven bytes, the last of them set, the address loop ends where they say. */
  lemma {:induction false} EndOfPath(data: seq<byte>, last: bool, m: nat)
    requires last <==> m == 0
    requires forall j | 0 <= j < m && 7 * j + 6 < |data| :: LowBit(data[7 * j + 6]) <==> j + 1 == m
    ensures ParsePath(data, last).Success? ==> |data| >= 7 * m && ParsePath(data, last).value.rest == data[7 * m..]
    decreases m
  {
    if m > 0 && |data| >= 7 && DecodeAddress(data[..7]).Success? {
      LastBit(data[..7]);
      assert data[..7][6] == data[7 * 0 + 6];
      forall j | 0 <= j < m - 1 && 7 * j + 6 < |data[7..]|
        ensures LowBit(data[7..][7 * j + 6]) <==> j + 1 == m - 1
      {
        assert data[7..][7 * j + 6] == data[7 * (j + 1) + 6];
      }
      EndOfPath(data[7..], m == 1, m - 1);
      hide DecodeAddress, LowBit;
      if ParsePath(data, last).Success? {
        assert data[7..][7 * (m - 1)..] == data[7 * m..];
      }
    }
  }

  lemma LastBit(data: seq<byte>)
    requires DecodeAddress(data).Success?
    ensures |data| == 7 && DecodeAddress(data).value.1 == LowBit(data[6])
  {}

  /** Where a late reader finds the marks of two and m addresses, and what it takes for the control byte. */
  predicate LateMarks(data: seq<byte>, m: nat) {
    && (forall j | 0 <= j <= m && 7 * j + 13 < |data| :: LowBit(data[7 * j + 13]) <==> j == m)
    && (7 * m + 14 < |data| ==> data[7 * m + 14] != AX25_UI_CONTROL)
  }

  /** Then the control byte read is the PID, and no UI frame's. */
  lemma LateReadFails(data: seq<byte>, m: nat, valid: Option<bool>)
    requires |data| >= 14 && LateMarks(data, m)
    ensures ParseBody(data, valid).Failure?
  {
    hide DecodeAddress, LowBit;
    var dest, src := DecodeAddress(data[..7]), DecodeAddress(data[7..14]);
    if dest.Success? && src.Success? {
      LastBit(data[7..14]);
      assert data[7..14][6] == data[7 * 0 + 13];
      forall j | 0 <= j < m && 7 * j + 6 < |data[14..]|
        ensures LowBit(data[14..][7 * j + 6]) <==> j + 1 == m
      {
        assert data[14..][7 * j + 6] == data[7 * (j + 1) + 13];
      }
      EndOfPath(data[14..], src.value.1, m);
      var path := ParsePath(data[14..], src.value.1);
      if path.Success? && |path.value.rest| >= 2 {
        assert path.value.rest[0] == data[7 * m + 14];
      }
    }
  }

  /** What is parsed is what lies behind the first byte, with or without the last two of it. */
  lemma ParsedIsLate(received: seq<byte>, validate: bool) returns (body: seq<byte>, valid: Option<bool>)
    requires LooksFlagged(received) && Decoded(received, validate).Success?
    ensures 14 <= |body| <= |received| - 2 && forall k | 0 <= k < |body| :: body[k] == received[k + 1]
    ensures Decoded(received, validate) == ParseBody(body, valid)
    ensures validate && |received| >= 20 ==> |body| == |received| - 4
  {
    hide ParseBody, FcsValid;
    var data := StripFlags(received);
    FcsNeedsEighteen(data);
    valid := FcsValid(data);
    body := if valid.Some? && (valid.value || validate) then data[..|data| - 2] else data;
  }

  lemma MarksArrive(sent: seq<byte>, received: seq<byte>, body: seq<byte>, addresses: nat)
    requires addresses >= 2 && MarksIntact(sent, received, addresses)
    requires forall j | 0 <= j <= addresses :: LowBit(sent[7 * j]) <==> j == addresses
    requires |body| < |received| && forall k | 0 <= k < |body| :: body[k] == received[k + 1]
    ensures LateMarks(body, addresses - 2)
  {
    hide LowBit;
    forall j | 0 <= j <= addresses - 2 && 7 * j + 13 < |body|
      ensures LowBit(body[7 * j + 13]) <==> j == addresses - 2
    {
      assert body[7 * j + 13] == received[7 * (j + 2)];
    }
  }

  /** A frame sent without flags that comes to look flagged never decodes while its marks are intact. */
  lemma LateReadRejected(a: seq<Address>, information: seq<byte>, trailer: seq<byte>, received: seq<byte>, validate: bool)
    requires |a| >= 2 && AllCanonical(a)
    requires LooksFlagged(received) && MarksIntact(BodyOf(a, information) + trailer, received, |a|)
    ensures Decoded(received, validate).Failure?
  {
    hide LowBit, ParseBody, BodyOf, Decoded, LooksFlagged, Canonical, LateMarks;
    SentMarks(a, information, trailer, 0);
    var sent := BodyOf(a, information) + trailer;
    if Decoded(received, validate).Success? {
      var body, valid := ParsedIsLate(received, validate);
      forall j | 0 <= j <= |a|
        ensures LowBit(sent[7 * j]) <==> j == |a|
      {
        SentMarks(a, information, trailer, j);
      }
      MarksArrive(sent, received, body, |a|);
      LateReadFails(body, |a| - 2, valid);
    }
  }

  lemma FcsNeedsEighteen(data: seq<byte>)
    ensures FcsValid(data).Some? <==> |data| >= 18
  {}

  // ----- What makes an address readable -----

  lemma NotAllBlank(s: string, i: nat)
    requires i < |s| && !IsSpace(s[i])
    ensures Strip(s) != []
  {
    hide IsSpace;
    LeftNotAllBlank(s, i);
    RightNotAllBlank(StripLeft(s), 0);
  }

  lemma {:induction false} LeftNotAllBlank(s: string, i: nat)
    requires i < |s| && !IsSpace(s[i])
    ensures StripLeft(s) != [] && !IsSpace(StripLeft(s)[0])
    decreases i
  {
    hide IsSpace;
    if IsSpace(s[0]) {
      LeftNotAllBlank(s[1..], i - 1);
    }
  }

  lemma {:induction false} RightNotAllBlank(s: string, i: nat)
    requires i < |s| && !IsSpace(s[i])
    ensures StripRight(s) != []
    decreases |s|
  {
    hide IsSpace;
    if IsSpace(s[|s| - 1]) {
      RightNotAllBlank(s[..|s| - 1], i);
    }
  }

  lemma NotBlankDecodes(data: seq<byte>, i: nat)
    requires |data| == 7 && i < 6 && !IsSpace(UnshiftedChar(data[i]))
    ensures DecodeAddress(data).Success?
  {
    hide UnshiftedChar, IsSpace;
    NotAllBlank(seq(6, i requires 0 <= i < 6 => UnshiftedChar(data[i])), i);
  }
}
