/** AX.25 addresses and UI frames (protocol/aprs.py). */
module Ax25 {
  import opened Bytes
  import opened Crc
  import opened CrcOrder
  import opened FrameCheck

  const AX25_FLAG: byte := 0x7E
  const AX25_UI_CONTROL: byte := 0x03
  const AX25_NO_LAYER3_PID: byte := 0xF0

  datatype Address = Address(callsign: string, ssid: int, repeated: bool)

  datatype Frame = Frame(
    destination: Address,
    source: Address,
    digipeaters: seq<Address>,
    control: byte,
    pid: byte,
    information: seq<byte>,
    fcsValid: Option<bool>)

  datatype Ax25Error =
    | InvalidCallsign | SsidOutOfRange                            // building
    | TooShort | BadFcs | AddressLength | EmptyCallsign           // parsing
    | DigipeaterTruncated | ControlMissing | NotUi | WrongPid

  // ----- Callsigns -----

  /** The characters str.strip removes. */
  predicate IsSpace(c: char) {
    var n := c as int;
    9 <= n <= 13 || 28 <= n <= 32 || n == 0x85 || n == 0xA0 || n == 0x1680 || 0x2000 <= n <= 0x200A ||
    n == 0x2028 || n == 0x2029 || n == 0x202F || n == 0x205F || n == 0x3000
  }

  function StripLeft(s: string): string {
    if s != [] && IsSpace(s[0]) then StripLeft(s[1..]) else s
  }

  function StripRight(s: string): string {
    if s != [] && IsSpace(s[|s| - 1]) then StripRight(s[..|s| - 1]) else s
  }

  function Strip(s: string): string { StripRight(StripLeft(s)) }

  predicate IsDigit(c: char) { '0' <= c <= '9' }

  predicate IsAlnum(c: char) { IsDigit(c) || 'A' <= c <= 'Z' || 'a' <= c <= 'z' }

  function Upper(c: char): char {
    if 'a' <= c <= 'z' then ((c as int) - 32) as char else c
  }

  function UpperAll(s: string): (u: string)
    ensures |u| == |s|
  {
    seq(|s|, i requires 0 <= i < |s| => Upper(s[i]))
  }

  function AlnumRun(s: string): (n: nat)
    ensures n <= |s| && (forall i | 0 <= i < n :: IsAlnum(s[i])) && (n < |s| ==> !IsAlnum(s[n]))
  {
    if s != [] && IsAlnum(s[0]) then 1 + AlnumRun(s[1..]) else 0
  }

  function Digit(c: char): nat
    requires IsDigit(c)
  {
    (c as int) - ('0' as int)
  }

  /** One to six letters or digits, optionally a hyphen and a number of one or two digits. */
  function ParseCallsign(value: string): Result<Address, Ax25Error> {
    var t := Strip(value);
    var n := AlnumRun(t);
    var call, rest := UpperAll(t[..n]), t[n..];
    if !(1 <= n <= 6) then Failure(InvalidCallsign)
    else if rest == [] then Success(Address(call, 0, false))
    else if rest[0] != '-' then Failure(InvalidCallsign)
    else if |rest| == 2 && IsDigit(rest[1]) then Success(Address(call, Digit(rest[1]), false))
    else if |rest| == 3 && IsDigit(rest[1]) && IsDigit(rest[2]) then
      Success(Address(call, 10 * Digit(rest[1]) + Digit(rest[2]), false))
    else Failure(InvalidCallsign)
  }

  // ----- Address fields -----

  /** Left-justified in six columns, cut after six. */
  function SixColumns(s: string): (t: string)
    ensures |t| == 6
  {
    if |s| >= 6 then s[..6] else s + seq(6 - |s|, _ => ' ')
  }

  function ShiftedChar(c: char): (b: byte)
    ensures b as int == (2 * (c as int)) % 256
  {
    ByteOf((2 * (c as int)) % 256)
  }

  function SsidByte(ssid: nat, repeated: bool, last: bool): byte
    requires ssid < 16
  {
    0x60 | ((ssid as bv4 as byte) << 1) | (if repeated then 0x80 else 0) | (if last then 0x01 else 0)
  }

  function EncodeAddress(a: Address, last: bool): Result<seq<byte>, Ax25Error> {
    if !(0 <= a.ssid <= 15) then Failure(SsidOutOfRange)
    else
      var call := SixColumns(UpperAll(a.callsign));
      Success(seq(6, i requires 0 <= i < 6 => ShiftedChar(call[i])) + [SsidByte(a.ssid, a.repeated, last)])
  }

  function UnshiftedChar(b: byte): char {
    ByteOfValue(b);
    HalfChar(b as int)
  }

  function HalfChar(n: nat): char
    requires n < 256
  {
    (n / 2) as char
  }

  function DecodeAddress(data: seq<byte>): Result<(Address, bool), Ax25Error> {
    if |data| != 7 then Failure(AddressLength)
    else
      var call := Strip(seq(6, i requires 0 <= i < 6 => UnshiftedChar(data[i])));
      if call == [] then Failure(EmptyCallsign)
      else Success((Address(call, ((data[6] >> 1) & 0x0F) as int, data[6] & 0x80 != 0), data[6] & 0x01 != 0))
  }

  /** Callsigns as parse_callsign leaves them. */
  predicate Canonical(a: Address) {
    1 <= |a.callsign| <= 6 && 0 <= a.ssid <= 15 &&
    forall i | 0 <= i < |a.callsign| :: IsDigit(a.callsign[i]) || 'A' <= a.callsign[i] <= 'Z'
  }

  lemma CharRoundTrip(c: char)
    requires (c as int) < 128
    ensures UnshiftedChar(ShiftedChar(c)) == c
  {
    hide ByteOf, ShiftedChar, HalfChar;
    ByteOfValue(ShiftedChar(c));
    HalfOfDouble(c);
  }

  lemma HalfOfDouble(c: char)
    requires (c as int) < 128
    ensures (2 * (c as int)) % 256 == 2 * (c as int) && HalfChar(2 * (c as int)) == c
  {}

  lemma SsidRoundTrip(ssid: nat, repeated: bool, last: bool)
    requires ssid < 16
    ensures var b := SsidByte(ssid, repeated, last);
      ((b >> 1) & 0x0F) as int == ssid && (b & 0x80 != 0) == repeated && (b & 0x01 != 0) == last
  {
    NibbleValue(ssid);
    SsidBits(ssid as bv4, if repeated then 0x80 else 0, if last then 0x01 else 0);
  }

  lemma SsidBits(n: bv4, r: byte, l: byte)
    requires r == 0 || r == 0x80
    requires l == 0 || l == 1
    ensures var b := 0x60 | ((n as byte) << 1) | r | l;
      (b >> 1) & 0x0F == n as byte && b & 0x80 == r && b & 0x01 == l
  {}

  lemma {:induction false} StripRightSpaces(s: string, n: nat)
    requires s != [] && !IsSpace(s[|s| - 1])
    ensures StripRight(s + seq(n, _ => ' ')) == s
    decreases n
  {
    assert IsSpace(' ');
    hide IsSpace;
    var padded := s + seq(n, _ => ' ');
    if n == 0 {
      assert padded == s;
    } else {
      assert padded[..|padded| - 1] == s + seq(n - 1, _ => ' ');
      StripRightSpaces(s, n - 1);
    }
  }

  lemma StripColumns(s: string)
    requires 1 <= |s| <= 6 && forall i | 0 <= i < |s| :: !IsSpace(s[i])
    ensures Strip(SixColumns(s)) == s
  {
    StripRightSpaces(s, 6 - |s|);
    hide IsSpace;
    assert SixColumns(s) == s + seq(6 - |s|, _ => ' ');
    assert StripLeft(SixColumns(s)) == SixColumns(s);
  }

  lemma UpperOfCanonical(a: Address)
    requires Canonical(a)
    ensures UpperAll(a.callsign) == a.callsign
  {}

  lemma AddressRoundTrip(a: Address, last: bool)
    requires Canonical(a)
    ensures EncodeAddress(a, last).Success? && |EncodeAddress(a, last).value| == 7
    ensures DecodeAddress(EncodeAddress(a, last).value) == Success((a, last))
  {
    UpperOfCanonical(a);
    var call := SixColumns(a.callsign);
    var data := EncodeAddress(a, last).value;
    forall i | 0 <= i < 6
      ensures UnshiftedChar(data[i]) == call[i]
    {
      CharRoundTrip(call[i]);
    }
    SsidRoundTrip(a.ssid, a.repeated, last);
    assert data[6] == SsidByte(a.ssid, a.repeated, last);
    hide SsidByte, ShiftedChar, UnshiftedChar;
    assert forall i | 0 <= i < |a.callsign| :: !IsSpace(a.callsign[i]);
    StripColumns(a.callsign);
    assert seq(6, i requires 0 <= i < 6 => UnshiftedChar(data[i])) == call;
  }

  lemma ParsedIsCanonical(value: string)
    requires ParseCallsign(value).Success? && ParseCallsign(value).value.ssid <= 15
    ensures Canonical(ParseCallsign(value).value) && !ParseCallsign(value).value.repeated
  {
    hide Strip;
    var t := Strip(value);
    var n := AlnumRun(t);
    assert forall i | 0 <= i < n :: IsAlnum(t[..n][i]);
  }

  // ----- Building a UI frame -----

  function ParseAll(values: seq<string>): Result<seq<Address>, Ax25Error> {
    if values == [] then Success([])
    else match ParseCallsign(values[0])
      case Failure(e) => Failure(e)
      case Success(a) =>
        match ParseAll(values[1..])
        case Failure(e) => Failure(e)
        case Success(rest) => Success([a] + rest)
  }

  /** The address field; only the final address carries the last-address bit. */
  function EncodePath(path: seq<Address>): Result<seq<byte>, Ax25Error> {
    if path == [] then Success([])
    else match EncodeAddress(path[0], |path| == 1)
      case Failure(e) => Failure(e)
      case Success(bytes) =>
        match EncodePath(path[1..])
        case Failure(e) => Failure(e)
        case Success(rest) => Success(bytes + rest)
  }

  function WithFcs(body: seq<byte>, wanted: bool): seq<byte> {
    if wanted then body + Fcs(body) else body
  }

  function WithFlags(body: seq<byte>, wanted: bool): seq<byte> {
    if wanted then [AX25_FLAG] + body + [AX25_FLAG] else body
  }

  function Built(source: string, destination: string, information: seq<byte>, digipeaters: seq<string>, flags: bool, fcs: bool)
    : Result<seq<byte>, Ax25Error>
  {
    match ParseAll([source, destination] + digipeaters)
    case Failure(e) => Failure(e)
    case Success(a) =>
      if |a| < 2 then Failure(InvalidCallsign)
      else match EncodePath([a[1], a[0]] + a[2..])
        case Failure(e) => Failure(e)
        case Success(path) =>
          Success(WithFlags(WithFcs(path + [AX25_UI_CONTROL, AX25_NO_LAYER3_PID] + information, fcs), flags))
  }

  lemma {:induction false} ParseAllLength(values: seq<string>)
    requires ParseAll(values).Success?
    ensures |ParseAll(values).value| == |values|
    ensures forall i | 0 <= i < |values| :: ParseCallsign(values[i]) == Success(ParseAll(values).value[i])
  {
    hide ParseCallsign;
    if values != [] {
      ParseAllLength(values[1..]);
    }
  }

  lemma {:induction false} ParseAllStep(values: seq<string>, n: nat)
    requires n < |values| && ParseAll(values[..n]).Success?
    ensures ParseAll(values[..n + 1]) ==
      match ParseCallsign(values[n])
      case Failure(e) => Failure(e)
      case Success(a) => Success(ParseAll(values[..n]).value + [a])
    decreases n
  {
    hide ParseCallsign;
    if n == 0 {
      assert values[..1][1..] == [] && values[..1][0] == values[0] && values[..0] == [];
      assert forall a: Address {:trigger [] + [a]} :: [a] + [] == [] + [a];
    } else {
      assert values[..n + 1][1..] == values[1..][..n] && values[..n][1..] == values[1..][..n - 1];
      ParseAllStep(values[1..], n - 1);
      assert values[1..][n - 1] == values[n] && values[..n + 1][0] == values[0];
      var head, rest := ParseCallsign(values[0]).value, ParseAll(values[1..][..n - 1]).value;
      assert forall a: Address {:trigger rest + [a]} :: [head] + (rest + [a]) == ([head] + rest) + [a];
    }
  }

  lemma {:induction false} ParseAllFails(values: seq<string>, n: nat)
    requires n <= |values| && ParseAll(values[..n]).Failure?
    ensures ParseAll(values) == ParseAll(values[..n])
    decreases n
  {
    hide ParseCallsign;
    if n > 0 && ParseCallsign(values[0]).Success? {
      assert values[..n][1..] == values[1..][..n - 1];
      ParseAllFails(values[1..], n - 1);
    }
  }

  method ParseCallsigns(values: seq<string>) returns (r: Result<seq<Address>, Ax25Error>)
    ensures r == ParseAll(values)
  {
    hide ParseCallsign;
    var addresses := [];
    for i := 0 to |values|
      invariant ParseAll(values[..i]) == Success(addresses)
    {
      ParseAllStep(values, i);
      match ParseCallsign(values[i])
      case Failure(e) =>
        ParseAllFails(values, i + 1);
        return Failure(e);
      case Success(a) =>
        addresses := addresses + [a];
    }
    assert values[..|values|] == values;
    return Success(addresses);
  }

  /** Appends to a growing body address by address, then control, PID, information, FCS and flags. */
  method BuildUiFrame(source: string, destination: string, information: seq<byte>, digipeaters: seq<string>, flags: bool, fcs: bool)
    returns (r: Result<seq<byte>, Ax25Error>)
    ensures r == Built(source, destination, information, digipeaters, flags, fcs)
  {
    hide ParseCallsign, EncodeAddress, X25, LowByte, HighByte;
    var parsed := ParseCallsigns([source, destination] + digipeaters);
    if parsed.Failure? {
      return Failure(parsed.error);
    }
    ParseAllLength([source, destination] + digipeaters);
    var path := [parsed.value[1], parsed.value[0]] + parsed.value[2..];
    var body: seq<byte> := [];
    assert path[0..] == path;
    assert EncodePath(path).Success? ==> body + EncodePath(path).value == EncodePath(path).value;
    for i := 0 to |path|
      invariant EncodePath(path) == match EncodePath(path[i..])
        case Failure(e) => Failure(e)
        case Success(rest) => Success(body + rest)
    {
      assert path[i..][1..] == path[i + 1..];
      match EncodeAddress(path[i], i == |path| - 1)
      case Failure(e) =>
        return Failure(e);
      case Success(bytes) =>
        assert forall rest: seq<byte> {:trigger body + (bytes + rest)} :: body + (bytes + rest) == (body + bytes) + rest;
        body := body + bytes;
    }
    assert path[|path|..] == [] && body + [] == body;
    ghost var encoded := body;
    body := body + [AX25_UI_CONTROL];
    body := body + [AX25_NO_LAYER3_PID];
    assert body == encoded + [AX25_UI_CONTROL, AX25_NO_LAYER3_PID];
    body := body + information;
    if fcs {
      var crc := Crc16X25(body);
      body := body + [LowByte(crc), HighByte(crc)];
    }
    if flags {
      return Success([AX25_FLAG] + body + [AX25_FLAG]);
    }
    return Success(body);
  }

  // ----- Parsing a UI frame -----

  function StripFlags(raw: seq<byte>): seq<byte> {
    if |raw| >= 2 && raw[0] == AX25_FLAG && raw[|raw| - 1] == AX25_FLAG then raw[1..|raw| - 1] else raw
  }

  function FcsValid(data: seq<byte>): Option<bool> {
    if |data| >= 18 then Some(data[|data| - 2..] == Fcs(data[..|data| - 2])) else None
  }

  datatype Path = Path(digipeaters: seq<Address>, rest: seq<byte>)

  /** Digipeater fields up to the one with the last-address bit, and what follows it. */
  function ParsePath(data: seq<byte>, last: bool): Result<Path, Ax25Error> {
    if last then Success(Path([], data))
    else if |data| < 7 then Failure(DigipeaterTruncated)
    else match DecodeAddress(data[..7])
      case Failure(e) => Failure(e)
      case Success(d) =>
        match ParsePath(data[7..], d.1)
        case Failure(e) => Failure(e)
        case Success(p) => Success(p.(digipeaters := [d.0] + p.digipeaters))
  }

  function ParseBody(data: seq<byte>, fcsValid: Option<bool>): Result<Frame, Ax25Error>
    requires |data| >= 14
  {
    match DecodeAddress(data[..7])
    case Failure(e) => Failure(e)
    case Success(dest) =>
      match DecodeAddress(data[7..14])
      case Failure(e) => Failure(e)
      case Success(src) =>
        match ParsePath(data[14..], src.1)
        case Failure(e) => Failure(e)
        case Success(p) =>
          if |p.rest| < 2 then Failure(ControlMissing)
          else if p.rest[0] != AX25_UI_CONTROL then Failure(NotUi)
          else if p.rest[1] != AX25_NO_LAYER3_PID then Failure(WrongPid)
          else Success(Frame(dest.0, src.0, p.digipeaters, p.rest[0], p.rest[1], p.rest[2..], fcsValid))
  }

  function Decoded(raw: seq<byte>, validateFcs: bool): Result<Frame, Ax25Error> {
    var data := StripFlags(raw);
    if |data| < 16 then Failure(TooShort)
    else
      var valid := FcsValid(data);
      if validateFcs && valid == Some(false) then Failure(BadFcs)
      else if valid.Some? && (valid.value || validateFcs) then ParseBody(data[..|data| - 2], valid)
      else ParseBody(data, valid)
  }

  method DecodeUiFrame(raw: seq<byte>, validateFcs: bool) returns (r: Result<Frame, Ax25Error>)
    ensures r == Decoded(raw, validateFcs)
  {
    hide DecodeAddress, X25, LowByte, HighByte;
    var data := raw;
    if |data| >= 2 && data[0] == AX25_FLAG && data[|data| - 1] == AX25_FLAG {
      data := data[1..|data| - 1];
    }
    if |data| < 16 {
      return Failure(TooShort);
    }
    var fcsValid: Option<bool> := None;
    if |data| >= 18 {
      var body, supplied := data[..|data| - 2], data[|data| - 2..];
      var crc := Crc16X25(body);
      fcsValid := Some(supplied == [LowByte(crc), HighByte(crc)]);
      if validateFcs && !fcsValid.value {
        return Failure(BadFcs);
      }
      if fcsValid.value || validateFcs {
        data := body;
      }
    }
    r := DecodeFields(data, fcsValid);
  }

  /** The part of decode_ax25_ui_frame behind the FCS check. */
  method DecodeFields(data: seq<byte>, fcsValid: Option<bool>) returns (r: Result<Frame, Ax25Error>)
    requires |data| >= 14
    ensures r == ParseBody(data, fcsValid)
  {
    hide DecodeAddress;
    var offset := 0;
    var dest := DecodeAddress(data[offset..offset + 7]);
    if dest.Failure? {
      return Failure(dest.error);
    }
    offset := offset + 7;
    var src := DecodeAddress(data[offset..offset + 7]);
    if src.Failure? {
      return Failure(src.error);
    }
    offset := offset + 7;
    var path := DecodeDigipeaters(data, offset, src.value.1);
    if path.Failure? {
      return Failure(path.error);
    }
    offset := |data| - |path.value.rest|;
    if offset + 2 > |data| {
      return Failure(ControlMissing);
    }
    var control, pid := data[offset], data[offset + 1];
    if control != AX25_UI_CONTROL {
      return Failure(NotUi);
    }
    if pid != AX25_NO_LAYER3_PID {
      return Failure(WrongPid);
    }
    return Success(Frame(dest.value.0, src.value.0, path.value.digipeaters, control, pid, data[offset + 2..], fcsValid));
  }

  method DecodeDigipeaters(data: seq<byte>, start: nat, lastBit: bool) returns (r: Result<Path, Ax25Error>)
    requires start <= |data|
    ensures r == ParsePath(data[start..], lastBit)
    ensures r.Success? ==> exists end: nat :: start <= end <= |data| && r.value.rest == data[end..]
  {
    hide DecodeAddress;
    var last, offset := lastBit, start;
    var digipeaters: seq<Address> := [];
    ghost var path := ParsePath(data[start..], last);
    assert path.Success? ==> digipeaters + path.value.digipeaters == path.value.digipeaters;
    while !last
      invariant start <= offset <= |data|
      invariant path == match ParsePath(data[offset..], last)
        case Failure(e) => Failure(e)
        case Success(p) => Success(p.(digipeaters := digipeaters + p.digipeaters))
      decreases |data| - offset, !last
    {
      if offset + 7 > |data| {
        return Failure(DigipeaterTruncated);
      }
      assert data[offset..][..7] == data[offset..offset + 7] && data[offset..][7..] == data[offset + 7..];
      var digi := DecodeAddress(data[offset..offset + 7]);
      if digi.Failure? {
        return Failure(digi.error);
      }
      assert forall more: seq<Address> {:trigger digipeaters + ([digi.value.0] + more)} ::
        digipeaters + ([digi.value.0] + more) == (digipeaters + [digi.value.0]) + more;
      last := digi.value.1;
      digipeaters := digipeaters + [digi.value.0];
      offset := offset + 7;
    }
    assert digipeaters + [] == digipeaters;
    return Success(Path(digipeaters, data[offset..]));
  }

  // ----- Round trip -----

  predicate AllCanonical(path: seq<Address>) {
    forall i | 0 <= i < |path| :: Canonical(path[i])
  }

  lemma {:induction false} EncodePathLength(path: seq<Address>)
    requires AllCanonical(path)
    ensures EncodePath(path).Success? && |EncodePath(path).value| == 7 * |path|
    decreases path
  {
    hide EncodeAddress, Canonical;
    if path != [] {
      assert Canonical(path[0]);
      AddressRoundTrip(path[0], |path| == 1);
      assert AllCanonical(path[1..]);
      EncodePathLength(path[1..]);
    }
  }

  /** The last-address bit ends the loop exactly after the final digipeater. */
  lemma {:induction false} PathRoundTrip(path: seq<Address>, rest: seq<byte>)
    requires path != [] && AllCanonical(path)
    ensures EncodePath(path).Success?
    ensures ParsePath(EncodePath(path).value + rest, false) == Success(Path(path, rest))
    decreases path
  {
    hide EncodeAddress, DecodeAddress, Canonical;
    EncodePathLength(path);
    var first := EncodeAddress(path[0], |path| == 1).value;
    assert Canonical(path[0]);
    AddressRoundTrip(path[0], |path| == 1);
    var tail := EncodePath(path[1..]).value;
    var data := EncodePath(path).value + rest;
    assert data[..7] == first && data[7..] == tail + rest;
    if |path| == 1 {
      assert tail + rest == rest;
      assert path == [path[0]] + [];
    } else {
      assert AllCanonical(path[1..]);
      PathRoundTrip(path[1..], rest);
      assert path == [path[0]] + path[1..];
    }
  }

  /** The frame a receiver should see for these addresses. */
  function Sent(a: seq<Address>, information: seq<byte>, fcsValid: Option<bool>): Frame
    requires |a| >= 2
  {
    Frame(a[1], a[0], a[2..], AX25_UI_CONTROL, AX25_NO_LAYER3_PID, information, fcsValid)
  }

  function BodyOf(a: seq<Address>, information: seq<byte>): seq<byte>
    requires |a| >= 2 && AllCanonical(a)
  {
    var path := [a[1], a[0]] + a[2..];
    assert AllCanonical(path);
    EncodePathLength(path);
    EncodePath(path).value + [AX25_UI_CONTROL, AX25_NO_LAYER3_PID] + information
  }

  lemma BodyRoundTrip(a: seq<Address>, information: seq<byte>, fcsValid: Option<bool>)
    requires |a| >= 2 && AllCanonical(a)
    ensures |BodyOf(a, information)| >= 16
    ensures ParseBody(BodyOf(a, information), fcsValid) == Success(Sent(a, information, fcsValid))
  {
    hide EncodeAddress, DecodeAddress, Canonical;
    var path := [a[1], a[0]] + a[2..];
    assert AllCanonical(path) && path[1..] == [a[0]] + a[2..] && path[1..][1..] == a[2..];
    EncodePathLength(path);
    var tail := [AX25_UI_CONTROL, AX25_NO_LAYER3_PID] + information;
    var data := BodyOf(a, information);
    assert Canonical(path[0]) && Canonical(path[1]);
    AddressRoundTrip(path[0], false);
    AddressRoundTrip(path[1], |path| == 2);
    var d, s := EncodeAddress(path[0], false).value, EncodeAddress(path[1], |path| == 2).value;
    assert AllCanonical(a[2..]);
    EncodePathLength(a[2..]);
    var digis := EncodePath(a[2..]).value;
    assert EncodePath(path[1..]).value == s + digis;
    assert data == d + (s + digis) + tail;
    assert data[..7] == d && data[7..14] == s && data[14..] == digis + tail;
    if |path| == 2 {
      assert digis + tail == tail;
    } else {
      PathRoundTrip(a[2..], tail);
    }
    assert tail[2..] == information;
  }

  lemma {:induction false} ParsedAllCanonical(values: seq<string>)
    requires ParseAll(values).Success?
    requires forall i | 0 <= i < |ParseAll(values).value| :: ParseAll(values).value[i].ssid <= 15
    ensures AllCanonical(ParseAll(values).value)
    decreases values
  {
    hide ParseCallsign, Canonical;
    ParseAllLength(values);
    forall i | 0 <= i < |values|
      ensures Canonical(ParseAll(values).value[i])
    {
      ParsedIsCanonical(values[i]);
    }
  }

  lemma {:induction false} EncodableSsids(path: seq<Address>)
    requires EncodePath(path).Success?
    ensures forall i | 0 <= i < |path| :: 0 <= path[i].ssid <= 15
    decreases path
  {
    if path != [] {
      EncodableSsids(path[1..]);
      forall i | 0 <= i < |path|
        ensures 0 <= path[i].ssid <= 15
      {
        if i > 0 { assert path[i] == path[1..][i - 1]; }
      }
    }
  }

  /** What the builder accepts: parsable callsigns with an SSID up to 15. */
  lemma BuiltBody(source: string, destination: string, information: seq<byte>, digipeaters: seq<string>, flags: bool, fcs: bool)
    returns (a: seq<Address>)
    requires Built(source, destination, information, digipeaters, flags, fcs).Success?
    ensures ParseAll([source, destination] + digipeaters) == Success(a) && |a| >= 2 && AllCanonical(a)
    ensures Built(source, destination, information, digipeaters, flags, fcs) ==
      Success(WithFlags(WithFcs(BodyOf(a, information), fcs), flags))
  {
    hide EncodeAddress, Canonical, ParseCallsign, Fcs;
    var values := [source, destination] + digipeaters;
    ParseAllLength(values);
    a := ParseAll(values).value;
    var path := [a[1], a[0]] + a[2..];
    EncodableSsids(path);
    forall i | 0 <= i < |a|
      ensures a[i].ssid <= 15
    {
      assert a[i] == if i == 0 then path[1] else if i == 1 then path[0] else path[i];
    }
    ParsedAllCanonical(values);
  }

  lemma FirstByteIsNoFlag(a: seq<Address>, information: seq<byte>)
    requires |a| >= 2 && AllCanonical(a)
    ensures BodyOf(a, information) != [] && BodyOf(a, information)[0] != AX25_FLAG
  {
    var path := [a[1], a[0]] + a[2..];
    assert AllCanonical(path) && Canonical(path[0]);
    EncodePathLength(path);
    AddressRoundTrip(path[0], false);
    UpperOfCanonical(path[0]);
    var c := path[0].callsign[0];
    AlnumIsNoFlag(c);
    hide ShiftedChar, SsidByte;
    assert EncodeAddress(path[0], false).value[0] == ShiftedChar(c);
  }

  lemma AlnumIsNoFlag(c: char)
    requires IsDigit(c) || 'A' <= c <= 'Z'
    ensures ShiftedChar(c) != AX25_FLAG
  {
    hide ByteOf, ShiftedChar;
    FlagValue();
    assert (2 * (c as int)) % 256 != 126;
  }

  lemma FlagValue()
    ensures AX25_FLAG as int == 126
  {}

  lemma StripsOwnFlags(body: seq<byte>, flags: bool)
    requires body != [] && body[0] != AX25_FLAG
    ensures StripFlags(WithFlags(body, flags)) == body
  {}

  /** With an FCS, with or without flags: exactly the same addresses, path order and information come back. */
  lemma FrameRoundTrip(source: string, destination: string, information: seq<byte>, digipeaters: seq<string>, flags: bool, validate: bool)
    requires Built(source, destination, information, digipeaters, flags, true).Success?
    ensures var raw := Built(source, destination, information, digipeaters, flags, true).value;
      && ParseAll([source, destination] + digipeaters).Success?
      && var a := ParseAll([source, destination] + digipeaters).value;
        |a| >= 2 && Decoded(raw, validate) == Success(Sent(a, information, Some(true)))
  {
    hide ParseCallsign, EncodeAddress, DecodeAddress, Canonical;
    var a := BuiltBody(source, destination, information, digipeaters, flags, true);
    var body := BodyOf(a, information);
    assert |Fcs(body)| == 2;
    hide Fcs, BodyOf;
    FirstByteIsNoFlag(a, information);
    BodyRoundTrip(a, information, Some(true));
    var data := body + Fcs(body);
    StripsOwnFlags(data, flags);
    assert data[..|data| - 2] == body && data[|data| - 2..] == Fcs(body);
  }

  /** Without an FCS the last two bytes of a long enough frame are taken for one. */
  lemma NoFcsRoundTrip(source: string, destination: string, information: seq<byte>, digipeaters: seq<string>, flags: bool, validate: bool)
    requires Built(source, destination, information, digipeaters, flags, false).Success?
    ensures var raw := Built(source, destination, information, digipeaters, flags, false).value;
      && ParseAll([source, destination] + digipeaters).Success?
      && var a := ParseAll([source, destination] + digipeaters).value;
      && |a| >= 2 && AllCanonical(a)
      && var valid := FcsValid(BodyOf(a, information));
      && (Decoded(raw, validate) == Success(Sent(a, information, valid)) <==>
           valid != Some(true) && !(validate && valid == Some(false)))
  {
    hide ParseCallsign, EncodeAddress, DecodeAddress, Canonical, Fcs;
    var a := BuiltBody(source, destination, information, digipeaters, flags, false);
    var body := BodyOf(a, information);
    FirstByteIsNoFlag(a, information);
    StripsOwnFlags(body, flags);
    BodyRoundTrip(a, information, FcsValid(body));
    if FcsValid(body) == Some(true) {
      ShorterInformation(body, a, information);
    }
    hide BodyOf;
  }

  lemma ParsedInformationLength(data: seq<byte>, v: Option<bool>)
    requires |data| >= 14 && ParseBody(data, v).Success?
    ensures |data| == 16 + 7 * |ParseBody(data, v).value.digipeaters| + |ParseBody(data, v).value.information|
  {
    hide DecodeAddress;
    var src := DecodeAddress(data[7..14]).value;
    ParsedPathLength(data[14..], src.1);
  }

  lemma {:induction false} ParsedPathLength(data: seq<byte>, last: bool)
    requires ParsePath(data, last).Success?
    ensures |data| == 7 * |ParsePath(data, last).value.digipeaters| + |ParsePath(data, last).value.rest|
    decreases |data|
  {
    hide DecodeAddress;
    if !last {
      ParsedPathLength(data[7..], DecodeAddress(data[..7]).value.1);
    }
  }

  lemma ShorterInformation(body: seq<byte>, a: seq<Address>, information: seq<byte>)
    requires |a| >= 2 && AllCanonical(a) && body == BodyOf(a, information) && |body| >= 18
    ensures ParseBody(body[..|body| - 2], Some(true)) != Success(Sent(a, information, Some(true)))
  {
    hide DecodeAddress, EncodeAddress, Canonical;
    var short := ParseBody(body[..|body| - 2], Some(true));
    BodyRoundTrip(a, information, Some(true));
    ParsedInformationLength(body, Some(true));
    if short == Success(Sent(a, information, Some(true))) {
      ParsedInformationLength(body[..|body| - 2], Some(true));
      assert false;
    }
  }

  // ----- Corruption on the air -----

  /** A frame damaged between its flags, by a burst, an odd number of flips or up to three flips, never decodes. */
  lemma DamagedFrameRejected(source: string, destination: string, information: seq<byte>, digipeaters: seq<string>, received: seq<byte>)
    requires Built(source, destination, information, digipeaters, false, true).Success?
    requires DetectableCorruption(LsbBits, Built(source, destination, information, digipeaters, false, true).value, StripFlags(received))
    ensures Decoded(received, true) == Failure(BadFcs)
  {
    hide ParseCallsign, EncodeAddress, Canonical, Fcs;
    var damaged := StripFlags(received);
    var a := BuiltBody(source, destination, information, digipeaters, false, true);
    var body := BodyOf(a, information);
    BodyRoundTrip(a, information, Some(true));
    assert |Fcs(body)| == 2 by { TwoFcsBytes(body); }
    AllBitsLength(LsbBits, body + Fcs(body));
    AllBitsLength(LsbBits, damaged);
    CorruptFrameHasBadFcs(body, damaged);
  }

  lemma TwoFcsBytes(body: seq<byte>)
    ensures |Fcs(body)| == 2
  {}

}
