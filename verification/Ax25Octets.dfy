/** Where everything stands in a UI frame, octet by octet (protocol/aprs.py). */
module Ax25Octets {
  import opened Bytes
  import opened Crc
  import opened FrameCheck
  import opened Ax25

  /** A callsign character one bit to the left; a blank behind the last one; then reserved bits, SSID, repeated and last. */
  predicate AddressAt(data: seq<byte>, at: nat, a: Address, last: bool) {
    && at + 7 <= |data|
    && (forall i | 0 <= i < 6 :: data[at + i] as int == 2 * (if i < |a.callsign| then a.callsign[i] as int else 0x20))
    && data[at + 6] as int == 0x60 + 2 * a.ssid + (if a.repeated then 0x80 else 0) + (if last then 1 else 0)
  }

  lemma SsidValue(n: bv4, r: byte, l: byte)
    requires r == 0 || r == 0x80
    requires l == 0 || l == 1
    ensures (0x60 | ((n as byte) << 1) | r | l) as int == 0x60 + 2 * (n as int) + (r as int) + (l as int)
  {}

  lemma SsidOctet(ssid: nat, repeated: bool, last: bool)
    requires ssid < 16
    ensures SsidByte(ssid, repeated, last) as int == 0x60 + 2 * ssid + (if repeated then 0x80 else 0) + (if last then 1 else 0)
  {
    NibbleValue(ssid);
    SsidValue(ssid as bv4, if repeated then 0x80 else 0, if last then 0x01 else 0);
  }

  lemma CharOctet(c: char)
    requires (c as int) < 128
    ensures ShiftedChar(c) as int == 2 * (c as int)
  {
    hide ShiftedChar;
  }

  lemma EncodedOctets(a: Address, last: bool)
    requires Canonical(a)
    ensures EncodeAddress(a, last).Success? && |EncodeAddress(a, last).value| == 7
    ensures forall i | 0 <= i < 6 :: EncodeAddress(a, last).value[i] == ShiftedChar(SixColumns(a.callsign)[i])
    ensures EncodeAddress(a, last).value[6] == SsidByte(a.ssid, a.repeated, last)
  {
    UpperOfCanonical(a);
    hide ShiftedChar, SsidByte, UpperAll, SixColumns;
  }

  lemma ColumnChar(a: Address, i: nat)
    requires Canonical(a) && i < 6
    ensures SixColumns(a.callsign)[i] == (if i < |a.callsign| then a.callsign[i] else ' ') && (SixColumns(a.callsign)[i] as int) < 128
  {}

  lemma AddressOctets(a: Address, last: bool)
    requires Canonical(a)
    ensures EncodeAddress(a, last).Success? && |EncodeAddress(a, last).value| == 7
    ensures AddressAt(EncodeAddress(a, last).value, 0, a, last)
  {
    EncodedOctets(a, last);
    SsidOctet(a.ssid, a.repeated, last);
    hide ShiftedChar, SsidByte, UpperAll, SixColumns, EncodeAddress;
    var data := EncodeAddress(a, last).value;
    forall i | 0 <= i < 6
      ensures data[0 + i] as int == 2 * (if i < |a.callsign| then a.callsign[i] as int else 0x20)
    {
      ColumnChar(a, i);
      CharOctet(SixColumns(a.callsign)[i]);
    }
  }

  lemma {:induction false} PathOctets(path: seq<Address>, k: nat)
    requires AllCanonical(path) && k < |path|
    ensures EncodePath(path).Success? && |EncodePath(path).value| == 7 * |path|
    ensures AddressAt(EncodePath(path).value, 7 * k, path[k], k == |path| - 1)
    decreases path
  {
    hide EncodeAddress, Canonical, AddressAt;
    EncodePathLength(path);
    assert Canonical(path[0]);
    AddressOctets(path[0], |path| == 1);
    assert AllCanonical(path[1..]);
    EncodePathLength(path[1..]);
    var first, rest := EncodeAddress(path[0], |path| == 1).value, EncodePath(path[1..]).value;
    assert EncodePath(path).value == first + rest;
    if k > 0 {
      PathOctets(path[1..], k - 1);
      Behind(first, rest, 7 * (k - 1), path[k], k == |path| - 1);
    } else {
      InFront(first, rest, path[0], |path| == 1);
    }
  }

  lemma InFront(first: seq<byte>, rest: seq<byte>, a: Address, last: bool)
    requires |first| == 7 && AddressAt(first, 0, a, last)
    ensures AddressAt(first + rest, 0, a, last)
  {
    assert forall i | 0 <= i < 7 :: (first + rest)[i] == first[i];
  }

  lemma Behind(first: seq<byte>, rest: seq<byte>, at: nat, a: Address, last: bool)
    requires |first| == 7 && AddressAt(rest, at, a, last)
    ensures AddressAt(first + rest, 7 + at, a, last)
  {
    assert forall i | 7 + at <= i < 14 + at :: (first + rest)[i] == rest[i - 7];
  }

  /** Destination first, then source, then the digipeaters. */
  function InPathOrder(a: seq<Address>): seq<Address>
    requires |a| >= 2
  {
    [a[1], a[0]] + a[2..]
  }

  /** The frame of these addresses, without flags, at its k-th address and behind all of them. */
  predicate FrameAt(frame: seq<byte>, a: seq<Address>, information: seq<byte>, k: nat)
    requires |a| >= 2 && k < |a|
  {
    var n := 7 * |a|;
    && |frame| == n + |information| + 4
    && AddressAt(frame, 7 * k, InPathOrder(a)[k], k == |a| - 1)
    && frame[n] == 0x03 && frame[n + 1] == 0xF0 && frame[n + 2..|frame| - 2] == information
    && (frame[|frame| - 2] as bv16) | ((frame[|frame| - 1] as bv16) << 8) == X25(frame[..|frame| - 2])
  }

  lemma Parts(addresses: seq<byte>, information: seq<byte>, fcs: seq<byte>)
    requires |fcs| == 2
    ensures var body := addresses + [AX25_UI_CONTROL, AX25_NO_LAYER3_PID] + information;
      var frame, n := body + fcs, |addresses|;
      && |frame| == n + |information| + 4 && frame[..n] == addresses
      && frame[n] == 0x03 && frame[n + 1] == 0xF0 && frame[n + 2..|frame| - 2] == information
      && frame[..|frame| - 2] == body && frame[|frame| - 2] == fcs[0] && frame[|frame| - 1] == fcs[1]
  {}

  lemma BodyIs(a: seq<Address>, information: seq<byte>)
    requires |a| >= 2 && AllCanonical(a)
    ensures |InPathOrder(a)| == |a| && AllCanonical(InPathOrder(a)) && EncodePath(InPathOrder(a)).Success?
    ensures BodyOf(a, information) == EncodePath(InPathOrder(a)).value + [AX25_UI_CONTROL, AX25_NO_LAYER3_PID] + information
  {
    hide Canonical, EncodePath;
    assert AllCanonical(InPathOrder(a));
    EncodePathLength(InPathOrder(a));
  }

  lemma BodyOctets(a: seq<Address>, information: seq<byte>, k: nat)
    requires |a| >= 2 && AllCanonical(a) && k < |a|
    ensures FrameAt(BodyOf(a, information) + Fcs(BodyOf(a, information)), a, information, k)
  {
    hide Canonical, AllCanonical, EncodePath, AddressAt, Fcs, X25, BodyOf, InPathOrder;
    var path := InPathOrder(a);
    BodyIs(a, information);
    PathOctets(path, k);
    var addresses, body := EncodePath(path).value, BodyOf(a, information);
    FcsValue(body);
    Parts(addresses, information, Fcs(body));
    var frame := body + Fcs(body);
    Extended(addresses, frame[|addresses|..], 7 * k, path[k], k == |path| - 1);
    assert frame == addresses + frame[|addresses|..];
  }

  /**
   * A built frame holds the destination, the source and the digipeaters in turn, seven octets each, with the last-address
   * bit in the final one only; then 3, 240, the information and the FCS, low octet first; and flags around it if wanted.
   */
  lemma FrameOctets(source: string, destination: string, information: seq<byte>, digipeaters: seq<string>, flags: bool, k: nat)
    requires Built(source, destination, information, digipeaters, flags, true).Success? && k < 2 + |digipeaters|
    ensures ParseAll([source, destination] + digipeaters).Success?
    ensures var raw, a := Built(source, destination, information, digipeaters, flags, true).value, ParseAll([source, destination] + digipeaters).value;
      && |a| == 2 + |digipeaters|
      && (flags ==> |raw| >= 2 && raw[0] == 0x7E && raw[|raw| - 1] == 0x7E)
      && FrameAt(if flags then raw[1..|raw| - 1] else raw, a, information, k)
  {
    hide ParseCallsign, Canonical, AllCanonical, Fcs, BodyOf, FrameAt, Built;
    var a := BuiltBody(source, destination, information, digipeaters, flags, true);
    ParseAllLength([source, destination] + digipeaters);
    BodyOctets(a, information, k);
    var frame := BodyOf(a, information) + Fcs(BodyOf(a, information));
    assert flags ==> ([AX25_FLAG] + frame + [AX25_FLAG])[1..|frame| + 1] == frame;
  }

  lemma Extended(data: seq<byte>, tail: seq<byte>, at: nat, a: Address, last: bool)
    requires AddressAt(data, at, a, last)
    ensures AddressAt(data + tail, at, a, last)
  {
    assert forall i | at <= i < at + 7 :: (data + tail)[i] == data[i];
  }

  lemma FcsValue(body: seq<byte>)
    ensures |Fcs(body)| == 2
    ensures (Fcs(body)[0] as bv16) | ((Fcs(body)[1] as bv16) << 8) == X25(body)
  {
    Halves(X25(body));
    hide X25, LowByte, HighByte;
  }

  lemma Halves(r: bv16)
    ensures (LowByte(r) as bv16) | ((HighByte(r) as bv16) << 8) == r
  {}
}
