/** Which byte strings are address fields and frames, whoever built them (protocol/aprs.py). */
module Ax25Fields {
  import opened Bytes
  import opened Ax25
  import opened Callsigns

  // ----- Any address field -----

  /** The six characters of an address field, each one bit to the right. */
  predicate Characters(data: seq<byte>, chars: string)
    requires |data| == 7
  {
    |chars| == 6 && forall i | 0 <= i < 6 :: chars[i] as int == (data[i] as int) / 2
  }

  /** What an address field says: its characters without the blanks around them, and the bits of its last octet. */
  ghost predicate Says(data: seq<byte>, a: Address, last: bool)
    requires |data| == 7
  {
    && (exists left, right :: Blank(left) && Blank(right) && Characters(data, left + a.callsign + right))
    && a.callsign != [] && !IsBlank(a.callsign[0]) && !IsBlank(a.callsign[|a.callsign| - 1])
    && a.ssid == (data[6] as int) / 2 % 16 && (a.repeated <==> (data[6] as int) >= 128) && (last <==> (data[6] as int) % 2 == 1)
  }

  lemma HalfOf(b: byte)
    ensures (b >> 1) as int == (b as int) / 2
  {}

  lemma LowDigitOf(b: byte)
    ensures (b & 0x0F) as int == (b as int) % 16
  {}

  lemma SsidOf(b: byte)
    ensures ((b >> 1) & 0x0F) as int == (b as int) / 2 % 16
  {
    HalfOf(b);
    LowDigitOf(b >> 1);
  }

  lemma RepeatedOf(b: byte)
    ensures b & 0x80 != 0 <==> (b as int) >= 128
  {}

  lemma LastOf(b: byte)
    ensures b & 0x01 != 0 <==> (b as int) % 2 == 1
  {}

  lemma BlankConcat(left: string, right: string)
    requires Blank(left) && Blank(right)
    ensures Blank(left + right)
  {
    hide IsBlank;
  }

  /** Every address field of seven octets is read as what it says, or refused because it holds blanks only. */
  lemma DecodedSays(data: seq<byte>)
    requires |data| == 7
    ensures match DecodeAddress(data)
      case Success(d) => Says(data, d.0, d.1)
      case Failure(e) => e == EmptyCallsign && exists chars :: Characters(data, chars) && Blank(chars)
  {
    hide IsSpace, IsBlank, Blank, Strip;
    var chars := seq(6, i requires 0 <= i < 6 => UnshiftedChar(data[i]));
    assert Characters(data, chars);
    SsidOf(data[6]);
    RepeatedOf(data[6]);
    LastOf(data[6]);
    var left, right := StripForm(chars);
    if Strip(chars) == [] {
      BlankConcat(left, right);
      assert chars == left + right;
    }
  }

  lemma CharactersUnique(data: seq<byte>, chars: string, others: string)
    requires |data| == 7 && Characters(data, chars) && Characters(data, others)
    ensures chars == others
  {
    forall i | 0 <= i < 6
      ensures chars[i] == others[i]
    {
      assert chars[i] as int == others[i] as int;
    }
  }

  lemma StripAround(left: string, s: string, right: string)
    requires Blank(left) && Blank(right) && s != [] && !IsBlank(s[0]) && !IsBlank(s[|s| - 1])
    ensures Strip(left + s + right) == s
  {
    hide IsSpace, IsBlank, Blank;
    BlankIff(left);
    BlankIff(right);
    SpaceIff(s[0]);
    SpaceIff(s[|s| - 1]);
    assert left + s + right == left + (s + right);
    StripLeftBlank(left, s + right);
    StripRightBlank(s, right);
  }

  /** And what a field says is how it is read. */
  lemma SaidIsDecoded(data: seq<byte>, a: Address, last: bool)
    requires |data| == 7 && Says(data, a, last)
    ensures DecodeAddress(data) == Success((a, last))
  {
    hide IsSpace, IsBlank, Blank, Strip;
    var left, right :| Blank(left) && Blank(right) && Characters(data, left + a.callsign + right);
    var chars := seq(6, i requires 0 <= i < 6 => UnshiftedChar(data[i]));
    CharactersUnique(data, chars, left + a.callsign + right);
    StripAround(left, a.callsign, right);
    SsidOf(data[6]);
    RepeatedOf(data[6]);
    LastOf(data[6]);
  }

  // ----- Any frame -----

  function Field(data: seq<byte>, k: nat): seq<byte>
    requires 7 * k + 7 <= |data|
  {
    data[7 * k..7 * k + 7]
  }

  /** The fields say these addresses, and the last-address bit stands in the final one alone. */
  ghost predicate FieldsSay(data: seq<byte>, path: seq<Address>) {
    7 * |path| <= |data| && forall k | 0 <= k < |path| :: Says(Field(data, k), path[k], k == |path| - 1)
  }

  lemma FieldBehind(data: seq<byte>, k: nat)
    requires 7 * k + 14 <= |data|
    ensures Field(data[7..], k) == Field(data, k + 1)
  {
    assert 7 * (k + 1) == 7 * k + 7;
  }

  lemma {:induction false} ParsedPathSays(data: seq<byte>)
    requires ParsePath(data, false).Success?
    ensures var p := ParsePath(data, false).value;
      p.digipeaters != [] && FieldsSay(data, p.digipeaters) && p.rest == data[7 * |p.digipeaters|..]
    decreases |data|
  {
    hide DecodeAddress, Says;
    var p := ParsePath(data, false).value;
    var d := DecodeAddress(data[..7]).value;
    DecodedSays(data[..7]);
    assert Field(data, 0) == data[..7];
    if !d.1 {
      ParsedPathSays(data[7..]);
      var later := ParsePath(data[7..], false).value;
      forall k | 1 <= k < |p.digipeaters|
        ensures Says(Field(data, k), p.digipeaters[k], k == |p.digipeaters| - 1)
      {
        FieldBehind(data, k - 1);
      }
    }
  }

  lemma {:induction false} SaidPathIsParsed(data: seq<byte>, path: seq<Address>)
    requires path != [] && FieldsSay(data, path)
    ensures ParsePath(data, false) == Success(Path(path, data[7 * |path|..]))
    decreases path
  {
    hide DecodeAddress, Says;
    assert Field(data, 0) == data[..7];
    SaidIsDecoded(data[..7], path[0], |path| == 1);
    if |path| > 1 {
      forall k | 0 <= k < |path| - 1
        ensures Says(Field(data[7..], k), path[1..][k], k == |path| - 2)
      {
        FieldBehind(data, k);
      }
      SaidPathIsParsed(data[7..], path[1..]);
      assert path == [path[0]] + path[1..];
    } else {
      assert path == [path[0]] + [];
    }
  }

  /** A frame's octets: the destination, then the source and the digipeaters, each as its octets say; then 3, 240 and the information. */
  ghost predicate FrameSays(data: seq<byte>, f: Frame)
    requires |data| >= 14
  {
    var n := 14 + 7 * |f.digipeaters|;
    && (exists last :: Says(data[..7], f.destination, last))
    && FieldsSay(data[7..], [f.source] + f.digipeaters)
    && |data| >= n + 2 && data[n] == 0x03 && data[n + 1] == 0xF0 && f.information == data[n + 2..]
    && f.control == 0x03 && f.pid == 0xF0
  }

  lemma SourceAndPath(data: seq<byte>, source: Address, digipeaters: seq<Address>)
    requires |data| >= 14 && Says(data[7..14], source, digipeaters == []) && FieldsSay(data[14..], digipeaters)
    ensures FieldsSay(data[7..], [source] + digipeaters)
  {
    hide Says;
    var path := [source] + digipeaters;
    assert data[7..][7..] == data[14..];
    forall k | 0 <= k < |path|
      ensures Says(Field(data[7..], k), path[k], k == |path| - 1)
    {
      if k == 0 {
        assert Field(data[7..], 0) == data[7..14];
      } else {
        FieldBehind(data[7..], k - 1);
      }
    }
  }

  /** What an accepted frame was put together from. */
  predicate MadeFrom(f: Frame, destination: (Address, bool), source: (Address, bool), path: Path) {
    && f.destination == destination.0 && f.source == source.0 && f.digipeaters == path.digipeaters
    && |path.rest| >= 2 && path.rest[0] == 0x03 && path.rest[1] == 0xF0 && f.information == path.rest[2..]
    && f.control == 0x03 && f.pid == 0xF0
  }

  lemma ParsedParts(data: seq<byte>, fcsValid: Option<bool>)
    requires |data| >= 14 && ParseBody(data, fcsValid).Success?
    ensures DecodeAddress(data[..7]).Success? && DecodeAddress(data[7..14]).Success?
    ensures ParsePath(data[14..], DecodeAddress(data[7..14]).value.1).Success?
    ensures MadeFrom(ParseBody(data, fcsValid).value, DecodeAddress(data[..7]).value, DecodeAddress(data[7..14]).value,
                     ParsePath(data[14..], DecodeAddress(data[7..14]).value.1).value)
    ensures ParseBody(data, fcsValid).value.fcsValid == fcsValid
  {
    hide DecodeAddress, ParsePath;
  }

  lemma PathFields(data: seq<byte>, last: bool)
    requires ParsePath(data, last).Success?
    ensures var p := ParsePath(data, last).value;
      && (last <==> p.digipeaters == []) && FieldsSay(data, p.digipeaters)
      && 7 * |p.digipeaters| <= |data| && p.rest == data[7 * |p.digipeaters|..]
  {
    if last {
      NoPath(data);
      NoFields(data);
    } else {
      ParsedPathSays(data);
    }
    hide ParsePath;
  }

  lemma ParsedFrameSays(data: seq<byte>, fcsValid: Option<bool>)
    requires |data| >= 14 && ParseBody(data, fcsValid).Success?
    ensures FrameSays(data, ParseBody(data, fcsValid).value) && ParseBody(data, fcsValid).value.fcsValid == fcsValid
  {
    hide DecodeAddress, Says, FieldsSay, ParsePath, ParseBody;
    ParsedParts(data, fcsValid);
    DecodedSays(data[..7]);
    DecodedSays(data[7..14]);
    var f := ParseBody(data, fcsValid).value;
    PathFields(data[14..], DecodeAddress(data[7..14]).value.1);
    SourceAndPath(data, f.source, f.digipeaters);
    assert data[14..][7 * |f.digipeaters|..] == data[14 + 7 * |f.digipeaters|..];
  }

  lemma NoFields(data: seq<byte>)
    ensures FieldsSay(data, [])
  {}

  lemma SaidFrameIsParsed(data: seq<byte>, f: Frame)
    requires |data| >= 14 && FrameSays(data, f)
    ensures ParseBody(data, f.fcsValid) == Success(f)
  {
    hide DecodeAddress, Says, ParsePath;
    var path := [f.source] + f.digipeaters;
    var last :| Says(data[..7], f.destination, last);
    SaidIsDecoded(data[..7], f.destination, last);
    assert Field(data[7..], 0) == data[7..14] && path[0] == f.source;
    SaidIsDecoded(data[7..14], f.source, |path| == 1);
    if f.digipeaters != [] {
      forall k | 0 <= k < |f.digipeaters|
        ensures Says(Field(data[14..], k), f.digipeaters[k], k == |f.digipeaters| - 1)
      {
        assert data[7..][7..] == data[14..] && path[k + 1] == f.digipeaters[k];
        FieldBehind(data[7..], k);
      }
      SaidPathIsParsed(data[14..], f.digipeaters);
    } else {
      NoPath(data[14..]);
    }
  }

  lemma NoPath(data: seq<byte>)
    ensures ParsePath(data, true) == Success(Path([], data))
  {}

  /** So these frames are accepted and no others, whoever built them. */
  lemma ParsedIff(data: seq<byte>, f: Frame)
    requires |data| >= 14
    ensures ParseBody(data, f.fcsValid) == Success(f) <==> FrameSays(data, f)
  {
    hide ParseBody, FrameSays;
    if ParseBody(data, f.fcsValid) == Success(f) {
      ParsedFrameSays(data, f.fcsValid);
    } else if FrameSays(data, f) {
      SaidFrameIsParsed(data, f);
    }
  }
}
