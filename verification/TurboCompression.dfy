/** The payload compressor (backend/turbo_compression.py). */
module TurboCompression {
  import opened Bytes
  import opened PhraseDictionary

  /** What the compressor takes from Python and zlib. `decode` is UTF-8 with replacement characters for errors. */
  datatype Codecs = Codecs(
    decode: seq<byte> -> string, encode: string -> seq<byte>,
    deflate: seq<byte> -> seq<byte>, inflate: seq<byte> -> Option<seq<byte>>,
    looksLikeText: seq<byte> -> bool, looksLikeGps: seq<byte> -> bool,
    packGps: seq<byte> -> Option<seq<byte>>, unpackGps: seq<byte> -> seq<byte>)

  const REPLACEMENT := '\U{FFFD}'

  /** zlib and UTF-8 undo themselves; undecodable bytes show up as replacement characters. */
  ghost predicate Faithful(lib: Codecs) {
    && (forall d: seq<byte> :: lib.inflate(lib.deflate(d)) == Some(d))
    && (forall s: string :: lib.decode(lib.encode(s)) == s)
    && (forall d: seq<byte> :: |lib.decode(d)| <= |d| && (lib.encode(lib.decode(d)) == d || REPLACEMENT in lib.decode(d)))
  }

  // ----- Latin-1 -----

  function ToLatin1(s: string): (d: seq<byte>)
    requires !Wide(s)
    ensures |d| == |s|
  {
    seq(|s|, i requires 0 <= i < |s| => ByteOf(s[i] as int))
  }

  function FromLatin1(d: seq<byte>): (s: string)
    ensures |s| == |d|
  {
    seq(|d|, i requires 0 <= i < |d| => CharOf(d[i]))
  }

  function CharOf(b: byte): char {
    ByteOfValue(b);
    (b as int) as char
  }

  lemma Latin1RoundTrip(s: string)
    requires !Wide(s)
    ensures FromLatin1(ToLatin1(s)) == s
  {
    hide ByteOf;
  }

  // ----- The dictionary method -----

  /** None stands for the UnicodeEncodeError of a character beyond Latin-1. */
  function DictionaryCompress(lib: Codecs, data: seq<byte>): Option<seq<byte>> {
    var result := Squeezed(lib.decode(data), PHRASES);
    if Wide(result) then None else Some(ToLatin1(result))
  }

  function DictionaryDecompress(lib: Codecs, data: seq<byte>): seq<byte> {
    lib.encode(Unsqueezed(FromLatin1(data), PHRASES))
  }

  /**
   * It fails exactly on characters beyond Latin-1, never lengthens, and gives the data back exactly
   * when the text holds none of the characters that serve as tokens.
   */
  lemma DictionaryRoundTrip(lib: Codecs, data: seq<byte>)
    requires Faithful(lib)
    ensures var c := DictionaryCompress(lib, data);
            && (c.None? <==> Wide(lib.decode(data)))
            && (c.Some? ==>
                 && |c.value| <= |data|
                 && (DictionaryDecompress(lib, c.value) == data <==> !HasToken(lib.decode(data))))
  {
    hide Squeezed, Unsqueezed, HasToken, ToLatin1, FromLatin1;
    var text := lib.decode(data);
    SqueezedKeepsWide(text, PHRASES);
    if !Wide(text) {
      Latin1RoundTrip(Squeezed(text, PHRASES));
      NoReplacement(text);
      RoundTrip(text);
      var back := Unsqueezed(Squeezed(text, PHRASES), PHRASES);
      assert lib.decode(lib.encode(back)) == back;
    }
  }

  lemma NoReplacement(s: string)
    requires !Wide(s)
    ensures REPLACEMENT !in s
  {}

  /** For one: a line feed is the token of FIRE. */
  lemma LineFeedBecomesFire()
    ensures Unsqueezed(Squeezed("\n", PHRASES), PHRASES) == "FIRE"
  {
    UnsqueezeSqueezed("\n");
    ExpandedOne('\n', PHRASES);
    assert "\n" == ['\n'];
  }

  // ----- Choosing a method -----

  datatype Method = NONE | ZLIB | DELTA | DICTIONARY | GPS_PACKED | COMBINED
  {
    function Number(): (n: nat)
      ensures n < 6
    {
      match this
      case NONE => 0
      case ZLIB => 1
      case DELTA => 2
      case DICTIONARY => 3
      case GPS_PACKED => 4
      case COMBINED => 5
    }
  }

  function MethodOf(n: nat): (m: Option<Method>)
    ensures m.Some? ==> m.value.Number() == n
    ensures forall x: Method :: x.Number() == n ==> m == Some(x)
  {
    match n
    case 0 => Some(NONE)
    case 1 => Some(ZLIB)
    case 2 => Some(DELTA)
    case 3 => Some(DICTIONARY)
    case 4 => Some(GPS_PACKED)
    case 5 => Some(COMBINED)
    case _ => None
  }

  datatype Hint = NoHint | Text | Sos | Gps | Other

  datatype Packet = Packet(way: Method, originalSize: nat, compressedSize: nat, data: seq<byte>)

  predicate TextHint(hint: Hint) { hint == Text || hint == Sos }

  predicate UsesDictionary(lib: Codecs, data: seq<byte>, hint: Hint) { TextHint(hint) || lib.looksLikeText(data) }

  function Made(way: Method, original: seq<byte>, data: seq<byte>): Packet { Packet(way, |original|, |data|, data) }

  /** Everything tried, in the order tried; the dictionary result is wanted only where the dictionary is used. */
  function Candidates(lib: Codecs, data: seq<byte>, hint: Hint, squeezed: seq<byte>): (c: seq<Packet>)
    ensures |c| >= 2
  {
    [Made(NONE, data, data), Made(ZLIB, data, lib.deflate(data))]
      + (if UsesDictionary(lib, data, hint) then [Made(DICTIONARY, data, squeezed)] else [])
      + GpsCandidate(lib, data, hint)
      + (if TextHint(hint) then [Made(COMBINED, data, lib.deflate(squeezed))] else [])
  }

  function GpsCandidate(lib: Codecs, data: seq<byte>, hint: Hint): seq<Packet> {
    if hint == Gps || lib.looksLikeGps(data) then
      match lib.packGps(data)
      case Some(packed) => if packed == [] then [] else [Made(GPS_PACKED, data, packed)]
      case None => []
    else []
  }

  /** min: the first of the smallest. */
  predicate IsFirstSmallest(packets: seq<Packet>, best: Packet) {
    exists i :: 0 <= i < |packets| && SmallestAt(packets, best, i)
  }

  predicate SmallestAt(packets: seq<Packet>, best: Packet, i: nat)
    requires i < |packets|
  {
    && packets[i] == best
    && (forall j | 0 <= j < i :: packets[j].compressedSize > best.compressedSize)
    && (forall j | i <= j < |packets| :: packets[j].compressedSize >= best.compressedSize)
  }

  method Smallest(packets: seq<Packet>) returns (best: Packet)
    requires packets != []
    ensures IsFirstSmallest(packets, best)
  {
    best := packets[0];
    ghost var at := 0;
    for n := 1 to |packets|
      invariant at < n && SmallestAt(packets[..n], best, at)
    {
      if packets[n].compressedSize < best.compressedSize {
        best, at := packets[n], n;
      }
    }
    assert packets[..|packets|] == packets;
  }

  datatype CompressError = UnicodeEncodeError

  datatype DecompressError = ZlibError | UnknownMethod

  const NO_COUNTS: map<Method, nat> := map[NONE := 0, ZLIB := 0, DELTA := 0, DICTIONARY := 0, GPS_PACKED := 0, COMBINED := 0]

  class TurboCompressor {
    const lib: Codecs
    var totalOriginal: nat
    var totalCompressed: nat
    var packetsCompressed: nat
    var methodCounts: map<Method, nat>

    constructor (lib: Codecs)
      ensures this.lib == lib && totalOriginal == 0 && totalCompressed == 0 && packetsCompressed == 0
      ensures methodCounts == NO_COUNTS
    {
      this.lib := lib;
      totalOriginal, totalCompressed, packetsCompressed := 0, 0, 0;
      methodCounts := NO_COUNTS;
    }

    method Compress(data: seq<byte>, hint: Hint) returns (r: Result<Packet, CompressError>)
      requires forall m: Method :: m in methodCounts
      modifies this
      ensures forall m: Method :: m in methodCounts
      ensures r.Failure? <==> UsesDictionary(lib, data, hint) && DictionaryCompress(lib, data).None?
      ensures r.Failure? ==> unchanged(this)
      ensures r.Success? ==>
                && IsFirstSmallest(Candidates(lib, data, hint, SqueezedOrNothing(lib, data)), r.value)
                && totalOriginal == old(totalOriginal) + |data|
                && totalCompressed == old(totalCompressed) + r.value.compressedSize
                && packetsCompressed == old(packetsCompressed) + 1
                && methodCounts == old(methodCounts)[r.value.way := old(methodCounts)[r.value.way] + 1]
    {
      hide DictionaryCompress, IsFirstSmallest, Method.Number;
      var candidates := [Made(NONE, data, data)];
      candidates := candidates + [Made(ZLIB, data, lib.deflate(data))];
      if TextHint(hint) || lib.looksLikeText(data) {
        var squeezed := DictionaryCompress(lib, data);
        if squeezed.None? {
          return Failure(UnicodeEncodeError);
        }
        candidates := candidates + [Made(DICTIONARY, data, squeezed.value)];
      }
      if hint == Gps || lib.looksLikeGps(data) {
        var packed := lib.packGps(data);
        if packed.Some? && packed.value != [] {
          candidates := candidates + [Made(GPS_PACKED, data, packed.value)];
        }
      }
      if TextHint(hint) {
        var squeezed := DictionaryCompress(lib, data);
        candidates := candidates + [Made(COMBINED, data, lib.deflate(squeezed.value))];
      }
      assert candidates == Candidates(lib, data, hint, SqueezedOrNothing(lib, data));
      var best := Smallest(candidates);
      totalOriginal := totalOriginal + |data|;
      totalCompressed := totalCompressed + best.compressedSize;
      packetsCompressed := packetsCompressed + 1;
      methodCounts := methodCounts[best.way := methodCounts[best.way] + 1];
      return Success(best);
    }
  }

  function SqueezedOrNothing(lib: Codecs, data: seq<byte>): seq<byte> {
    match DictionaryCompress(lib, data)
    case Some(d) => d
    case None => []
  }

  function Decompress(lib: Codecs, p: Packet): Result<seq<byte>, DecompressError> {
    match p.way
    case NONE => Success(p.data)
    case ZLIB => (match lib.inflate(p.data) case Some(d) => Success(d) case None => Failure(ZlibError))
    case DICTIONARY => Success(DictionaryDecompress(lib, p.data))
    case GPS_PACKED => Success(lib.unpackGps(p.data))
    case COMBINED =>
      (match lib.inflate(p.data) case Some(d) => Success(DictionaryDecompress(lib, d)) case None => Failure(ZlibError))
    case DELTA => Failure(UnknownMethod)
  }

  // ----- What the compressor promises -----

  predicate Lossless(lib: Codecs, p: Packet, data: seq<byte>) {
    p.way in {DICTIONARY, COMBINED} ==> !HasToken(lib.decode(data))
  }

  lemma CandidateRoundTrip(lib: Codecs, data: seq<byte>, hint: Hint, p: Packet)
    requires Faithful(lib) && (UsesDictionary(lib, data, hint) ==> DictionaryCompress(lib, data).Some?)
    requires p in Candidates(lib, data, hint, SqueezedOrNothing(lib, data))
    ensures p.originalSize == |data| && p.compressedSize == |p.data|
    ensures p.way != GPS_PACKED ==> (Decompress(lib, p) == Success(data) <==> Lossless(lib, p, data))
  {
    hide HasToken, DictionaryCompress, DictionaryDecompress;
    var squeezed := SqueezedOrNothing(lib, data);
    DictionaryRoundTrip(lib, data);
    assert lib.inflate(lib.deflate(data)) == Some(data) && lib.inflate(lib.deflate(squeezed)) == Some(squeezed);
  }

  /**
   * Whatever the compressor picks is no longer than the data; and, GPS packing apart, it decompresses
   * to the data exactly when it is not a dictionary result for a text that holds token characters.
   */
  lemma CompressRoundTrip(lib: Codecs, data: seq<byte>, hint: Hint, best: Packet)
    requires Faithful(lib) && (UsesDictionary(lib, data, hint) ==> DictionaryCompress(lib, data).Some?)
    requires IsFirstSmallest(Candidates(lib, data, hint, SqueezedOrNothing(lib, data)), best)
    ensures |best.data| == best.compressedSize <= |data| == best.originalSize
    ensures best.way != GPS_PACKED ==> (Decompress(lib, best) == Success(data) <==> Lossless(lib, best, data))
  {
    hide Lossless, Decompress, Faithful, DictionaryCompress, UsesDictionary, SqueezedOrNothing;
    var candidates := Candidates(lib, data, hint, SqueezedOrNothing(lib, data));
    var i :| 0 <= i < |candidates| && SmallestAt(candidates, best, i);
    assert candidates[0] == Made(NONE, data, data);
    CandidateRoundTrip(lib, data, hint, best);
  }

  // ----- The packet's own wire format -----

  function ToBytes(p: Packet): Option<seq<byte>> {
    if p.originalSize >= 0x1_0000 then None
    else Some([ByteOf(p.way.Number())] + Be16(p.originalSize) + p.data)
  }

  /** None stands for a struct.error or an unknown method number. */
  function FromBytes(raw: seq<byte>): Option<Packet> {
    if |raw| < 3 then None
    else
      ByteOfValue(raw[0]);
      match MethodOf(raw[0] as int)
      case Some(way) => Some(Packet(way, Be16Value(raw[1..3]), |raw| - 3, raw[3..]))
      case None => None
  }

  /** The packet survives the wire exactly when its size field fits 16 bits and its compressed size is its data's. */
  lemma PacketRoundTrip(p: Packet)
    ensures (ToBytes(p).Some? && FromBytes(ToBytes(p).value) == Some(p)) <==> p.originalSize < 0x1_0000 && p.compressedSize == |p.data|
    ensures forall raw: seq<byte> :: FromBytes(raw) == Some(p) ==> ToBytes(p) == Some(raw)
  {
    hide ByteOf, Be16, Be16Value, Method.Number;
    if p.originalSize < 0x1_0000 {
      var raw := ToBytes(p).value;
      assert raw[1..3] == Be16(p.originalSize) && raw[3..] == p.data;
    }
    forall raw: seq<byte> | FromBytes(raw) == Some(p)
      ensures ToBytes(p) == Some(raw)
    {
      Be16OfValue(raw[1..3]);
      ByteOfValue(raw[0]);
      assert raw == [raw[0]] + raw[1..3] + raw[3..];
    }
  }
}
