/** What the compressor's choice amounts to, and how it stands on the wire (backend/turbo_compression.py). */
module CompressionChoice {
  import opened Bytes
  import opened Octets
  import opened PhraseDictionary
  import opened SqueezedPhrases
  import opened TurboCompression

  /** The bytes of the text with its phrases replaced, one for each character. */
  predicate IsSqueezed(lib: Codecs, data: seq<byte>, d: seq<byte>) {
    var text := Squeezed(lib.decode(data), PHRASES);
    |d| == |text| && forall i | 0 <= i < |d| :: d[i] as int == text[i] as int
  }

  /** The choice of compress, where it does not raise. */
  predicate Chosen(lib: Codecs, data: seq<byte>, hint: Hint, best: Packet) {
    && (UsesDictionary(lib, data, hint) ==> DictionaryCompress(lib, data).Some?)
    && IsFirstSmallest(Candidates(lib, data, hint, SqueezedOrNothing(lib, data)), best)
  }

  lemma SqueezedBytes(lib: Codecs, data: seq<byte>, d: seq<byte>)
    requires DictionaryCompress(lib, data).Some?
    ensures IsSqueezed(lib, data, d) <==> d == SqueezedOrNothing(lib, data)
  {
    hide Squeezed, ByteOf, Wide;
    var text := Squeezed(lib.decode(data), PHRASES);
    var made := SqueezedOrNothing(lib, data);
    assert made == ToLatin1(text);
    assert forall i | 0 <= i < |made| :: made[i] as int == text[i] as int;
    if IsSqueezed(lib, data, d) {
      forall i | 0 <= i < |d| ensures d[i] == made[i] { SameValue(d[i], made[i]); }
    }
  }

  lemma SmallerThanAll(packets: seq<Packet>, best: Packet, p: Packet)
    requires IsFirstSmallest(packets, best) && p in packets
    ensures best in packets && best.compressedSize <= p.compressedSize
    ensures best != packets[0] ==> best.compressedSize < packets[0].compressedSize
  {}

  /** Nothing that was tried is smaller, and other bytes than the data are chosen only where they are fewer. */
  lemma NothingIsSmaller(lib: Codecs, data: seq<byte>, hint: Hint, best: Packet, squeezed: seq<byte>)
    requires Chosen(lib, data, hint, best)
    ensures best == Packet(best.way, |data|, |best.data|, best.data)
    ensures |best.data| <= |data| && |best.data| <= |lib.deflate(data)|
    ensures best.way != NONE ==> |best.data| < |data|
    ensures (hint == Text || hint == Sos || lib.looksLikeText(data)) && IsSqueezed(lib, data, squeezed) ==> |best.data| <= |squeezed|
    ensures (hint == Text || hint == Sos) && IsSqueezed(lib, data, squeezed) ==> |best.data| <= |lib.deflate(squeezed)|
    ensures (hint == Gps || lib.looksLikeGps(data)) && lib.packGps(data).Some? && lib.packGps(data).value != [] ==>
              |best.data| <= |lib.packGps(data).value|
  {
    hide IsFirstSmallest, IsSqueezed, DictionaryCompress;
    var made := SqueezedOrNothing(lib, data);
    var c := Candidates(lib, data, hint, made);
    SmallerThanAll(c, best, c[0]);
    SmallerThanAll(c, best, c[1]);
    if UsesDictionary(lib, data, hint) {
      SqueezedBytes(lib, data, squeezed);
      assert c[2] == Made(DICTIONARY, data, made);
      SmallerThanAll(c, best, c[2]);
    }
    if TextHint(hint) {
      assert c[|c| - 1] == Made(COMBINED, data, lib.deflate(made));
      SmallerThanAll(c, best, c[|c| - 1]);
    }
    if (hint == Gps || lib.looksLikeGps(data)) && lib.packGps(data).Some? && lib.packGps(data).value != [] {
      var p := Made(GPS_PACKED, data, lib.packGps(data).value);
      assert GpsCandidate(lib, data, hint) == [p];
      assert c[if UsesDictionary(lib, data, hint) then 3 else 2] == p;
      SmallerThanAll(c, best, p);
    }
  }

  /** The bytes are what the method's name says, and a method is used only on data it is meant for. */
  lemma MethodMeans(lib: Codecs, data: seq<byte>, hint: Hint, best: Packet)
    requires Chosen(lib, data, hint, best)
    ensures match best.way
      case NONE => best.data == data
      case ZLIB => best.data == lib.deflate(data)
      case DICTIONARY => (hint == Text || hint == Sos || lib.looksLikeText(data)) && IsSqueezed(lib, data, best.data)
      case COMBINED => (hint == Text || hint == Sos) && exists d :: IsSqueezed(lib, data, d) && best.data == lib.deflate(d)
      case GPS_PACKED => (hint == Gps || lib.looksLikeGps(data)) && lib.packGps(data) == Some(best.data) && best.data != []
      case DELTA => false
  {
    hide IsFirstSmallest, IsSqueezed, DictionaryCompress;
    var made := SqueezedOrNothing(lib, data);
    var c := Candidates(lib, data, hint, made);
    SmallerThanAll(c, best, c[0]);
    if UsesDictionary(lib, data, hint) {
      SqueezedBytes(lib, data, made);
    }
  }

  /** A phrase on its own, hinted as text, costs one byte at most. */
  lemma PhraseCostsOneByte(lib: Codecs, data: seq<byte>, hint: Hint, best: Packet, k: nat)
    requires Chosen(lib, data, hint, best) && (hint == Text || hint == Sos) && k < PHRASES && lib.decode(data) == Phrase(k)
    ensures |best.data| <= 1
  {
    hide IsFirstSmallest, Phrase, Squeezed, DictionaryCompress, Candidates;
    PhraseIsOneToken(k);
    assert IsSqueezed(lib, data, [Bytes.ByteOf(k + 1)]);
    NothingIsSmaller(lib, data, hint, best, [Bytes.ByteOf(k + 1)]);
  }

  // ----- On the wire -----

  predicate Holds(raw: seq<byte>, p: Packet) {
    && |raw| >= 3 && (raw[0] as int) < 6
    && p.way == [NONE, ZLIB, DELTA, DICTIONARY, GPS_PACKED, COMBINED][raw[0] as int]
    && Number(raw[1..3]) == p.originalSize && raw[3..] == p.data && p.compressedSize == |p.data|
  }

  /** Bytes are read as a packet exactly when they hold it. */
  lemma ReadIff(raw: seq<byte>, p: Packet)
    ensures FromBytes(raw) == Some(p) <==> Holds(raw, p)
  {
    hide Number, Be16Value;
    if |raw| >= 3 {
      Numbers(raw[1..3]);
    }
  }
}
