/** The C reassembler (native/include/voice_chunker.h) against the Python one. */
module NativeReassembly {
  import opened Bytes
  import opened NativeVoice
  import opened Voice
  import opened VoiceReassembly

  /** The reassembler's state; the payload arrays are seen as a map of what was received. */
  datatype NativeBuffer = NativeBuffer(messageId: nat, stored: map<nat, seq<byte>>, expected: nat, received: nat,
                                       complete: bool, mode: byte, firstMs: nat, lastMs: nat)

  function EmptyNative(messageId: nat): NativeBuffer { NativeBuffer(messageId, map[], 0, 0, false, 0, 0, 0) }

  /** Too short, another magic, another message, too high a number, or too long. */
  predicate Refused(data: seq<byte>, messageId: nat) {
    || |data| < VOICE_HEADER_SIZE
    || Be16Value(data[..2]) != VOICE_MAGIC
    || Be32Value(data[2..6]) != messageId
    || Be16Value(data[6..8]) >= MAX_CHUNKS
    || |data| - VOICE_HEADER_SIZE > VOICE_MAX_PAYLOAD
  }

  function Stored(b: NativeBuffer, k: nat, payload: seq<byte>, mode: byte, now: nat): NativeBuffer {
    if k in b.stored then b
    else NativeBuffer(b.messageId, b.stored[k := payload], b.expected, b.received + 1, b.complete, mode,
                      if b.firstMs == 0 then now else b.firstMs, now)
  }

  function Judged(b: NativeBuffer, k: nat, last: bool): NativeBuffer {
    var expected := if last then k + 1 else b.expected;
    NativeBuffer(b.messageId, b.stored, expected, b.received, b.complete || (expected > 0 && b.received >= expected),
                 b.mode, b.firstMs, b.lastMs)
  }

  function NativeAdded(b: NativeBuffer, data: seq<byte>, now: nat): NativeBuffer {
    if Refused(data, b.messageId) then b
    else
      var k := Be16Value(data[6..8]);
      Judged(Stored(b, k, data[VOICE_HEADER_SIZE..], data[9], now), k, data[8] & LAST_CHUNK != 0)
  }

  class OolReassemblyBuffer {
    const messageId: nat
    const chunkReceived: array<bool>
    const payload: array<seq<byte>>   // payload[k][..payload_len[k]]
    var expectedChunks: nat
    var receivedCount: nat
    var complete: bool
    var codecMode: byte
    var firstReceivedMs: nat
    var lastReceivedMs: nat

    ghost predicate Valid()
      reads this
    {
      chunkReceived.Length == MAX_CHUNKS && payload.Length == MAX_CHUNKS
    }

    ghost function View(): NativeBuffer
      requires Valid()
      reads this, chunkReceived, payload
    {
      NativeBuffer(messageId, map k: nat | k < MAX_CHUNKS && chunkReceived[k] :: payload[k], expectedChunks, receivedCount,
                   complete, codecMode, firstReceivedMs, lastReceivedMs)
    }

    constructor (messageId: nat)
      ensures Valid() && View() == EmptyNative(messageId)
      ensures fresh(chunkReceived) && fresh(payload)
    {
      this.messageId := messageId;
      chunkReceived := new bool[MAX_CHUNKS](_ => false);
      payload := new seq<byte>[MAX_CHUNKS](_ => []);
      expectedChunks, receivedCount, complete, codecMode, firstReceivedMs, lastReceivedMs := 0, 0, false, 0, 0, 0;
    }

    method AddChunk(data: seq<byte>, now: nat) returns (done: bool)
      requires Valid()
      modifies this, chunkReceived, payload
      ensures Valid() && View() == NativeAdded(old(View()), data, now)
      ensures done <==> !Refused(data, messageId) && complete
    {
      hide Be16Value, Be32Value;
      if |data| < VOICE_HEADER_SIZE || Be16Value(data[..2]) != VOICE_MAGIC {
        return false;
      }
      if Be32Value(data[2..6]) != messageId {
        return false;
      }
      var k := Be16Value(data[6..8]);
      if k >= MAX_CHUNKS {
        return false;
      }
      if |data| - VOICE_HEADER_SIZE > VOICE_MAX_PAYLOAD {
        return false;
      }
      Store(k, data[VOICE_HEADER_SIZE..], data[9], now);
      if data[8] & LAST_CHUNK != 0 {
        expectedChunks := k + 1;
      }
      if expectedChunks > 0 && receivedCount >= expectedChunks {
        complete := true;
      }
      return complete;
    }

    /** The first reception of a number is kept. */
    method Store(k: nat, bytes: seq<byte>, mode: byte, now: nat)
      requires Valid() && k < MAX_CHUNKS
      modifies this, chunkReceived, payload
      ensures Valid() && View() == Stored(old(View()), k, bytes, mode, now)
    {
      if !chunkReceived[k] {
        payload[k] := bytes;
        chunkReceived[k] := true;
        receivedCount := receivedCount + 1;
        codecMode := mode;
        if firstReceivedMs == 0 {
          firstReceivedMs := now;
        }
        lastReceivedMs := now;
      }
    }
  }

  // ----- Agreement with the Python buffer -----

  function NativeReceive(b: NativeBuffer, datagrams: seq<Datagram>): NativeBuffer {
    if datagrams == [] then b
    else
      var last := datagrams[|datagrams| - 1];
      NativeAdded(NativeReceive(b, datagrams[..|datagrams| - 1]), last.data, Milliseconds(last.at))
  }

  function Milliseconds(at: real): nat {
    if at < 0.0 then 0 else (at * 1000.0).Floor % 0x1_0000_0000
  }

  /** Short enough for the C buffer: at most 128 chunks of at most 70 bytes. */
  predicate Small(chunks: seq<Chunk>) {
    |chunks| <= MAX_CHUNKS && forall k | 0 <= k < |chunks| :: |chunks[k].payload| <= VOICE_MAX_PAYLOAD
  }

  /** The payloads of the message's chunks that have been seen, each counted once. */
  predicate HoldsStored(b: NativeBuffer, chunks: seq<Chunk>, seen: set<nat>) {
    && seen <= Upto(|chunks|) && b.stored.Keys == seen && b.received == |seen|
    && forall k | k in seen :: b.stored[k] == chunks[k].payload
  }

  /** The total known once the last has been seen; complete when all have. */
  predicate HoldsVerdict(b: NativeBuffer, total: nat, seen: set<nat>) {
    && b.expected == (if total - 1 in seen then total else 0)
    && (b.complete <==> seen == Upto(total))
  }

  predicate NativeHolds(b: NativeBuffer, chunks: seq<Chunk>, seen: set<nat>) {
    HoldsStored(b, chunks, seen) && HoldsVerdict(b, |chunks|, seen)
  }

  /** How the C header fields read a chunk that Python serialized. */
  lemma ReadsOwn(c: Chunk)
    requires 0 <= c.messageId < 0x1_0000_0000 && c.sequence < 0x1_0000
    ensures var data := Serialize(c);
            && |data| == VOICE_HEADER_SIZE + |c.payload| && Be16Value(data[..2]) == VOICE_MAGIC
            && Be32Value(data[2..6]) == c.messageId && Be16Value(data[6..8]) == c.sequence
            && data[8] == c.flags && data[VOICE_HEADER_SIZE..] == c.payload
  {
    hide Header, Be16, Be32, Be16Value, Be32Value, ByteOf;
    HeaderFields(c.messageId, c.sequence, c.flags, c.mode.Id(), c.payload);
  }

  lemma AddsOwn(b: NativeBuffer, c: Chunk, now: nat)
    requires b.messageId == c.messageId && c.messageId < 0x1_0000_0000
    requires c.sequence < MAX_CHUNKS && |c.payload| <= VOICE_MAX_PAYLOAD
    ensures |Serialize(c)| >= VOICE_HEADER_SIZE
    ensures NativeAdded(b, Serialize(c), now) ==
            Judged(Stored(b, c.sequence, c.payload, Serialize(c)[9], now), c.sequence, c.IsLast())
  {
    hide Serialize, Be16Value, Be32Value;
    ReadsOwn(c);
  }

  lemma OwnHolds(b: NativeBuffer, chunks: seq<Chunk>, seen: set<nat>, k: nat, mode: byte, now: nat)
    requires Numbered(chunks) && NativeHolds(b, chunks, seen) && k < |chunks|
    ensures NativeHolds(Judged(Stored(b, k, chunks[k].payload, mode, now), k, chunks[k].IsLast()), chunks, seen + {k})
  {
    hide Upto, Chunk.IsLast, Numbered;
    StoredHolds(b, chunks, seen, k, mode, now);
    OnlyLast(chunks, k);
    JudgedHolds(b, Stored(b, k, chunks[k].payload, mode, now), |chunks|, seen, k);
  }

  lemma StoredHolds(b: NativeBuffer, chunks: seq<Chunk>, seen: set<nat>, k: nat, mode: byte, now: nat)
    requires HoldsStored(b, chunks, seen) && k < |chunks|
    ensures HoldsStored(Stored(b, k, chunks[k].payload, mode, now), chunks, seen + {k})
  {
    hide Upto;
    if k in seen {
      assert seen + {k} == seen;
    }
  }

  lemma JudgedHolds(b: NativeBuffer, stored: NativeBuffer, total: nat, seen: set<nat>, k: nat)
    requires k < total && seen <= Upto(total) && HoldsVerdict(b, total, seen)
    requires stored.expected == b.expected && stored.complete == b.complete && stored.received == |seen + {k}|
    ensures HoldsVerdict(Judged(stored, k, k == total - 1), total, seen + {k})
  {
    hide Upto;
    FullWhenAsMany(seen + {k}, total);
    if b.complete {
      assert seen + {k} == seen;
    }
  }

  lemma OnlyLast(chunks: seq<Chunk>, k: nat)
    requires Numbered(chunks) && k < |chunks|
    ensures chunks[k].IsLast() <==> k == |chunks| - 1
  {}

  /** A datagram the Python side does not take for one of the message's chunks leaves the C side alone too. */
  lemma OtherRefused(data: seq<byte>, chunks: seq<Chunk>, messageId: nat)
    requires Genuine(data, chunks, messageId) && forall k | 0 <= k < |chunks| :: data != Serialize(chunks[k])
    ensures Refused(data, messageId)
  {}

  lemma {:induction false} NativeReceiveHolds(datagrams: seq<Datagram>, chunks: seq<Chunk>, messageId: nat)
    requires Sendable(chunks, messageId) && Small(chunks) && AllGenuine(datagrams, chunks, messageId)
    ensures NativeReceive(EmptyNative(messageId), datagrams).messageId == messageId
    ensures NativeHolds(NativeReceive(EmptyNative(messageId), datagrams), chunks, Seen(Parsed(datagrams), messageId))
    decreases datagrams
  {
    hide Serialize, Deserialize, Seen, NativeHolds, Upto, Refused, Judged, Stored, Chunk.IsLast, Genuine;
    if datagrams == [] {
      NothingSeen(chunks, messageId);
    } else {
      var n := |datagrams| - 1;
      var data, now := datagrams[n].data, Milliseconds(datagrams[n].at);
      var before, after := Parsed(datagrams[..n]), Parsed(datagrams);
      var b := NativeReceive(EmptyNative(messageId), datagrams[..n]);
      NativeReceiveHolds(datagrams[..n], chunks, messageId);
      if k :| 0 <= k < |chunks| && data == Serialize(chunks[k]) {
        OwnDatagram(chunks, messageId, k);
        assert after[..|after| - 1] == before;
        SeenMore(after, messageId);
        AddsOwn(b, chunks[k], now);
        OwnHolds(b, chunks, Seen(before, messageId), k, Serialize(chunks[k])[9], now);
        KeepsId(b, data, now);
      } else {
        OtherRefused(data, chunks, messageId);
        GenuineIsForeign(data, chunks, messageId);
        if Deserialize(data).Some? {
          assert after[..|after| - 1] == before;
          SeenMore(after, messageId);
          assert Seen(before, messageId) + {} == Seen(before, messageId);
        }
      }
    }
  }

  lemma KeepsId(b: NativeBuffer, data: seq<byte>, now: nat)
    ensures NativeAdded(b, data, now).messageId == b.messageId
  {}

  lemma NothingSeen(chunks: seq<Chunk>, messageId: nat)
    requires Numbered(chunks)
    ensures Seen([], messageId) == {} && NativeHolds(EmptyNative(messageId), chunks, {})
  {
    assert 0 in Upto(|chunks|);
  }

  lemma GenuineIsForeign(data: seq<byte>, chunks: seq<Chunk>, messageId: nat)
    requires Sendable(chunks, messageId) && Genuine(data, chunks, messageId)
    requires forall k | 0 <= k < |chunks| :: data != Serialize(chunks[k])
    ensures Deserialize(data).Some? ==> Deserialize(data).value.messageId != messageId
  {
    hide Serialize, Be16Value, Be32Value, ModeOf;
  }

  /**
   * Fed the same datagrams, whatever their order, duplicates, losses and other traffic, the two
   * reassemblers hold the same payloads and complete on exactly the same one.
   */
  lemma CompleteTogether(chunks: seq<Chunk>, messageId: nat, datagrams: seq<Datagram>)
    requires Sendable(chunks, messageId) && Small(chunks) && AllGenuine(datagrams, chunks, messageId)
    ensures var native := NativeReceive(EmptyNative(messageId), datagrams);
            var python := Receive(Empty(messageId), Parsed(datagrams));
            && (native.complete <==> python.IsComplete())
            && native.received == |python.chunks| && native.stored.Keys == python.chunks.Keys
            && forall k | k in native.stored :: native.stored[k] == python.chunks[k].payload
  {
    hide Serialize, Deserialize, Genuine, Seen, Upto, Receive, Parsed, NativeReceive, Numbered, Buffer.IsComplete;
    var seen := Seen(Parsed(datagrams), messageId);
    NativeReceiveHolds(datagrams, chunks, messageId);
    SomeChunk(chunks, messageId);
    ParsedBelong(datagrams, chunks, messageId, 0);
    ReceiveHolds(Parsed(datagrams), chunks, messageId);
    HoldsAnswers(Receive(Empty(messageId), Parsed(datagrams)), chunks, seen);
    var python := Receive(Empty(messageId), Parsed(datagrams));
    assert |python.chunks| == |python.chunks.Keys|;
  }

  lemma SomeChunk(chunks: seq<Chunk>, messageId: nat)
    requires Sendable(chunks, messageId)
    ensures |chunks| > 0
  {}
}
