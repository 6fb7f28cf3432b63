/** What the C reassembler makes of the C chunker's own marks (native/include/voice_chunker.h). */
module NativeDelivery {
  import opened Bytes
  import opened Voice
  import opened VoiceReassembly
  import opened NativeVoice
  import opened NativeMarks
  import opened NativeReassembly

  /** A chunk that the reassembler takes for number k of the message. */
  predicate Fields(data: seq<byte>, messageId: nat, k: nat) {
    !Refused(data, messageId) && Be16Value(data[6..8]) == k
  }

  lemma FieldsOfHeader(data: seq<byte>, messageId: nat, k: nat)
    requires VOICE_HEADER_SIZE <= |data| <= LORA_MAX_FRAME && messageId < 0x1_0000_0000 && k < MAX_CHUNKS
    requires data[..2] == Be16(VOICE_MAGIC) && data[2..6] == Be32(messageId) && data[6..8] == Be16(k)
    ensures Fields(data, messageId, k)
  {
    hide Be16, Be32, Be16Value, Be32Value;
  }

  lemma NothingCut(messageId: nat, k: nat)
    requires messageId < 0x1_0000_0000 && k < MAX_CHUNKS
    ensures messageId % 0x1_0000_0000 == messageId && k % 0x1_0000 == k
  {}

  lemma PackedHeader(frames: seq<AudioFrame>, messageId: nat, k: nat, flags: byte)
    requires frames != [] && messageId < 0x1_0000_0000 && k < MAX_CHUNKS
    ensures |Packed(frames, messageId, k, flags)| >= VOICE_HEADER_SIZE
    ensures var data := Packed(frames, messageId, k, flags);
      data[..2] == Be16(VOICE_MAGIC) && data[2..6] == Be32(messageId) && data[6..8] == Be16(k)
  {
    NothingCut(messageId, k);
    hide Header, Join, Fitting, Be16, Be32;
    ByteOfValue(frames[0].codecMode);
    HeaderFields(messageId, k, flags, frames[0].codecMode as int,
                 Join(Encoded(frames[..Fitting(frames, VOICE_MAX_PAYLOAD)])));
  }

  lemma PackedLength(frames: seq<AudioFrame>, messageId: nat, k: nat, flags: byte)
    requires frames != []
    ensures VOICE_HEADER_SIZE <= |Packed(frames, messageId, k, flags)| <= LORA_MAX_FRAME
  {
    hide Packed, Join, Fitting;
    PackedPayload(frames, messageId, k, flags);
  }

  lemma PackedFields(frames: seq<AudioFrame>, messageId: nat, k: nat, flags: byte)
    requires frames != [] && messageId < 0x1_0000_0000 && k < MAX_CHUNKS
    ensures Fields(Packed(frames, messageId, k, flags), messageId, k)
  {
    hide Packed, Fields, Be16, Be32;
    PackedLength(frames, messageId, k, flags);
    PackedHeader(frames, messageId, k, flags);
    FieldsOfHeader(Packed(frames, messageId, k, flags), messageId, k);
  }

  /** Every chunk made is taken, under the number it was made with. */
  lemma {:induction false} ChunkFields(frames: seq<AudioFrame>, perChunk: nat, messageId: nat, at: nat, k: nat, i: nat)
    requires at <= |frames| && perChunk >= 1 && messageId < 0x1_0000_0000
    requires i < |NativeChunks(frames, perChunk, messageId, at, k)|
    ensures Fields(NativeChunks(frames, perChunk, messageId, at, k)[i].data, messageId, k + i)
    decreases i
  {
    hide NativeChunks, Fields, Packed, Fitting, FlagsOf, Batch;
    Exhausted(frames, perChunk, messageId, at, k);
    NativeChunksUnfold(frames, perChunk, messageId, at, k);
    var batch := Batch(frames, at, perChunk);
    var n := Fitting(batch, VOICE_MAX_PAYLOAD);
    if i == 0 {
      PackedFields(batch, messageId, k, FlagsOf(k == 0, at + |batch| == |frames|));
    } else {
      ChunkFields(frames, perChunk, messageId, at + n, k + 1, i - 1);
    }
  }

  // ----- Any delivery: without a mark nothing is ever complete -----

  /** Every datagram is one of these or refused. */
  predicate From(datagrams: seq<Datagram>, chunks: seq<PackedChunk>, messageId: nat) {
    forall i | 0 <= i < |datagrams| ::
      Refused(datagrams[i].data, messageId) || exists k :: 0 <= k < |chunks| && datagrams[i].data == chunks[k].data
  }

  lemma {:induction false} UnmarkedNeverComplete(datagrams: seq<Datagram>, chunks: seq<PackedChunk>, messageId: nat)
    requires From(datagrams, chunks, messageId) && forall k | 0 <= k < |chunks| :: !MarkedLast(chunks[k].data)
    ensures var b := NativeReceive(EmptyNative(messageId), datagrams);
      b.messageId == messageId && b.expected == 0 && !b.complete
    decreases datagrams
  {
    hide Refused, Be16Value;
    if datagrams != [] {
      var n := |datagrams| - 1;
      UnmarkedNeverComplete(datagrams[..n], chunks, messageId);
      UnmarkedAdds(NativeReceive(EmptyNative(messageId), datagrams[..n]), datagrams[n].data, Milliseconds(datagrams[n].at));
    }
  }

  lemma UnmarkedAdds(b: NativeBuffer, data: seq<byte>, now: nat)
    requires Refused(data, b.messageId) || !MarkedLast(data)
    requires b.expected == 0 && !b.complete
    ensures var after := NativeAdded(b, data, now); after.messageId == b.messageId && after.expected == 0 && !after.complete
  {
    hide Be16Value, Be32Value;
  }

  // ----- Delivery in order: complete from the first mark on -----

  /** The first k chunks as they come. */
  function InOrder(chunks: seq<PackedChunk>, k: nat, at: real): (datagrams: seq<Datagram>)
    requires k <= |chunks|
    ensures |datagrams| == k
  {
    seq(k, i requires 0 <= i < k => Datagram(chunks[i].data, at))
  }

  predicate SomeMark(chunks: seq<PackedChunk>, k: nat)
    requires k <= |chunks|
  {
    exists i :: 0 <= i < k && MarkedLast(chunks[i].data)
  }

  ghost predicate HoldsFirst(b: NativeBuffer, chunks: seq<PackedChunk>, k: nat, messageId: nat)
    requires k <= |chunks|
  {
    && b.messageId == messageId && b.received == k && (forall i: nat :: i in b.stored <==> i < k)
    && b.expected <= k && (b.expected > 0 <==> SomeMark(chunks, k)) && (b.complete <==> SomeMark(chunks, k))
  }

  lemma NextHolds(b: NativeBuffer, chunks: seq<PackedChunk>, k: nat, messageId: nat, now: nat)
    requires k < |chunks| && HoldsFirst(b, chunks, k, messageId) && Fields(chunks[k].data, messageId, k)
    ensures HoldsFirst(NativeAdded(b, chunks[k].data, now), chunks, k + 1, messageId)
  {
    hide Be16Value, Be32Value;
    assert SomeMark(chunks, k + 1) <==> SomeMark(chunks, k) || MarkedLast(chunks[k].data);
  }

  lemma {:induction false} FirstHolds(chunks: seq<PackedChunk>, k: nat, messageId: nat, at: real)
    requires k <= |chunks| && forall i | 0 <= i < |chunks| :: Fields(chunks[i].data, messageId, i)
    ensures HoldsFirst(NativeReceive(EmptyNative(messageId), InOrder(chunks, k, at)), chunks, k, messageId)
    decreases k
  {
    hide NativeAdded, Fields;
    if k > 0 {
      hide HoldsFirst;
      FirstHolds(chunks, k - 1, messageId, at);
      assert InOrder(chunks, k, at)[..k - 1] == InOrder(chunks, k - 1, at);
      NextHolds(NativeReceive(EmptyNative(messageId), InOrder(chunks, k - 1, at)), chunks, k - 1, messageId, Milliseconds(at));
    }
  }

  /** The Python buffer after the same. */
  ghost predicate PythonHoldsFirst(b: Buffer, chunks: seq<PackedChunk>, k: nat, messageId: nat)
    requires k <= |chunks|
  {
    && b.messageId == messageId && b.chunks.Keys == Upto(k)
    && (b.expectedTotal.Some? <==> SomeMark(chunks, k)) && (b.expectedTotal.Some? ==> b.expectedTotal.value <= k)
  }

  lemma PythonNext(b: Buffer, chunks: seq<PackedChunk>, k: nat, messageId: nat, now: real)
    requires k < |chunks| && PythonHoldsFirst(b, chunks, k, messageId) && Fields(chunks[k].data, messageId, k)
    requires Deserialize(chunks[k].data).Some?
    ensures PythonHoldsFirst(Added(b, Deserialize(chunks[k].data).value, now), chunks, k + 1, messageId)
  {
    hide Be16Value, Be32Value, ModeOf;
    assert SomeMark(chunks, k + 1) <==> SomeMark(chunks, k) || MarkedLast(chunks[k].data);
  }

  lemma {:induction false} PythonFirstHolds(chunks: seq<PackedChunk>, k: nat, messageId: nat, at: real)
    requires k <= |chunks| && forall i | 0 <= i < |chunks| :: Fields(chunks[i].data, messageId, i) && Deserialize(chunks[i].data).Some?
    ensures PythonHoldsFirst(Receive(Empty(messageId), Parsed(InOrder(chunks, k, at))), chunks, k, messageId)
    decreases k
  {
    hide Added, Fields, Deserialize;
    if k > 0 {
      hide PythonHoldsFirst;
      PythonFirstHolds(chunks, k - 1, messageId, at);
      assert InOrder(chunks, k, at)[..k - 1] == InOrder(chunks, k - 1, at);
      var earlier := Parsed(InOrder(chunks, k - 1, at));
      var last := Deserialize(chunks[k - 1].data).value;
      assert (earlier + [Arrival(last, at)])[..|earlier|] == earlier;
      PythonNext(Receive(Empty(messageId), earlier), chunks, k - 1, messageId, at);
    }
  }

  lemma PythonComplete(b: Buffer, chunks: seq<PackedChunk>, k: nat, messageId: nat)
    requires k <= |chunks| && PythonHoldsFirst(b, chunks, k, messageId)
    ensures b.IsComplete() <==> SomeMark(chunks, k)
  {
    assert |b.chunks| == |b.chunks.Keys| == k;
  }

  /**
   * Received in order and without loss, a message of any frames is complete from its first marked chunk on, for both
   * reassemblers: before its last chunk has come where a mark is early, and never where the chunker has stopped before
   * it set one.
   */
  lemma CompleteFromFirstMark(frames: seq<AudioFrame>, perChunk: nat, messageId: nat, k: nat, at: real)
    requires perChunk >= 1 && messageId < 0x1_0000_0000 && k <= |NativeChunks(frames, perChunk, messageId, 0, 0)|
    ensures var chunks := NativeChunks(frames, perChunk, messageId, 0, 0);
      NativeReceive(EmptyNative(messageId), InOrder(chunks, k, at)).complete <==> SomeMark(chunks, k)
    ensures var chunks := NativeChunks(frames, perChunk, messageId, 0, 0);
      (forall i | 0 <= i < |chunks| :: Deserialize(chunks[i].data).Some?) ==>
        (Receive(Empty(messageId), Parsed(InOrder(chunks, k, at))).IsComplete() <==> SomeMark(chunks, k))
  {
    hide NativeChunks, Fields, NativeReceive, Deserialize, Receive, Parsed, Buffer.IsComplete;
    var chunks := NativeChunks(frames, perChunk, messageId, 0, 0);
    forall i | 0 <= i < |chunks|
      ensures Fields(chunks[i].data, messageId, i)
    {
      ChunkFields(frames, perChunk, messageId, 0, 0, i);
    }
    FirstHolds(chunks, k, messageId, at);
    if forall i | 0 <= i < |chunks| :: Deserialize(chunks[i].data).Some? {
      PythonFirstHolds(chunks, k, messageId, at);
      PythonComplete(Receive(Empty(messageId), Parsed(InOrder(chunks, k, at))), chunks, k, messageId);
    }
  }
}
