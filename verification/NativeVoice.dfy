/** The C chunker (native/include/voice_chunker.h, audio_frame.h), and how its chunks match the Python ones. */
module NativeVoice {
  import opened Bytes
  import opened Voice

  const LORA_MAX_FRAME := 80
  const MAX_CHUNKS := 128

  /** An encoded frame; encoded_len is the length. */
  datatype AudioFrame = AudioFrame(codecMode: byte, encoded: seq<byte>)

  function Encoded(frames: seq<AudioFrame>): seq<seq<byte>> {
    seq(|frames|, i requires 0 <= i < |frames| => frames[i].encoded)
  }

  /** How many leading frames fit in `room` bytes. */
  function Fitting(frames: seq<AudioFrame>, room: nat): (n: nat)
    ensures n <= |frames|
  {
    if frames == [] || |frames[0].encoded| > room then 0 else 1 + Fitting(frames[1..], room - |frames[0].encoded|)
  }

  lemma EncodedPrefix(frames: seq<AudioFrame>, i: nat)
    requires i < |frames|
    ensures Join(Encoded(frames[..i + 1])) == Join(Encoded(frames[..i])) + frames[i].encoded
  {
    assert Encoded(frames[..i + 1])[..i] == Encoded(frames[..i]);
  }

  /** The chunk that packs the frames that fit. */
  function Packed(frames: seq<AudioFrame>, messageId: nat, sequence: nat, flags: byte): (data: seq<byte>)
    requires frames != []
  {
    ByteOfValue(frames[0].codecMode);
    Header(messageId, sequence, flags, frames[0].codecMode as int)
      + Join(Encoded(frames[..Fitting(frames, VOICE_MAX_PAYLOAD)]))
  }

  class OolVoiceChunk {
    const data: array<byte>
    var length: nat
    var numFrames: nat

    constructor ()
      ensures fresh(data) && data.Length == LORA_MAX_FRAME && length == 0 && numFrames == 0
    {
      data := new byte[LORA_MAX_FRAME](_ => 0);
      length, numFrames := 0, 0;
    }

    method Pack(frames: seq<AudioFrame>, messageId: nat, sequence: nat, flags: byte) returns (packed: nat)
      requires data.Length == LORA_MAX_FRAME && messageId < 0x1_0000_0000 && sequence < 0x1_0000
      modifies this, data
      ensures frames == [] ==> packed == 0
      ensures frames != [] ==>
                && packed == numFrames == Fitting(frames, VOICE_MAX_PAYLOAD)
                && length <= LORA_MAX_FRAME
                && data[..length] == Packed(frames, messageId, sequence, flags)
    {
      if frames == [] {
        return 0;
      }
      hide Header, Join, Encoded, ByteOf;
      ByteOfValue(frames[0].codecMode);
      WriteHeader(messageId, sequence, flags, frames[0].codecMode);
      ghost var header := data[..VOICE_HEADER_SIZE];
      var offset := VOICE_HEADER_SIZE;
      packed := 0;
      JoinNothing(frames);
      for i := 0 to |frames|
        invariant packed == i && VOICE_HEADER_SIZE <= offset <= LORA_MAX_FRAME
        invariant data[..offset] == header + Join(Encoded(frames[..i]))
        invariant i + Fitting(frames[i..], LORA_MAX_FRAME - offset) == Fitting(frames, VOICE_MAX_PAYLOAD)
      {
        if offset + |frames[i].encoded| > LORA_MAX_FRAME {
          break;
        }
        Copy(offset, frames[i].encoded);
        EncodedPrefix(frames, i);
        Associate(header, Join(Encoded(frames[..i])), frames[i].encoded);
        assert frames[i..][1..] == frames[i + 1..];
        offset := offset + |frames[i].encoded|;
        packed := packed + 1;
      }
      length := offset;
      numFrames := packed;
    }

    /** memcpy into the chunk. */
    method Copy(offset: nat, bytes: seq<byte>)
      requires offset + |bytes| <= data.Length
      modifies data
      ensures data[..offset + |bytes|] == old(data[..offset]) + bytes
    {
      forall j | 0 <= j < |bytes| {
        data[offset + j] := bytes[j];
      }
    }

    /** The ten header bytes, one by one. */
    method WriteHeader(messageId: nat, sequence: nat, flags: byte, codec: byte)
      requires data.Length == LORA_MAX_FRAME && messageId < 0x1_0000_0000 && sequence < 0x1_0000
      requires codec as int < 256
      modifies data
      ensures data[..VOICE_HEADER_SIZE] == Header(messageId, sequence, flags, codec as int)
    {
      hide ByteOf, Header;
      data[0] := ByteOf(VOICE_MAGIC / 0x100);
      data[1] := ByteOf(VOICE_MAGIC % 0x100);
      data[2] := ByteOf(messageId / 0x100_0000);
      data[3] := ByteOf(messageId / 0x1_0000 % 0x100);
      data[4] := ByteOf(messageId / 0x100 % 0x100);
      data[5] := ByteOf(messageId % 0x100);
      data[6] := ByteOf(sequence / 0x100);
      data[7] := ByteOf(sequence % 0x100);
      data[8] := flags;
      data[9] := codec;
      HeaderBytes(messageId, sequence, flags, codec);
    }
  }

  lemma HeaderBytes(messageId: nat, sequence: nat, flags: byte, codec: byte)
    requires messageId < 0x1_0000_0000 && sequence < 0x1_0000 && codec as int < 256
    ensures Header(messageId, sequence, flags, codec as int) ==
            [ByteOf(VOICE_MAGIC / 0x100), ByteOf(VOICE_MAGIC % 0x100),
             ByteOf(messageId / 0x100_0000), ByteOf(messageId / 0x1_0000 % 0x100),
             ByteOf(messageId / 0x100 % 0x100), ByteOf(messageId % 0x100),
             ByteOf(sequence / 0x100), ByteOf(sequence % 0x100), flags, codec]
  {
    hide ByteOf, Be16, Be32;
    ByteOfValue(codec);
    assert messageId % 0x1_0000_0000 == messageId && sequence % 0x1_0000 == sequence;
    assert Be16(VOICE_MAGIC) == [ByteOf(VOICE_MAGIC / 0x100), ByteOf(VOICE_MAGIC % 0x100)] by { Be16Bytes(VOICE_MAGIC); }
    Be16Bytes(sequence);
    Be32Bytes(messageId);
  }

  lemma Be16Bytes(n: nat)
    requires n < 0x1_0000
    ensures Be16(n) == [ByteOf(n / 0x100), ByteOf(n % 0x100)]
  {}

  lemma Be32Bytes(n: nat)
    requires n < 0x1_0000_0000
    ensures Be32(n) == [ByteOf(n / 0x100_0000), ByteOf(n / 0x1_0000 % 0x100), ByteOf(n / 0x100 % 0x100), ByteOf(n % 0x100)]
  {
    hide ByteOf, Be16;
    Be16Bytes(n / 0x1_0000);
    Be16Bytes(n % 0x1_0000);
    Digits(n);
  }

  lemma Digits(n: nat)
    ensures n / 0x1_0000 / 0x100 == n / 0x100_0000
    ensures n % 0x1_0000 / 0x100 == n / 0x100 % 0x100
    ensures n % 0x1_0000 % 0x100 == n % 0x100
  {
    var a, b, c := n / 0x1_0000, n / 0x100 % 0x100, n % 0x100;
    assert n == 0x1_0000 * a + 0x100 * b + c;
    assert n % 0x1_0000 == 0x100 * b + c;
  }

  lemma JoinNothing(frames: seq<AudioFrame>)
    ensures Encoded(frames[..0]) == [] && Join([]) == []
  {}

  // ----- The chunker -----

  datatype PackedChunk = PackedChunk(data: seq<byte>, numFrames: nat)

  function Batch(frames: seq<AudioFrame>, at: nat, perChunk: nat): (batch: seq<AudioFrame>)
    requires at < |frames| && perChunk >= 1
    ensures 1 <= |batch| <= perChunk && at + |batch| <= |frames|
  {
    frames[at..Until(|frames|, at, perChunk)]
  }

  function Until(total: nat, at: nat, perChunk: nat): nat
    requires at <= total
  {
    if total - at > perChunk then at + perChunk else total
  }

  /** The chunks made from frame `at` on, `k` having been made before. */
  function NativeChunks(frames: seq<AudioFrame>, perChunk: nat, messageId: nat, at: nat, k: nat): seq<PackedChunk>
    requires at <= |frames| && perChunk >= 1
    decreases |frames| - at
  {
    if at == |frames| || k >= MAX_CHUNKS then []
    else
      var batch := Batch(frames, at, perChunk);
      var packed := Fitting(batch, VOICE_MAX_PAYLOAD);
      if packed == 0 then []
      else
        [PackedChunk(Packed(batch, messageId, k, FlagsOf(k == 0, at + |batch| == |frames|)), packed)]
          + NativeChunks(frames, perChunk, messageId, at + packed, k + 1)
  }

  lemma NativeChunksUnfold(frames: seq<AudioFrame>, perChunk: nat, messageId: nat, at: nat, k: nat)
    requires at < |frames| && perChunk >= 1 && k < MAX_CHUNKS
    ensures var batch := Batch(frames, at, perChunk);
            var n := Fitting(batch, VOICE_MAX_PAYLOAD);
            var first := PackedChunk(Packed(batch, messageId, k, FlagsOf(k == 0, at + |batch| == |frames|)), n);
            at + n <= |frames| &&
            NativeChunks(frames, perChunk, messageId, at, k) ==
              if n == 0 then [] else [first] + NativeChunks(frames, perChunk, messageId, at + n, k + 1)
  {
    hide Packed, FlagsOf, Fitting;
  }

  datatype ChunkResult = ChunkResult(chunks: seq<PackedChunk>, messageId: nat, codecMode: nat, totalFrames: nat,
                                     totalAudioMs: nat, totalBytes: nat, airtime: real)

  /** ool_voice_msg_id: the static 32-bit counter, incremented. */
  function NextId(counter: nat): (id: nat)
    ensures id < 0x1_0000_0000
  {
    (counter + 1) % 0x1_0000_0000
  }

  const LORA_BPS := 577.0

  function TotalBytes(chunks: seq<PackedChunk>): nat {
    if chunks == [] then 0 else TotalBytes(chunks[..|chunks| - 1]) + |chunks[|chunks| - 1].data|
  }

  function NativeFrameMs(codecMode: nat): nat {
    if codecMode == 0x14 || codecMode == 0x15 || codecMode >= 0x20 then 20 else 40
  }

  /** The first frame's size must be one that fits a chunk. */
  predicate Chunkable(frames: seq<AudioFrame>) {
    frames != [] && 1 <= |frames[0].encoded| <= VOICE_MAX_PAYLOAD
  }

  method ChunkVoiceMessage(frames: seq<AudioFrame>, codecMode: nat, counter: nat) returns (r: Option<ChunkResult>, after: nat)
    ensures r.Some? <==> Chunkable(frames)
    ensures after == if frames == [] then counter else NextId(counter)
    ensures r.Some? ==>
              && r.value.chunks == NativeChunks(frames, VOICE_MAX_PAYLOAD / |frames[0].encoded|, after, 0, 0)
              && r.value.messageId == after && r.value.codecMode == codecMode
              && r.value.totalFrames == |frames| && r.value.totalBytes == TotalBytes(r.value.chunks)
              && r.value.totalAudioMs == |frames| * NativeFrameMs(codecMode)
              && r.value.airtime * 577.0 == (TotalBytes(r.value.chunks) * 8) as real
  {
    after := counter;
    if frames == [] {
      return None, after;
    }
    after := NextId(counter);
    var messageId := after;
    var frameBytes := |frames[0].encoded|;
    if frameBytes <= 0 {
      return None, after;
    }
    var perChunk := VOICE_MAX_PAYLOAD / frameBytes;
    if perChunk <= 0 {
      return None, after;
    }
    var chunks, totalBytes := PackAll(frames, perChunk, messageId);
    FirstChunkPacks(frames, perChunk, messageId);
    var airtime := ((totalBytes * 8) as real) / LORA_BPS;
    r := Some(ChunkResult(chunks, messageId, codecMode, |frames|, |frames| * NativeFrameMs(codecMode), totalBytes, airtime));
  }

  /** The chunker's loop. */
  method PackAll(frames: seq<AudioFrame>, perChunk: nat, messageId: nat) returns (chunks: seq<PackedChunk>, totalBytes: nat)
    requires perChunk >= 1 && messageId < 0x1_0000_0000
    ensures chunks == NativeChunks(frames, perChunk, messageId, 0, 0)
    ensures totalBytes == TotalBytes(chunks)
  {
    hide Packed, Batch, Fitting, FlagsOf, NativeChunks;
    var frameIdx, chunkIdx := 0, 0;
    chunks, totalBytes := [], 0;
    ghost var all := NativeChunks(frames, perChunk, messageId, 0, 0);
    while frameIdx < |frames| && chunkIdx < MAX_CHUNKS
      invariant frameIdx <= |frames| && chunkIdx <= MAX_CHUNKS
      invariant chunks + NativeChunks(frames, perChunk, messageId, frameIdx, chunkIdx) == all
      invariant totalBytes == TotalBytes(chunks)
      decreases |frames| - frameIdx
    {
      NativeChunksUnfold(frames, perChunk, messageId, frameIdx, chunkIdx);
      var chunk := PackNext(frames, frameIdx, perChunk, messageId, chunkIdx);
      if chunk.numFrames <= 0 {
        assert chunks + [] == chunks;
        return;
      }
      Associate(chunks, [chunk], NativeChunks(frames, perChunk, messageId, frameIdx + chunk.numFrames, chunkIdx + 1));
      assert (chunks + [chunk])[..|chunks|] == chunks;
      chunks := chunks + [chunk];
      totalBytes := totalBytes + |chunk.data|;
      frameIdx := frameIdx + chunk.numFrames;
      chunkIdx := chunkIdx + 1;
    }
    Exhausted(frames, perChunk, messageId, frameIdx, chunkIdx);
    assert chunks + [] == chunks;
  }

  /** One round of the chunker's loop: plan a batch, set the flags, pack what fits. */
  method PackNext(frames: seq<AudioFrame>, frameIdx: nat, perChunk: nat, messageId: nat, chunkIdx: nat) returns (made: PackedChunk)
    requires frameIdx < |frames| && perChunk >= 1 && messageId < 0x1_0000_0000 && chunkIdx < MAX_CHUNKS
    ensures var batch := Batch(frames, frameIdx, perChunk);
            && made.numFrames == Fitting(batch, VOICE_MAX_PAYLOAD)
            && made.data == Packed(batch, messageId, chunkIdx, FlagsOf(chunkIdx == 0, frameIdx + |batch| == |frames|))
  {
    hide Packed, Fitting;
    var batch := |frames| - frameIdx;
    if batch > perChunk {
      batch := perChunk;
    }
    var flags: byte := 0;
    if chunkIdx == 0 {
      flags := flags | FIRST_CHUNK;
    }
    if frameIdx + batch >= |frames| {
      flags := flags | LAST_CHUNK;
    }
    var chunk := new OolVoiceChunk();
    var packed := chunk.Pack(frames[frameIdx..frameIdx + batch], messageId, chunkIdx, flags);
    made := PackedChunk(chunk.data[..chunk.length], packed);
  }

  lemma Exhausted(frames: seq<AudioFrame>, perChunk: nat, messageId: nat, at: nat, k: nat)
    requires at <= |frames| && perChunk >= 1
    ensures at == |frames| || k >= MAX_CHUNKS ==> NativeChunks(frames, perChunk, messageId, at, k) == []
  {}

  lemma FirstChunkPacks(frames: seq<AudioFrame>, perChunk: nat, messageId: nat)
    requires Chunkable(frames) && perChunk >= 1
    ensures |NativeChunks(frames, perChunk, messageId, 0, 0)| >= 1
  {
    assert Batch(frames, 0, perChunk)[0] == frames[0];
  }

  // ----- Whatever the frame sizes -----

  lemma {:induction false} FittingFits(frames: seq<AudioFrame>, room: nat)
    ensures |Join(Encoded(frames[..Fitting(frames, room)]))| <= room
    decreases frames
  {
    var n := Fitting(frames, room);
    if n > 0 {
      FittingFits(frames[1..], room - |frames[0].encoded|);
      var rest := frames[1..][..n - 1];
      assert Encoded(frames[..n]) == [frames[0].encoded] + Encoded(rest);
      JoinConcat([frames[0].encoded], Encoded(rest));
      JoinOne(frames[0].encoded);
    }
  }

  lemma JoinOne(part: seq<byte>)
    ensures Join([part]) == part
  {
    assert [part][..0] == [];
  }

  function FramesIn(chunks: seq<PackedChunk>): nat {
    if chunks == [] then 0 else chunks[0].numFrames + FramesIn(chunks[1..])
  }

  function NativePayloads(chunks: seq<PackedChunk>): seq<seq<byte>>
    requires forall i | 0 <= i < |chunks| :: |chunks[i].data| >= VOICE_HEADER_SIZE
  {
    seq(|chunks|, i requires 0 <= i < |chunks| => chunks[i].data[VOICE_HEADER_SIZE..])
  }

  /** Ten bytes of header for each chunk, and the payloads. */
  lemma {:induction false} TotalBytesAre(chunks: seq<PackedChunk>)
    requires forall i | 0 <= i < |chunks| :: |chunks[i].data| >= VOICE_HEADER_SIZE
    ensures TotalBytes(chunks) == 10 * |chunks| + |Join(NativePayloads(chunks))|
    decreases chunks
  {
    if chunks != [] {
      var n := |chunks| - 1;
      TotalBytesAre(chunks[..n]);
      assert NativePayloads(chunks)[..n] == NativePayloads(chunks[..n]);
    }
  }

  /** Chunks that fit and carry the frames from `at` on, none skipped. */
  predicate Carry(chunks: seq<PackedChunk>, frames: seq<AudioFrame>, at: nat) {
    && (forall i | 0 <= i < |chunks| :: VOICE_HEADER_SIZE <= |chunks[i].data| <= LORA_MAX_FRAME)
    && at + FramesIn(chunks) <= |frames|
    && Join(NativePayloads(chunks)) == Join(Encoded(frames[at..at + FramesIn(chunks)]))
  }

  /**
   * For frames of any sizes: no chunk exceeds the LoRa frame, and the payloads in order are the frames
   * in order, none skipped. It stops short only at 128 chunks or at a frame no chunk can carry.
   */
  lemma {:induction false} NothingSkipped(frames: seq<AudioFrame>, perChunk: nat, messageId: nat, at: nat, k: nat)
    requires at <= |frames| && perChunk >= 1 && k <= MAX_CHUNKS
    ensures var chunks := NativeChunks(frames, perChunk, messageId, at, k);
            && Carry(chunks, frames, at)
            && (at + FramesIn(chunks) < |frames| ==>
                 k + |chunks| == MAX_CHUNKS || |frames[at + FramesIn(chunks)].encoded| > VOICE_MAX_PAYLOAD)
    decreases |frames| - at
  {
    hide Packed, FlagsOf, Batch, Fitting, NativeChunks, Carry;
    var chunks := NativeChunks(frames, perChunk, messageId, at, k);
    CarryNothing(frames, at);
    Exhausted(frames, perChunk, messageId, at, k);
    if at < |frames| && k < MAX_CHUNKS {
      NativeChunksUnfold(frames, perChunk, messageId, at, k);
      var batch := Batch(frames, at, perChunk);
      var n := Fitting(batch, VOICE_MAX_PAYLOAD);
      if n == 0 {
        NoneFit(frames, at, perChunk);
      } else {
        NothingSkipped(frames, perChunk, messageId, at + n, k + 1);
        PackedPayload(batch, messageId, k, FlagsOf(k == 0, at + |batch| == |frames|));
        BatchPrefix(frames, at, perChunk, n);
        CarryMore(frames, at, n, chunks[0], NativeChunks(frames, perChunk, messageId, at + n, k + 1));
      }
    }
  }

  lemma CarryNothing(frames: seq<AudioFrame>, at: nat)
    requires at <= |frames|
    ensures Carry([], frames, at) && FramesIn([]) == 0
  {
    assert Encoded(frames[at..at]) == [] && NativePayloads([]) == [];
  }

  /** Putting a chunk with frames [at, at + n) before chunks that carry what follows. */
  lemma CarryMore(frames: seq<AudioFrame>, at: nat, n: nat, first: PackedChunk, rest: seq<PackedChunk>)
    requires first.numFrames == n && at + n <= |frames| && Carry(rest, frames, at + n)
    requires VOICE_HEADER_SIZE <= |first.data| <= LORA_MAX_FRAME
    requires first.data[VOICE_HEADER_SIZE..] == Join(Encoded(frames[at..at + n]))
    ensures FramesIn([first] + rest) == n + FramesIn(rest) && Carry([first] + rest, frames, at)
  {
    hide Join;
    var end := at + n + FramesIn(rest);
    var payload := first.data[VOICE_HEADER_SIZE..];
    assert ([first] + rest)[1..] == rest;
    assert NativePayloads([first] + rest) == [payload] + NativePayloads(rest);
    JoinConcat([payload], NativePayloads(rest));
    JoinOne(payload);
    assert Encoded(frames[at..end]) == Encoded(frames[at..at + n]) + Encoded(frames[at + n..end]);
    JoinConcat(Encoded(frames[at..at + n]), Encoded(frames[at + n..end]));
  }

  lemma BatchPrefix(frames: seq<AudioFrame>, at: nat, perChunk: nat, n: nat)
    requires at < |frames| && perChunk >= 1 && n <= |Batch(frames, at, perChunk)|
    ensures at + n <= |frames| && Batch(frames, at, perChunk)[..n] == frames[at..at + n]
  {}

  lemma NoneFit(frames: seq<AudioFrame>, at: nat, perChunk: nat)
    requires at < |frames| && perChunk >= 1 && Fitting(Batch(frames, at, perChunk), VOICE_MAX_PAYLOAD) == 0
    ensures |frames[at].encoded| > VOICE_MAX_PAYLOAD
  {
    assert Batch(frames, at, perChunk)[0] == frames[at];
  }

  lemma PackedPayload(frames: seq<AudioFrame>, messageId: nat, sequence: nat, flags: byte)
    requires frames != []
    ensures var data := Packed(frames, messageId, sequence, flags);
            && VOICE_HEADER_SIZE <= |data| <= LORA_MAX_FRAME
            && data[VOICE_HEADER_SIZE..] == Join(Encoded(frames[..Fitting(frames, VOICE_MAX_PAYLOAD)]))
  {
    hide Header, Fitting, Join;
    FittingFits(frames, VOICE_MAX_PAYLOAD);
  }

  // ----- Frames of one size: the same bytes as the Python chunker -----

  lemma {:induction false} FittingAll(frames: seq<AudioFrame>, room: nat, size: nat)
    requires forall i | 0 <= i < |frames| :: |frames[i].encoded| <= size
    requires |frames| * size <= room
    ensures Fitting(frames, room) == |frames|
    decreases frames
  {
    if frames != [] {
      var n := |frames| - 1;
      assert |frames| * size == n * size + size;
      Larger(size, 0, n);
      FittingAll(frames[1..], room - |frames[0].encoded|, size);
    }
  }

  /** Every frame as long as the others, and as many to a chunk as the codec's own size allows. */
  predicate Uniform(frames: seq<AudioFrame>, mode: CodecMode, size: nat) {
    && frames != [] && size >= 1 && VOICE_MAX_PAYLOAD / size == mode.FramesPerChunk()
    && forall i | 0 <= i < |frames| :: |frames[i].encoded| == size && frames[i].codecMode == ByteOf(mode.Id())
  }

  /** The C batch is the Python slice. */
  lemma SameBatch(frames: seq<AudioFrame>, perChunk: nat, k: nat)
    requires perChunk >= 1 && k < ChunksNeeded(|frames|, perChunk)
    ensures var at, to := Cut(|frames|, perChunk, k), Cut(|frames|, perChunk, k + 1);
            && at < |frames| && at <= to
            && Batch(frames, at, perChunk) == frames[at..to]
            && Encoded(Batch(frames, at, perChunk)) == Encoded(frames)[at..to]
            && (to == |frames| <==> k + 1 == ChunksNeeded(|frames|, perChunk))
  {
    hide ChunksNeeded;
    Cuts(|frames|, perChunk, k);
    assert (k + 1) * perChunk == k * perChunk + perChunk;
  }

  lemma SameChunkBytes(frames: seq<AudioFrame>, mode: CodecMode, size: nat, messageId: nat, k: nat)
    requires Uniform(frames, mode, size) && messageId < 0x1_0000_0000
    requires k < ChunksNeeded(|frames|, mode.FramesPerChunk())
    ensures var perChunk := mode.FramesPerChunk();
            var at := Cut(|frames|, perChunk, k);
            var python := ChunkAt(Encoded(frames), mode, messageId, k);
            && at < |frames|
            && var batch := Batch(frames, at, perChunk);
            && Fitting(batch, VOICE_MAX_PAYLOAD) == |batch| == python.frameCount
            && at + |batch| == Cut(|frames|, perChunk, k + 1)
            && Packed(batch, messageId, k, FlagsOf(k == 0, at + |batch| == |frames|)) == Serialize(python)
  {
    hide ChunksNeeded, Header, FlagsOf, Join, Fitting, ByteOf, CodecMode.FrameBytes, CodecMode.Id;
    var perChunk := mode.FramesPerChunk();
    SameBatch(frames, perChunk, k);
    hide Cut, Batch, Encoded;
    var batch := Batch(frames, Cut(|frames|, perChunk, k), perChunk);
    Fits(|batch|, size);
    FittingAll(batch, VOICE_MAX_PAYLOAD, size);
    assert batch[..|batch|] == batch;
    assert batch[0] == frames[Cut(|frames|, perChunk, k)];
  }

  lemma {:induction false} SameFrom(frames: seq<AudioFrame>, mode: CodecMode, size: nat, messageId: nat, k: nat)
    requires Uniform(frames, mode, size) && messageId < 0x1_0000_0000
    requires k <= MAX_CHUNKS && k <= ChunksNeeded(|frames|, mode.FramesPerChunk())
    ensures var perChunk := mode.FramesPerChunk();
            var needed := ChunksNeeded(|frames|, perChunk);
            var native := NativeChunks(frames, perChunk, messageId, Cut(|frames|, perChunk, k), k);
            && |native| == (if needed <= MAX_CHUNKS then needed else MAX_CHUNKS) - k
            && forall i | 0 <= i < |native| ::
                 var python := ChunkAt(Encoded(frames), mode, messageId, k + i);
                 native[i] == PackedChunk(Serialize(python), python.frameCount)
    decreases MAX_CHUNKS - k
  {
    hide ChunksNeeded, FlagsOf, Join, Fitting, Uniform, NativeChunks, ChunkAt, Serialize, Packed, Batch, Cut, CodecMode.FramesPerChunk;
    var perChunk := mode.FramesPerChunk();
    var needed := ChunksNeeded(|frames|, perChunk);
    var at := Cut(|frames|, perChunk, k);
    AtEnd(|frames|, perChunk, k);
    Exhausted(frames, perChunk, messageId, at, k);
    if k < MAX_CHUNKS && k < needed {
      SameChunkBytes(frames, mode, size, messageId, k);
      NativeChunksUnfold(frames, perChunk, messageId, at, k);
      SameFrom(frames, mode, size, messageId, k + 1);
      var native := NativeChunks(frames, perChunk, messageId, at, k);
      var rest := NativeChunks(frames, perChunk, messageId, Cut(|frames|, perChunk, k + 1), k + 1);
      assert native == [native[0]] + rest;
      forall i | 0 <= i < |native|
        ensures native[i] == PackedChunk(Serialize(ChunkAt(Encoded(frames), mode, messageId, k + i)),
                                         ChunkAt(Encoded(frames), mode, messageId, k + i).frameCount)
      {
        if i > 0 {
          assert native[i] == rest[i - 1];
          assert k + i == k + 1 + (i - 1);
        }
      }
    }
  }

  lemma AtEnd(frames: nat, perChunk: nat, k: nat)
    requires perChunk >= 1
    ensures Cut(frames, perChunk, k) == frames <==> ChunksNeeded(frames, perChunk) <= k
  {
    NeededIff(frames, perChunk, k);
  }

  /**
   * For frames of one size the C chunker makes the Python chunks, byte for byte: all of them exactly
   * when they are at most 128, and otherwise the first 128.
   */
  lemma RefinesPython(frames: seq<AudioFrame>, mode: CodecMode, size: nat, messageId: nat)
    requires Uniform(frames, mode, size) && messageId < 0x1_0000_0000
    ensures var native := NativeChunks(frames, VOICE_MAX_PAYLOAD / size, messageId, 0, 0);
            var python := ChunksOf(Encoded(frames), mode, messageId);
            && |native| == (if |python| <= MAX_CHUNKS then |python| else MAX_CHUNKS)
            && forall k | 0 <= k < |native| :: native[k] == PackedChunk(Serialize(python[k]), python[k].frameCount)
  {
    hide ChunkAt, Serialize, NativeChunks, ChunksNeeded, CodecMode.FramesPerChunk;
    SameFrom(frames, mode, size, messageId, 0);
  }

  /** Both report the same duration. */
  lemma SameDuration(mode: CodecMode)
    ensures NativeFrameMs(mode.Id()) == mode.FrameMs()
  {
    match mode
    case CODEC2_700C | CODEC2_1200 | CODEC2_1300 | CODEC2_1600 =>
    case CODEC2_2400 | CODEC2_3200 | LYRA_3200 | LYRA_6000 | LYRA_9200 =>
  }

  // ----- Message numbers -----

  /** The number of the n-th message from now. */
  function IdOf(counter: nat, n: nat): nat {
    if n == 0 then counter else NextId(IdOf(counter, n - 1))
  }

  lemma Turns(n: nat, turns: int, rest: nat)
    requires n == 0x1_0000_0000 * turns + rest && rest < 0x1_0000_0000
    ensures n % 0x1_0000_0000 == rest
  {}

  lemma {:induction false} IdsCount(counter: nat, n: nat) returns (turns: nat)
    requires counter < 0x1_0000_0000
    ensures counter + n == 0x1_0000_0000 * turns + IdOf(counter, n) && IdOf(counter, n) < 0x1_0000_0000
    decreases n
  {
    turns := 0;
    if n > 0 {
      turns := IdsCount(counter, n - 1);
      var id := IdOf(counter, n - 1);
      if id + 1 < 0x1_0000_0000 {
        Turns(id + 1, 0, id + 1);
      } else {
        Turns(id + 1, 1, 0);
        turns := turns + 1;
      }
    }
  }

  /** Two messages have the same number exactly when a multiple of 2^32 lies between them. */
  lemma SameIdIff(counter: nat, m: nat, n: nat)
    requires counter < 0x1_0000_0000 && m <= n
    ensures IdOf(counter, m) == IdOf(counter, n) <==> (n - m) % 0x1_0000_0000 == 0
  {
    var a := IdsCount(counter, m);
    var b := IdsCount(counter, n);
    var i, j := IdOf(counter, m), IdOf(counter, n);
    assert 0x1_0000_0000 * b + j == 0x1_0000_0000 * a + i + (n - m);
    if i <= j {
      Turns(n - m, b - a, j - i);
    } else {
      Turns(n - m, b - a - 1, j - i + 0x1_0000_0000);
    }
  }
}
