/** Voice chunks, the chunker and the reassembly buffer (protocol/voice_transport.py). */
module Voice {
  import opened Bytes

  const VOICE_MAGIC := 0x564D
  const VOICE_HEADER_SIZE := 10
  const VOICE_MAX_PAYLOAD := 70   // an 80-byte LoRa frame less the header

  const FIRST_CHUNK: byte := 0x01
  const LAST_CHUNK: byte := 0x02

  datatype CodecMode =
    | CODEC2_700C | CODEC2_1200 | CODEC2_1300 | CODEC2_1600 | CODEC2_2400 | CODEC2_3200
    | LYRA_3200 | LYRA_6000 | LYRA_9200
  {
    function Id(): (id: nat)
      ensures id < 256
    {
      match this
      case CODEC2_700C => 0x10
      case CODEC2_1200 => 0x11
      case CODEC2_1300 => 0x12
      case CODEC2_1600 => 0x13
      case CODEC2_2400 => 0x14
      case CODEC2_3200 => 0x15
      case LYRA_3200 => 0x20
      case LYRA_6000 => 0x21
      case LYRA_9200 => 0x22
    }

    function FrameBytes(): (n: nat)
      ensures 1 <= n <= VOICE_MAX_PAYLOAD
    {
      match this
      case CODEC2_700C => 4
      case CODEC2_1200 => 6
      case CODEC2_1300 => 7
      case CODEC2_1600 => 8
      case CODEC2_2400 => 6
      case CODEC2_3200 => 8
      case LYRA_3200 => 8
      case LYRA_6000 => 15
      case LYRA_9200 => 23
    }

    function FrameMs(): nat {
      if this in {CODEC2_700C, CODEC2_1200, CODEC2_1300, CODEC2_1600} then 40 else 20
    }

    function FramesPerChunk(): (n: nat)
      ensures n >= 1
    {
      VOICE_MAX_PAYLOAD / FrameBytes()
    }
  }

  /** VoiceCodecMode(codec), which raises on an unknown number. */
  function ModeOf(id: nat): (mode: Option<CodecMode>)
    ensures mode.Some? ==> mode.value.Id() == id
    ensures forall m: CodecMode :: m.Id() == id ==> mode == Some(m)
  {
    match id
    case 0x10 => Some(CODEC2_700C)
    case 0x11 => Some(CODEC2_1200)
    case 0x12 => Some(CODEC2_1300)
    case 0x13 => Some(CODEC2_1600)
    case 0x14 => Some(CODEC2_2400)
    case 0x15 => Some(CODEC2_3200)
    case 0x20 => Some(LYRA_3200)
    case 0x21 => Some(LYRA_6000)
    case 0x22 => Some(LYRA_9200)
    case _ => None
  }

  datatype Chunk = Chunk(messageId: int, sequence: nat, flags: byte, mode: CodecMode, payload: seq<byte>, frameCount: nat)
  {
    predicate IsFirst() { flags & FIRST_CHUNK != 0 }

    predicate IsLast() { flags & LAST_CHUNK != 0 }
  }

  // ----- The wire format -----

  function Header(messageId: int, sequence: nat, flags: byte, codec: nat): (h: seq<byte>)
    requires codec < 256
    ensures |h| == VOICE_HEADER_SIZE
  {
    Be16(VOICE_MAGIC) + Be32(messageId % 0x1_0000_0000) + Be16(sequence % 0x1_0000) + [flags, ByteOf(codec)]
  }

  function Serialize(c: Chunk): seq<byte> {
    Header(c.messageId, c.sequence, c.flags, c.mode.Id()) + c.payload
  }

  function Deserialize(data: seq<byte>): Option<Chunk> {
    if |data| < VOICE_HEADER_SIZE || Be16Value(data[..2]) != VOICE_MAGIC then None
    else
      ByteOfValue(data[9]);
      match ModeOf(data[9] as int)
      case None => None
      case Some(mode) =>
        Some(Chunk(Be32Value(data[2..6]), Be16Value(data[6..8]), data[8], mode, data[VOICE_HEADER_SIZE..], 0))
  }

  lemma HeaderFields(messageId: int, sequence: nat, flags: byte, codec: nat, payload: seq<byte>)
    requires codec < 256
    ensures var data := Header(messageId, sequence, flags, codec) + payload;
            && data[..2] == Be16(VOICE_MAGIC) && data[2..6] == Be32(messageId % 0x1_0000_0000)
            && data[6..8] == Be16(sequence % 0x1_0000) && data[8] == flags && data[9] == ByteOf(codec)
            && data[VOICE_HEADER_SIZE..] == payload
  {
    hide Be16, Be32, ByteOf;
  }

  /** What the wire loses: the frame count, and the numbers' high bits. */
  lemma WireRoundTrip(c: Chunk)
    ensures Deserialize(Serialize(c)) ==
            Some(Chunk(c.messageId % 0x1_0000_0000, c.sequence % 0x1_0000, c.flags, c.mode, c.payload, 0))
  {
    hide Be16, Be32, ByteOf, Be16Value, Be32Value, Header;
    HeaderFields(c.messageId, c.sequence, c.flags, c.mode.Id(), c.payload);
  }

  /** Every accepted byte string is the serialization of what it is read as. */
  lemma WireCanonical(data: seq<byte>)
    ensures Deserialize(data).Some? ==> Serialize(Deserialize(data).value) == data
  {
    hide Be16, Be32, ByteOf, Be16Value, Be32Value, CodecMode.Id;
    if Deserialize(data).Some? {
      Be16OfValue(data[..2]);
      Be32OfValue(data[2..6]);
      Be16OfValue(data[6..8]);
      ByteOfValue(data[9]);
      assert data == data[..2] + data[2..6] + data[6..8] + [data[8], data[9]] + data[VOICE_HEADER_SIZE..];
    }
  }

  // ----- The chunker -----

  function Join(parts: seq<seq<byte>>): seq<byte> {
    if parts == [] then [] else Join(parts[..|parts| - 1]) + parts[|parts| - 1]
  }

  lemma {:induction false} JoinConcat(a: seq<seq<byte>>, b: seq<seq<byte>>)
    ensures Join(a + b) == Join(a) + Join(b)
    decreases b
  {
    if b == [] {
      assert a + b == a;
    } else {
      var n := |b| - 1;
      JoinConcat(a, b[..n]);
      assert (a + b)[..|a + b| - 1] == a + b[..n];
      Associate(Join(a), Join(b[..n]), b[n]);
    }
  }

  /** How many chunks `frames` frames take, `perChunk` in each. */
  function ChunksNeeded(frames: nat, perChunk: nat): nat
    requires perChunk >= 1
  {
    (frames + perChunk - 1) / perChunk
  }

  /** Where chunk k begins. */
  function Cut(frames: nat, perChunk: nat, k: nat): (at: nat)
    ensures at <= frames
  {
    if k * perChunk <= frames then k * perChunk else frames
  }

  lemma Cuts(frames: nat, perChunk: nat, k: nat)
    requires perChunk >= 1
    ensures k < ChunksNeeded(frames, perChunk) <==> k * perChunk < frames
    ensures Cut(frames, perChunk, k) <= Cut(frames, perChunk, k + 1) <= Cut(frames, perChunk, k) + perChunk
    ensures Cut(frames, perChunk, k + 1) == frames <==> ChunksNeeded(frames, perChunk) <= k + 1
  {
    NeededIff(frames, perChunk, k);
    NeededIff(frames, perChunk, k + 1);
    assert (k + 1) * perChunk == k * perChunk + perChunk;
  }

  lemma NeededIff(frames: nat, perChunk: nat, k: nat)
    requires perChunk >= 1
    ensures k < ChunksNeeded(frames, perChunk) <==> k * perChunk < frames
  {
    var needed := ChunksNeeded(frames, perChunk);
    var spare := (frames + perChunk - 1) % perChunk;
    assert frames + perChunk - 1 == perChunk * needed + spare;
    if k < needed {
      Larger(perChunk, k + 1, needed);
      assert perChunk * (k + 1) == k * perChunk + perChunk;
    } else {
      Larger(perChunk, needed, k);
      assert perChunk * k == k * perChunk;
    }
  }

  lemma Larger(q: nat, a: nat, b: nat)
    requires a <= b
    ensures q * a <= q * b
  {
    assert q * b == q * a + q * (b - a);
  }

  function FlagsOf(first: bool, last: bool): byte {
    if first then if last then FIRST_CHUNK | LAST_CHUNK else FIRST_CHUNK else if last then LAST_CHUNK else 0
  }

  function ChunkAt(frames: seq<seq<byte>>, mode: CodecMode, messageId: int, k: nat): Chunk
  {
    var perChunk := mode.FramesPerChunk();
    Cuts(|frames|, perChunk, k);
    var batch := frames[Cut(|frames|, perChunk, k)..Cut(|frames|, perChunk, k + 1)];
    Chunk(messageId, k, FlagsOf(k == 0, k + 1 == ChunksNeeded(|frames|, perChunk)), mode, Join(batch), |batch|)
  }

  function ChunksOf(frames: seq<seq<byte>>, mode: CodecMode, messageId: int): seq<Chunk> {
    seq(ChunksNeeded(|frames|, mode.FramesPerChunk()), k requires k >= 0 => ChunkAt(frames, mode, messageId, k))
  }

  datatype Meta = Meta(messageId: int, mode: CodecMode, totalChunks: nat, totalFrames: nat, durationMs: nat)

  datatype ChunkError = NoFrames

  method ChunkVoiceMessage(frames: seq<seq<byte>>, mode: CodecMode, messageId: int) returns (r: Result<(Meta, seq<Chunk>), ChunkError>)
    ensures frames == [] <==> r == Failure(NoFrames)
    ensures r.Success? ==> r.value.1 == ChunksOf(frames, mode, messageId)
    ensures r.Success? ==> r.value.0 == Meta(messageId, mode, ChunksNeeded(|frames|, mode.FramesPerChunk()), |frames|, |frames| * mode.FrameMs())
  {
    if frames == [] {
      return Failure(NoFrames);
    }
    hide CodecMode.FrameBytes, CodecMode.FrameMs, ChunksNeeded, Join;
    var perChunk := VOICE_MAX_PAYLOAD / mode.FrameBytes();
    ghost var needed := ChunksNeeded(|frames|, perChunk);
    var chunks: seq<Chunk> := [];
    var frameIdx, seqNum := 0, 0;
    Cuts(|frames|, perChunk, 0);
    while frameIdx < |frames|
      invariant seqNum <= needed && frameIdx == Cut(|frames|, perChunk, seqNum)
      invariant |chunks| == seqNum && forall k | 0 <= k < seqNum :: chunks[k] == ChunkAt(frames, mode, messageId, k)
      decreases |frames| - frameIdx
    {
      Cuts(|frames|, perChunk, seqNum);
      assert (seqNum + 1) * perChunk == seqNum * perChunk + perChunk;
      var batchEnd := if frameIdx + perChunk <= |frames| then frameIdx + perChunk else |frames|;
      var batch := frames[frameIdx..batchEnd];
      var payload := Join(batch);
      var flags: byte := 0;
      if seqNum == 0 {
        flags := flags | FIRST_CHUNK;
      }
      if batchEnd >= |frames| {
        flags := flags | LAST_CHUNK;
      }
      chunks := chunks + [Chunk(messageId, seqNum, flags, mode, payload, |batch|)];
      frameIdx := batchEnd;
      seqNum := seqNum + 1;
    }
    Cuts(|frames|, perChunk, seqNum);
    assert seqNum == needed;
    assert chunks == ChunksOf(frames, mode, messageId);
    return Success((Meta(messageId, mode, |chunks|, |frames|, |frames| * mode.FrameMs()), chunks));
  }

  function Payloads(chunks: seq<Chunk>): seq<seq<byte>> {
    seq(|chunks|, k requires 0 <= k < |chunks| => chunks[k].payload)
  }

  lemma JoinNext(parts: seq<seq<byte>>, k: nat)
    requires k < |parts|
    ensures Join(parts[..k + 1]) == Join(parts[..k]) + parts[k]
  {
    assert parts[..k + 1][..k] == parts[..k];
  }

  /** What chunk k carries. */
  lemma PayloadAt(frames: seq<seq<byte>>, mode: CodecMode, messageId: int, k: nat)
    requires k < |ChunksOf(frames, mode, messageId)|
    ensures var from, to := Cut(|frames|, mode.FramesPerChunk(), k), Cut(|frames|, mode.FramesPerChunk(), k + 1);
      from <= to && Payloads(ChunksOf(frames, mode, messageId))[k] == Join(frames[from..to])
  {
    hide CodecMode.FrameBytes, FlagsOf, ChunksNeeded, Join;
    Cuts(|frames|, mode.FramesPerChunk(), k);
  }

  lemma NextBatch(frames: seq<seq<byte>>, payloads: seq<seq<byte>>, k: nat, from: nat, to: nat)
    requires k < |payloads| && from <= to <= |frames|
    requires Join(payloads[..k]) == Join(frames[..from]) && payloads[k] == Join(frames[from..to])
    ensures Join(payloads[..k + 1]) == Join(frames[..to])
  {
    JoinNext(payloads, k);
    hide Join;
    JoinConcat(frames[..from], frames[from..to]);
    assert frames[..to] == frames[..from] + frames[from..to];
  }

  lemma {:induction false} FirstPayloads(frames: seq<seq<byte>>, mode: CodecMode, messageId: int, k: nat)
    requires k <= |ChunksOf(frames, mode, messageId)|
    ensures Join(Payloads(ChunksOf(frames, mode, messageId))[..k]) == Join(frames[..Cut(|frames|, mode.FramesPerChunk(), k)])
  {
    var perChunk := mode.FramesPerChunk();
    var payloads := Payloads(ChunksOf(frames, mode, messageId));
    if k == 0 {
      assert payloads[..0] == [] && frames[..0] == [];
    } else {
      hide Join, Cut, CodecMode.FramesPerChunk, ChunksOf;
      FirstPayloads(frames, mode, messageId, k - 1);
      PayloadAt(frames, mode, messageId, k - 1);
      NextBatch(frames, payloads, k - 1, Cut(|frames|, perChunk, k - 1), Cut(|frames|, perChunk, k));
    }
  }

  /** Chunking cuts the message up and loses nothing. */
  lemma PayloadsJoin(frames: seq<seq<byte>>, mode: CodecMode, messageId: int)
    ensures Join(Payloads(ChunksOf(frames, mode, messageId))) == Join(frames)
  {
    var n := |ChunksOf(frames, mode, messageId)|;
    FirstPayloads(frames, mode, messageId, n);
    if n > 0 {
      Cuts(|frames|, mode.FramesPerChunk(), n - 1);
    } else {
      Cuts(|frames|, mode.FramesPerChunk(), 0);
    }
    assert Payloads(ChunksOf(frames, mode, messageId))[..n] == Payloads(ChunksOf(frames, mode, messageId));
    assert frames[..|frames|] == frames;
  }

  lemma {:induction false} JoinLength(parts: seq<seq<byte>>, size: nat)
    requires forall i | 0 <= i < |parts| :: |parts[i]| == size
    ensures |Join(parts)| == |parts| * size
  {
    if parts != [] {
      var n := |parts| - 1;
      JoinLength(parts[..n], size);
      assert |parts| * size == n * size + size;
    }
  }

  /** Frames of the codec's own size give chunks that fit a LoRa frame. */
  lemma ChunkFits(frames: seq<seq<byte>>, mode: CodecMode, messageId: int, k: nat)
    requires k < |ChunksOf(frames, mode, messageId)|
    requires forall i | 0 <= i < |frames| :: |frames[i]| == mode.FrameBytes()
    ensures |Serialize(ChunksOf(frames, mode, messageId)[k])| <= VOICE_HEADER_SIZE + VOICE_MAX_PAYLOAD
  {
    hide CodecMode.FrameBytes, Header, FlagsOf, Join;
    var perChunk := mode.FramesPerChunk();
    Cuts(|frames|, perChunk, k);
    var batch := frames[Cut(|frames|, perChunk, k)..Cut(|frames|, perChunk, k + 1)];
    JoinLength(batch, mode.FrameBytes());
    Fits(|batch|, mode.FrameBytes());
  }

  lemma Fits(n: nat, size: nat)
    requires size >= 1 && n <= VOICE_MAX_PAYLOAD / size
    ensures n * size <= VOICE_MAX_PAYLOAD
  {
    Larger(size, n, VOICE_MAX_PAYLOAD / size);
  }

  /** FIRST_CHUNK marks the first chunk, LAST_CHUNK the last, and nothing else does. */
  lemma FlagsMark(frames: seq<seq<byte>>, mode: CodecMode, messageId: int, k: nat)
    requires k < |ChunksOf(frames, mode, messageId)|
    ensures var chunks := ChunksOf(frames, mode, messageId);
            (chunks[k].IsFirst() <==> k == 0) && (chunks[k].IsLast() <==> k == |chunks| - 1)
  {}
}
