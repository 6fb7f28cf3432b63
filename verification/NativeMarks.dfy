/** Which chunks the C chunker marks as the last (native/include/voice_chunker.h). */
module NativeMarks {
  import opened Bytes
  import opened Voice
  import opened NativeVoice

  predicate MarkedLast(data: seq<byte>) { |data| >= VOICE_HEADER_SIZE && data[8] & LAST_CHUNK != 0 }

  /**
   * For frames of different sizes the flag is set from the planned batch, not from what was packed:
   * here both the first and the second of two chunks are marked as the last.
   */
  lemma LastMarkedEarly(a: seq<byte>, b: seq<byte>, messageId: nat)
    requires |a| == 10 && |b| == 24
    ensures var frames := [AudioFrame(0x22, a), AudioFrame(0x22, b), AudioFrame(0x22, b), AudioFrame(0x22, b)];
            var chunks := NativeChunks(frames, VOICE_MAX_PAYLOAD / |a|, messageId, 0, 0);
            && |chunks| == 2 && chunks[0].numFrames == 3
            && MarkedLast(chunks[0].data) && MarkedLast(chunks[1].data)
  {
    hide Join, Header, Packed, Fitting;
    var x, y := AudioFrame(0x22, a), AudioFrame(0x22, b);
    var frames := [x, y, y, y];
    NativeChunksUnfold(frames, 7, messageId, 0, 0);
    assert Batch(frames, 0, 7) == frames;
    ThreeOfFour(x, y);
    PackedFlag(frames, messageId, 0, FlagsOf(true, true));
    NativeChunksUnfold(frames, 7, messageId, 3, 1);
    assert Batch(frames, 3, 7) == [y];
    FittingAll([y], VOICE_MAX_PAYLOAD, 24);
    PackedFlag([y], messageId, 1, FlagsOf(false, true));
    Exhausted(frames, 7, messageId, 4, 2);
  }

  lemma ThreeOfFour(x: AudioFrame, y: AudioFrame)
    requires |x.encoded| == 10 && |y.encoded| == 24
    ensures Fitting([x, y, y, y], VOICE_MAX_PAYLOAD) == 3
  {
    assert [x, y, y, y][1..] == [y, y, y] && [y, y, y][1..] == [y, y] && [y, y][1..] == [y];
    assert Fitting([y], 12) == 0;
    assert Fitting([y, y], 36) == 1;
    assert Fitting([y, y, y], 60) == 2;
  }

  lemma PackedFlag(frames: seq<AudioFrame>, messageId: nat, sequence: nat, flags: byte)
    requires frames != []
    ensures |Packed(frames, messageId, sequence, flags)| >= VOICE_HEADER_SIZE
    ensures Packed(frames, messageId, sequence, flags)[8] == flags
  {
    hide Header, Join;
    ByteOfValue(frames[0].codecMode);
    HeaderFields(messageId, sequence, flags, frames[0].codecMode as int,
                 Join(Encoded(frames[..Fitting(frames, VOICE_MAX_PAYLOAD)])));
  }

  // ----- When a mark is wrong, for frames of any sizes -----

  /** The first frame of chunk i. */
  function FirstFrame(chunks: seq<PackedChunk>, i: nat): nat
    requires i <= |chunks|
  {
    FramesIn(chunks[..i])
  }

  /** The bytes of all of these frames. */
  function SizeOf(frames: seq<AudioFrame>): nat {
    if frames == [] then 0 else |frames[0].encoded| + SizeOf(frames[1..])
  }

  lemma {:induction false} FitsIffSmall(frames: seq<AudioFrame>, room: nat)
    ensures Fitting(frames, room) == |frames| <==> SizeOf(frames) <= room
    decreases frames
  {
    if frames != [] && |frames[0].encoded| <= room {
      FitsIffSmall(frames[1..], room - |frames[0].encoded|);
    }
  }

  lemma FlagsOfLast(first: bool, last: bool)
    ensures FlagsOf(first, last) & LAST_CHUNK != 0 <==> last
  {}

  /** One chunk: how it is marked, how much it packs, and whether there is a next one. */
  predicate Marks(frames: seq<AudioFrame>, perChunk: nat, at: nat, k: nat, chunk: PackedChunk, more: bool)
    requires at < |frames| && perChunk >= 1
  {
    var n := Fitting(Batch(frames, at, perChunk), VOICE_MAX_PAYLOAD);
    && chunk.numFrames == n && at + n <= |frames|
    && (MarkedLast(chunk.data) <==> |frames| - at <= perChunk)
    && (more <==> at + n < |frames| && k + 1 < MAX_CHUNKS && |frames[at + n].encoded| <= VOICE_MAX_PAYLOAD)
  }

  lemma FirstMarks(frames: seq<AudioFrame>, perChunk: nat, messageId: nat, at: nat, k: nat)
    requires at <= |frames| && perChunk >= 1
    ensures var chunks := NativeChunks(frames, perChunk, messageId, at, k);
      chunks != [] ==>
        && at < |frames| && k < MAX_CHUNKS
        && Marks(frames, perChunk, at, k, chunks[0], |chunks| > 1)
        && chunks[1..] == NativeChunks(frames, perChunk, messageId, at + chunks[0].numFrames, k + 1)
  {
    hide Packed, Fitting, FlagsOf, NativeChunks, MarkedLast;
    Exhausted(frames, perChunk, messageId, at, k);
    if at < |frames| && k < MAX_CHUNKS {
      NativeChunksUnfold(frames, perChunk, messageId, at, k);
      var batch := Batch(frames, at, perChunk);
      var n := Fitting(batch, VOICE_MAX_PAYLOAD);
      PackedFlag(batch, messageId, k, FlagsOf(k == 0, at + |batch| == |frames|));
      FlagsOfLast(k == 0, at + |batch| == |frames|);
      MarkIsFlag(Packed(batch, messageId, k, FlagsOf(k == 0, at + |batch| == |frames|)));
      NextPacks(frames, perChunk, messageId, at + n, k + 1);
    }
  }

  lemma MarkIsFlag(data: seq<byte>)
    requires |data| >= VOICE_HEADER_SIZE
    ensures MarkedLast(data) <==> data[8] & LAST_CHUNK != 0
  {}

  lemma NextPacks(frames: seq<AudioFrame>, perChunk: nat, messageId: nat, at: nat, k: nat)
    requires at <= |frames| && perChunk >= 1
    ensures NativeChunks(frames, perChunk, messageId, at, k) != [] <==>
            at < |frames| && k < MAX_CHUNKS && |frames[at].encoded| <= VOICE_MAX_PAYLOAD
  {
    if at < |frames| {
      assert Batch(frames, at, perChunk)[0] == frames[at];
    }
  }

  lemma {:induction false} ChunkMarks(frames: seq<AudioFrame>, perChunk: nat, messageId: nat, at: nat, k: nat, i: nat)
    requires at <= |frames| && perChunk >= 1
    requires i < |NativeChunks(frames, perChunk, messageId, at, k)|
    ensures var chunks := NativeChunks(frames, perChunk, messageId, at, k);
      && at + FirstFrame(chunks, i) < |frames|
      && Marks(frames, perChunk, at + FirstFrame(chunks, i), k + i, chunks[i], i + 1 < |chunks|)
    decreases i
  {
    hide NativeChunks, Marks, MarkedLast;
    FirstMarks(frames, perChunk, messageId, at, k);
    var chunks := NativeChunks(frames, perChunk, messageId, at, k);
    MarksStays(frames, perChunk, at, k, chunks[0], |chunks| > 1);
    if i > 0 {
      var rest := NativeChunks(frames, perChunk, messageId, at + chunks[0].numFrames, k + 1);
      ChunkMarks(frames, perChunk, messageId, at + chunks[0].numFrames, k + 1, i - 1);
      assert chunks[..i][0] == chunks[0] && chunks[..i][1..] == rest[..i - 1];
    }
  }

  lemma MarksStays(frames: seq<AudioFrame>, perChunk: nat, at: nat, k: nat, chunk: PackedChunk, more: bool)
    requires at < |frames| && perChunk >= 1 && Marks(frames, perChunk, at, k, chunk, more)
    ensures at + chunk.numFrames <= |frames|
  {}

  /** A frame that a chunk can carry. */
  predicate Carriable(frames: seq<AudioFrame>, i: nat) { i < |frames| && |frames[i].encoded| <= VOICE_MAX_PAYLOAD }

  /** The frames left are few enough for one chunk, and too long for it. */
  predicate TooLong(frames: seq<AudioFrame>, perChunk: nat, at: nat)
    requires at <= |frames|
  {
    |frames| - at <= perChunk && SizeOf(frames[at..]) > VOICE_MAX_PAYLOAD
  }

  lemma MarkedEarly(frames: seq<AudioFrame>, perChunk: nat, at: nat, k: nat, chunk: PackedChunk, more: bool)
    requires at < |frames| && perChunk >= 1 && Marks(frames, perChunk, at, k, chunk, more)
    ensures MarkedLast(chunk.data) && more <==>
            TooLong(frames, perChunk, at) && k + 1 < MAX_CHUNKS && Carriable(frames, at + chunk.numFrames)
  {
    FitsIffSmall(frames[at..], VOICE_MAX_PAYLOAD);
    hide MarkedLast, Fitting, SizeOf;
    if |frames| - at <= perChunk {
      assert Batch(frames, at, perChunk) == frames[at..];
    }
  }

  /**
   * A chunk is marked as the last although another follows exactly when the frames left are few enough
   * for one chunk but too long for it; the other follows unless 128 are made or its first frame fits no chunk.
   */
  lemma MarkedEarlyIff(frames: seq<AudioFrame>, perChunk: nat, messageId: nat, i: nat)
    requires perChunk >= 1 && i < |NativeChunks(frames, perChunk, messageId, 0, 0)|
    ensures var chunks := NativeChunks(frames, perChunk, messageId, 0, 0);
      var at := FirstFrame(chunks, i);
      && at < |frames|
      && (MarkedLast(chunks[i].data) && i + 1 < |chunks| <==>
           TooLong(frames, perChunk, at) && i + 1 < MAX_CHUNKS && Carriable(frames, at + chunks[i].numFrames))
  {
    hide NativeChunks, MarkedLast, FirstFrame, Marks, TooLong, Carriable;
    ChunkMarks(frames, perChunk, messageId, 0, 0, i);
    var chunks := NativeChunks(frames, perChunk, messageId, 0, 0);
    MarkedEarly(frames, perChunk, FirstFrame(chunks, i), i, chunks[i], i + 1 < |chunks|);
  }

  // ----- No frame longer than the first: only the final chunk is marked -----

  predicate FirstIsLongest(frames: seq<AudioFrame>) {
    Chunkable(frames) && forall i | 0 <= i < |frames| :: |frames[i].encoded| <= |frames[0].encoded|
  }

  /** Such a batch is packed whole, and any next frame can be carried. */
  lemma BatchFits(frames: seq<AudioFrame>, at: nat)
    requires FirstIsLongest(frames) && at < |frames|
    ensures var perChunk := VOICE_MAX_PAYLOAD / |frames[0].encoded|;
      && perChunk >= 1
      && Fitting(Batch(frames, at, perChunk), VOICE_MAX_PAYLOAD) == |Batch(frames, at, perChunk)|
  {
    var size := |frames[0].encoded|;
    var batch := Batch(frames, at, VOICE_MAX_PAYLOAD / size);
    Fits(|batch|, size);
    FittingAll(batch, VOICE_MAX_PAYLOAD, size);
  }

  /** A chunk that packs its whole batch is marked exactly when it holds the last frame. */
  lemma WholeBatch(frames: seq<AudioFrame>, perChunk: nat, at: nat, k: nat, chunk: PackedChunk, more: bool)
    requires at < |frames| && perChunk >= 1 && Marks(frames, perChunk, at, k, chunk, more)
    requires Fitting(Batch(frames, at, perChunk), VOICE_MAX_PAYLOAD) == |Batch(frames, at, perChunk)|
    requires forall i | 0 <= i < |frames| :: |frames[i].encoded| <= VOICE_MAX_PAYLOAD
    ensures chunk.numFrames == if |frames| - at > perChunk then perChunk else |frames| - at
    ensures MarkedLast(chunk.data) <==> at + chunk.numFrames == |frames|
    ensures more <==> at + chunk.numFrames < |frames| && k + 1 < MAX_CHUNKS
  {
    hide MarkedLast, Fitting;
  }

  lemma {:induction false} FramesInSnoc(chunks: seq<PackedChunk>, last: PackedChunk)
    ensures FramesIn(chunks + [last]) == FramesIn(chunks) + last.numFrames
  {
    if chunks == [] {
      assert [last][1..] == [];
    } else {
      FramesInSnoc(chunks[1..], last);
      assert (chunks + [last])[1..] == chunks[1..] + [last];
    }
  }

  lemma NextFirst(chunks: seq<PackedChunk>, i: nat)
    requires i < |chunks|
    ensures FirstFrame(chunks, i + 1) == FirstFrame(chunks, i) + chunks[i].numFrames
  {
    FramesInSnoc(chunks[..i], chunks[i]);
    assert chunks[..i + 1] == chunks[..i] + [chunks[i]];
  }

  /** Chunk i ends at the last frame exactly if it is marked, and another chunk follows unless it does or 128 are made. */
  predicate EndsRight(chunks: seq<PackedChunk>, total: nat, i: nat)
    requires i < |chunks|
  {
    var next := FirstFrame(chunks, i + 1);
    && (MarkedLast(chunks[i].data) <==> next == total)
    && (i + 1 < |chunks| <==> next < total && i + 1 < MAX_CHUNKS)
    && next <= total
  }

  lemma EachEndsRight(frames: seq<AudioFrame>, perChunk: nat, messageId: nat, i: nat)
    requires FirstIsLongest(frames) && perChunk == VOICE_MAX_PAYLOAD / |frames[0].encoded| >= 1
    requires i < |NativeChunks(frames, perChunk, messageId, 0, 0)|
    ensures EndsRight(NativeChunks(frames, perChunk, messageId, 0, 0), |frames|, i)
  {
    hide NativeChunks, MarkedLast, FirstFrame, Marks, Fitting, Batch;
    var chunks := NativeChunks(frames, perChunk, messageId, 0, 0);
    ChunkMarks(frames, perChunk, messageId, 0, 0, i);
    var at := FirstFrame(chunks, i);
    BatchFits(frames, at);
    WholeBatch(frames, perChunk, at, i, chunks[i], i + 1 < |chunks|);
    NextFirst(chunks, i);
  }

  predicate FinalMarked(chunks: seq<PackedChunk>, total: nat) {
    && 1 <= |chunks| <= MAX_CHUNKS
    && (FramesIn(chunks) == total || |chunks| == MAX_CHUNKS)
    && forall i | 0 <= i < |chunks| :: MarkedLast(chunks[i].data) <==> i + 1 == |chunks| && FramesIn(chunks) == total
  }

  lemma EndsRightThroughout(chunks: seq<PackedChunk>, total: nat)
    requires chunks != [] && forall i | 0 <= i < |chunks| :: EndsRight(chunks, total, i)
    ensures FinalMarked(chunks, total)
  {
    hide MarkedLast, FramesIn;
    assert FirstFrame(chunks, |chunks|) == FramesIn(chunks) by { assert chunks[..|chunks|] == chunks; }
    assert EndsRight(chunks, total, |chunks| - 1);
    if |chunks| >= 2 {
      assert EndsRight(chunks, total, |chunks| - 2);
    }
    forall i | 0 <= i < |chunks|
      ensures MarkedLast(chunks[i].data) <==> i + 1 == |chunks| && FramesIn(chunks) == total
    {
      assert EndsRight(chunks, total, i);
    }
  }

  /**
   * What a caller can check beforehand: where no frame is longer than the first, the chunk marked is the final one
   * and no other, and it holds the message's last frame, unless 128 chunks are made before that.
   */
  lemma OnlyFinalMarked(frames: seq<AudioFrame>, messageId: nat)
    requires FirstIsLongest(frames)
    ensures VOICE_MAX_PAYLOAD / |frames[0].encoded| >= 1
    ensures FinalMarked(NativeChunks(frames, VOICE_MAX_PAYLOAD / |frames[0].encoded|, messageId, 0, 0), |frames|)
  {
    hide NativeChunks, EndsRight, FinalMarked, Batch, Fitting;
    var perChunk := VOICE_MAX_PAYLOAD / |frames[0].encoded|;
    BatchFits(frames, 0);
    FirstChunkPacks(frames, perChunk, messageId);
    var chunks := NativeChunks(frames, perChunk, messageId, 0, 0);
    forall i | 0 <= i < |chunks|
      ensures EndsRight(chunks, |frames|, i)
    {
      EachEndsRight(frames, perChunk, messageId, i);
    }
    EndsRightThroughout(chunks, |frames|);
  }
}
