/** The chunks of a voice message, one by one (protocol/voice_transport.py). */
module ChunkShapes {
  import opened Bytes
  import opened Voice

  /** Bits per second, as the mode's name says. */
  function BitRate(mode: CodecMode): nat {
    match mode
    case CODEC2_700C => 700
    case CODEC2_1200 => 1200
    case CODEC2_1300 => 1300
    case CODEC2_1600 => 1600
    case CODEC2_2400 => 2400
    case CODEC2_3200 => 3200
    case LYRA_3200 => 3200
    case LYRA_6000 => 6000
    case LYRA_9200 => 9200
  }

  /** A frame is what the codec makes in a frame's time, in whole bytes. */
  lemma FramesAreWholeBytes(mode: CodecMode)
    ensures 8000 * (mode.FrameBytes() - 1) < BitRate(mode) * mode.FrameMs() <= 8000 * mode.FrameBytes()
  {}

  lemma FlagsMean(first: bool, last: bool)
    ensures var f := FlagsOf(first, last); (f & 1 != 0) == first && (f & 2 != 0) == last && f & 0xFC == 0
  {}

  /** The most frames of a mode that fit 70 bytes. */
  lemma MostThatFit(mode: CodecMode)
    ensures var m := mode.FramesPerChunk(); m >= 1 && m * mode.FrameBytes() <= 70 < (m + 1) * mode.FrameBytes()
  {}

  /**
   * Every chunk has the message's number, mode and its own place, is marked first and last where it is, and all but the last hold as
   * many frames as fit 70 bytes, in order and without a gap.
   */
  lemma ChunkShape(frames: seq<seq<byte>>, mode: CodecMode, messageId: int, k: nat)
    requires k < |ChunksOf(frames, mode, messageId)|
    ensures var c, n, m := ChunksOf(frames, mode, messageId)[k], |ChunksOf(frames, mode, messageId)|, mode.FramesPerChunk();
      && c.messageId == messageId && c.sequence == k && c.mode == mode
      && (c.flags & 1 != 0 <==> k == 0) && (c.flags & 2 != 0 <==> k == n - 1) && c.flags & 0xFC == 0
      && 1 <= c.frameCount <= m && (k < n - 1 ==> c.frameCount == m)
      && k * m + c.frameCount <= |frames| && (k == n - 1 ==> k * m + c.frameCount == |frames|)
      && c.payload == Join(frames[k * m..k * m + c.frameCount])
  {
    var m := mode.FramesPerChunk();
    hide CodecMode.FramesPerChunk, Join, FlagsOf, ChunksNeeded;
    Cuts(|frames|, m, k);
    Cuts(|frames|, m, k + 1);
    assert (k + 1) * m == k * m + m;
    FlagsMean(k == 0, k + 1 == ChunksNeeded(|frames|, m));
  }
}
