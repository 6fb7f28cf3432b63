/** Which byte strings are voice chunks, octet by octet (protocol/voice_transport.py). */
module VoiceOctets {
  import opened Bytes
  import opened Octets
  import opened Voice

  /** Codec2 modes count from 0x10, Lyra modes from 0x20. */
  predicate ModeIs(code: int, mode: CodecMode) {
    || (0x10 <= code <= 0x15 && mode == [CODEC2_700C, CODEC2_1200, CODEC2_1300, CODEC2_1600, CODEC2_2400, CODEC2_3200][code - 0x10])
    || (0x20 <= code <= 0x22 && mode == [LYRA_3200, LYRA_6000, LYRA_9200][code - 0x20])
  }

  /** "VM", message, sequence, flags, codec, payload. */
  predicate Holds(data: seq<byte>, c: Chunk) {
    && |data| >= 10 && data[0] == 0x56 && data[1] == 0x4D
    && Number(data[2..6]) == c.messageId && Number(data[6..8]) == c.sequence
    && data[8] == c.flags && ModeIs(data[9] as int, c.mode) && data[10..] == c.payload
  }

  lemma Magic(data: seq<byte>)
    requires |data| >= 2
    ensures Be16Value(data[..2]) == VOICE_MAGIC <==> data[0] == 0x56 && data[1] == 0x4D
  {
    TwoOctets(data[..2]);
    if data[0] as int == 0x56 { SameValue(data[0], 0x56); }
    if data[1] as int == 0x4D { SameValue(data[1], 0x4D); }
    ByteOfValue(data[0]);
    ByteOfValue(data[1]);
    hide Number, ByteOf;
  }

  lemma Modes(code: byte, mode: CodecMode)
    ensures ModeOf(code as int) == Some(mode) <==> ModeIs(code as int, mode)
  {}

  /** A byte string is read as a chunk exactly when it holds it. */
  lemma ReadIff(data: seq<byte>, c: Chunk)
    ensures Deserialize(data) == Some(c) <==> Holds(data, c) && c.frameCount == 0
  {
    hide Number, Be16Value, Be32Value, ModeOf, ModeIs;
    if |data| >= 10 {
      Magic(data);
      Numbers(data[2..6]);
      Numbers(data[6..8]);
      Modes(data[9], c.mode);
    }
  }

  /** What is sent holds the chunk, its numbers cut to 32 and 16 bits. */
  lemma SentHolds(c: Chunk)
    ensures Holds(Serialize(c), c.(messageId := c.messageId % 0x1_0000_0000, sequence := c.sequence % 0x1_0000))
  {
    WireRoundTrip(c);
    ReadIff(Serialize(c), Chunk(c.messageId % 0x1_0000_0000, c.sequence % 0x1_0000, c.flags, c.mode, c.payload, 0));
    hide Deserialize, Serialize, Number, ModeIs;
  }
}
