/** Reassembly of voice chunks in any order (protocol/voice_transport.py). */
module VoiceReassembly {
  import opened Bytes
  import opened Voice

  /** The state of a reassembly buffer; time 0 stands for "nothing received yet". */
  datatype Buffer = Buffer(messageId: int, chunks: map<nat, Chunk>, expectedTotal: Option<nat>, mode: Option<CodecMode>,
                           firstReceivedAt: real, lastReceivedAt: real)
  {
    predicate IsComplete() {
      expectedTotal.Some? && |chunks| >= expectedTotal.value
    }

    function MissingBelow(n: nat): seq<nat> {
      if n == 0 then [] else MissingBelow(n - 1) + (if n - 1 in chunks then [] else [n - 1])
    }

    function MissingChunks(): seq<nat> {
      if expectedTotal.None? then [] else MissingBelow(expectedTotal.value)
    }

    ghost function Total(): nat {
      if expectedTotal.Some? then expectedTotal.value
      else if |chunks| == 0 then 0
      else MaxOf(chunks.Keys) + 1
    }

    ghost function OrderedPayloads(): seq<Option<seq<byte>>> {
      seq(Total(), i requires i >= 0 => if i in chunks then Some(chunks[i].payload) else None)
    }
  }

  ghost function MaxOf(s: set<nat>): (m: nat)
    requires s != {}
    ensures m in s && forall x | x in s :: x <= m
  {
    var x :| x in s;
    var others := s - {x};
    assert forall y | y in s :: y == x || y in others;
    if others == {} then x
    else
      var m := MaxOf(others);
      if x >= m then x else m
  }

  function Added(b: Buffer, c: Chunk, now: real): Buffer {
    if c.messageId != b.messageId then b
    else Buffer(b.messageId, b.chunks[c.sequence := c],
                if c.IsLast() then Some(c.sequence + 1) else b.expectedTotal, Some(c.mode),
                if b.firstReceivedAt == 0.0 then now else b.firstReceivedAt, now)
  }

  class VoiceReassemblyBuffer {
    const messageId: int
    var chunks: map<nat, Chunk>
    var expectedTotal: Option<nat>
    var mode: Option<CodecMode>
    var firstReceivedAt: real
    var lastReceivedAt: real

    function View(): Buffer
      reads this
    {
      Buffer(messageId, chunks, expectedTotal, mode, firstReceivedAt, lastReceivedAt)
    }

    constructor (messageId: int)
      ensures View() == Empty(messageId)
    {
      this.messageId := messageId;
      chunks, expectedTotal, mode, firstReceivedAt, lastReceivedAt := map[], None, None, 0.0, 0.0;
    }

    method AddChunk(c: Chunk, now: real) returns (complete: bool)
      modifies this
      ensures View() == Added(old(View()), c, now)
      ensures complete <==> c.messageId == messageId && View().IsComplete()
    {
      if c.messageId != messageId {
        return false;
      }
      if firstReceivedAt == 0.0 {
        firstReceivedAt := now;
      }
      lastReceivedAt := now;
      chunks := chunks[c.sequence := c];
      mode := Some(c.mode);
      if c.IsLast() {
        expectedTotal := Some(c.sequence + 1);
      }
      return View().IsComplete();
    }
  }

  function Empty(messageId: int): Buffer { Buffer(messageId, map[], None, None, 0.0, 0.0) }

  // ----- Any arrival order -----

  datatype Arrival = Arrival(chunk: Chunk, at: real)

  function Receive(b: Buffer, arrivals: seq<Arrival>): Buffer {
    if arrivals == [] then b
    else
      var last := arrivals[|arrivals| - 1];
      Added(Receive(b, arrivals[..|arrivals| - 1]), last.chunk, last.at)
  }

  /** The same chunk, up to the frame count that the wire does not carry. */
  predicate SameChunk(a: Chunk, b: Chunk) {
    a.messageId == b.messageId && a.sequence == b.sequence && a.flags == b.flags && a.mode == b.mode && a.payload == b.payload
  }

  /** A copy of one of the message's chunks, or a chunk of some other message. */
  predicate Belongs(c: Chunk, chunks: seq<Chunk>, messageId: int) {
    c.messageId == messageId ==> c.sequence < |chunks| && SameChunk(c, chunks[c.sequence])
  }

  predicate AllBelong(arrivals: seq<Arrival>, chunks: seq<Chunk>, messageId: int) {
    forall i | 0 <= i < |arrivals| :: Belongs(arrivals[i].chunk, chunks, messageId)
  }

  /** The sequence numbers of the message's chunks among the arrivals. */
  function Seen(arrivals: seq<Arrival>, messageId: int): set<nat> {
    set i | 0 <= i < |arrivals| && arrivals[i].chunk.messageId == messageId :: arrivals[i].chunk.sequence
  }

  function Upto(n: nat): (s: set<nat>)
    ensures |s| == n && forall i: nat :: i in s <==> i < n
  {
    if n == 0 then {} else Upto(n - 1) + {n - 1}
  }

  lemma FullWhenAsMany(s: set<nat>, n: nat)
    requires s <= Upto(n)
    ensures |s| >= n <==> s == Upto(n)
  {
    var rest := Upto(n) - s;
    assert Upto(n) == s + rest && |Upto(n)| == |s| + |rest|;
    if |s| >= n {
      assert rest == {};
    }
  }

  /** The message's own chunks, in the buffer and in the arrivals. */
  predicate Holds(b: Buffer, chunks: seq<Chunk>, seen: set<nat>) {
    && seen <= Upto(|chunks|) && b.chunks.Keys == seen
    && (forall k | k in seen :: SameChunk(b.chunks[k], chunks[k]))
    && b.expectedTotal == if |chunks| - 1 in seen then Some(|chunks|) else None
  }

  predicate Numbered(chunks: seq<Chunk>) {
    && |chunks| >= 1
    && forall k | 0 <= k < |chunks| :: chunks[k].sequence == k && (chunks[k].IsLast() <==> k == |chunks| - 1)
  }

  lemma SeenMore(arrivals: seq<Arrival>, messageId: int)
    requires arrivals != []
    ensures var n := |arrivals| - 1; var c := arrivals[n].chunk;
            Seen(arrivals, messageId) == Seen(arrivals[..n], messageId) + (if c.messageId == messageId then {c.sequence} else {})
  {
    var n := |arrivals| - 1;
    forall k | k in Seen(arrivals, messageId)
      ensures k in Seen(arrivals[..n], messageId) || (arrivals[n].chunk.messageId == messageId && k == arrivals[n].chunk.sequence)
    {
      var i :| 0 <= i < |arrivals| && arrivals[i].chunk.messageId == messageId && arrivals[i].chunk.sequence == k;
      if i < n {
        assert arrivals[..n][i] == arrivals[i];
      }
    }
    forall k | k in Seen(arrivals[..n], messageId)
      ensures k in Seen(arrivals, messageId)
    {
      var i :| 0 <= i < n && arrivals[..n][i].chunk.messageId == messageId && arrivals[..n][i].chunk.sequence == k;
      assert arrivals[i] == arrivals[..n][i];
    }
    assert arrivals[n].chunk.messageId == messageId ==> arrivals[n].chunk.sequence in Seen(arrivals, messageId);
  }

  lemma SameFlags(a: Chunk, b: Chunk)
    requires SameChunk(a, b)
    ensures a.IsFirst() == b.IsFirst() && a.IsLast() == b.IsLast()
  {}

  lemma AddedHolds(b: Buffer, c: Chunk, now: real, chunks: seq<Chunk>, seen: set<nat>)
    requires Numbered(chunks) && Belongs(c, chunks, b.messageId) && Holds(b, chunks, seen)
    ensures Holds(Added(b, c, now), chunks, seen + (if c.messageId == b.messageId then {c.sequence} else {}))
  {
    hide Chunk.IsLast, Upto;
    if c.messageId == b.messageId {
      var k := c.sequence;
      SameFlags(c, chunks[k]);
      assert b.chunks[k := c].Keys == seen + {k};
    } else {
      assert seen + {} == seen;
    }
  }

  lemma {:induction false} ReceiveHolds(arrivals: seq<Arrival>, chunks: seq<Chunk>, messageId: int)
    requires Numbered(chunks) && AllBelong(arrivals, chunks, messageId)
    ensures Receive(Empty(messageId), arrivals).messageId == messageId
    ensures Holds(Receive(Empty(messageId), arrivals), chunks, Seen(arrivals, messageId))
    decreases arrivals
  {
    if arrivals == [] {
      assert Seen(arrivals, messageId) == {};
    } else {
      var n := |arrivals| - 1;
      assert AllBelong(arrivals[..n], chunks, messageId) by {
        forall i | 0 <= i < n
          ensures Belongs(arrivals[..n][i].chunk, chunks, messageId)
        {
          assert Belongs(arrivals[i].chunk, chunks, messageId);
        }
      }
      ReceiveHolds(arrivals[..n], chunks, messageId);
      SeenMore(arrivals, messageId);
      AddedHolds(Receive(Empty(messageId), arrivals[..n]), arrivals[n].chunk, arrivals[n].at, chunks, Seen(arrivals[..n], messageId));
    }
  }

  lemma {:induction false} MissingBelowIs(b: Buffer, n: nat)
    ensures forall k: nat :: k in b.MissingBelow(n) <==> k < n && k !in b.chunks
    ensures forall i, j | 0 <= i < j < |b.MissingBelow(n)| :: b.MissingBelow(n)[i] < b.MissingBelow(n)[j]
    decreases n
  {
    if n > 0 {
      MissingBelowIs(b, n - 1);
      var fewer := b.MissingBelow(n - 1);
      assert forall i | 0 <= i < |fewer| :: fewer[i] in fewer;
    }
  }

  /** What a buffer that holds exactly the chunks seen so far answers. */
  lemma HoldsAnswers(b: Buffer, chunks: seq<Chunk>, seen: set<nat>)
    requires Numbered(chunks) && Holds(b, chunks, seen)
    ensures b.IsComplete() <==> seen == Upto(|chunks|)
    ensures forall k: nat :: k in b.MissingChunks() <==> |chunks| - 1 in seen && k < |chunks| && k !in seen
    ensures forall i, j | 0 <= i < j < |b.MissingChunks()| :: b.MissingChunks()[i] < b.MissingChunks()[j]
  {
    hide SameChunk, Chunk.IsLast, Upto, Buffer.MissingBelow;
    FullWhenAsMany(seen, |chunks|);
    assert |b.chunks| == |b.chunks.Keys|;
    MissingBelowIs(b, |chunks|);
    if seen == Upto(|chunks|) {
      assert |chunks| - 1 in seen;
    }
  }

  /** The payloads it gives, complete or not: up to the highest chunk seen, with gaps where one is missing. */
  lemma HoldsPayloads(b: Buffer, chunks: seq<Chunk>, seen: set<nat>)
    requires Numbered(chunks) && Holds(b, chunks, seen)
    ensures seen == {} ==> b.OrderedPayloads() == []
    ensures seen != {} ==> |b.OrderedPayloads()| == MaxOf(seen) + 1
    ensures forall k | 0 <= k < |b.OrderedPayloads()| ::
              b.OrderedPayloads()[k] == if k in seen then Some(chunks[k].payload) else None
  {
    hide Numbered, Upto;
    assert |b.chunks| == |b.chunks.Keys|;
  }

  /** The payloads in order, once every one is there. */
  function Somes(payloads: seq<seq<byte>>): seq<Option<seq<byte>>> {
    seq(|payloads|, k requires 0 <= k < |payloads| => Some(payloads[k]))
  }

  lemma ChunksAreNumbered(frames: seq<seq<byte>>, mode: CodecMode, messageId: int)
    requires frames != []
    ensures Numbered(ChunksOf(frames, mode, messageId))
  {
    hide Chunk.IsFirst, Chunk.IsLast, ChunksNeeded, FlagsOf, Join, CodecMode.FramesPerChunk;
    Cuts(|frames|, mode.FramesPerChunk(), 0);
    forall k | 0 <= k < |ChunksOf(frames, mode, messageId)| {
      FlagsMark(frames, mode, messageId, k);
    }
  }

  /**
   * Confluence: whatever the order, the duplicates, the losses and the chunks of other messages in
   * between, the buffer's answers depend only on which chunks have been seen, and a complete buffer
   * gives back the frames.
   */
  lemma Confluence(frames: seq<seq<byte>>, mode: CodecMode, messageId: int, arrivals: seq<Arrival>)
    requires frames != [] && AllBelong(arrivals, ChunksOf(frames, mode, messageId), messageId)
    ensures var chunks := ChunksOf(frames, mode, messageId);
            var b := Receive(Empty(messageId), arrivals);
            var seen := Seen(arrivals, messageId);
            && (b.IsComplete() <==> seen == Upto(|chunks|))
            && (forall k: nat :: k in b.MissingChunks() <==> |chunks| - 1 in seen && k < |chunks| && k !in seen)
            && (b.IsComplete() ==> b.OrderedPayloads() == Somes(Payloads(chunks)))
            && Join(Payloads(chunks)) == Join(frames)
  {
    var chunks := ChunksOf(frames, mode, messageId);
    var b := Receive(Empty(messageId), arrivals);
    var seen := Seen(arrivals, messageId);
    hide ChunksOf, Join, Receive, Seen, Upto, Belongs, Buffer.IsComplete, Buffer.MissingChunks, Buffer.OrderedPayloads, SameChunk;
    ChunksAreNumbered(frames, mode, messageId);
    ReceiveHolds(arrivals, chunks, messageId);
    HoldsAnswers(b, chunks, seen);
    HoldsPayloads(b, chunks, seen);
    PayloadsJoin(frames, mode, messageId);
    if b.IsComplete() {
      assert |chunks| - 1 in seen && MaxOf(seen) == |chunks| - 1;
      assert b.OrderedPayloads() == Somes(Payloads(chunks));
    }
  }

  // ----- Through the wire -----

  /** A message's chunks survive the wire exactly when their numbers fit the header's 16 bits. */
  lemma WireKeepsChunks(frames: seq<seq<byte>>, mode: CodecMode, messageId: int)
    requires 0 <= messageId < 0x1_0000_0000
    ensures var chunks := ChunksOf(frames, mode, messageId);
            (forall k | 0 <= k < |chunks| ::
              Deserialize(Serialize(chunks[k])).Some? && SameChunk(Deserialize(Serialize(chunks[k])).value, chunks[k]))
            <==> |chunks| <= 0x1_0000
  {
    hide Serialize, Deserialize, ChunksNeeded, FlagsOf, Join;
    var chunks := ChunksOf(frames, mode, messageId);
    forall k | 0 <= k < |chunks|
      ensures Deserialize(Serialize(chunks[k])).Some?
      ensures SameChunk(Deserialize(Serialize(chunks[k])).value, chunks[k]) <==> k < 0x1_0000
    {
      WireRoundTrip(chunks[k]);
    }
    if |chunks| > 0x1_0000 {
      assert !SameChunk(Deserialize(Serialize(chunks[0x1_0000])).value, chunks[0x1_0000]);
    }
  }

  /** What comes in from the radio: bytes, and when. */
  datatype Datagram = Datagram(data: seq<byte>, at: real)

  /** The datagrams that read as voice chunks. */
  function Parsed(datagrams: seq<Datagram>): seq<Arrival> {
    if datagrams == [] then []
    else
      var last := datagrams[|datagrams| - 1];
      var earlier := Parsed(datagrams[..|datagrams| - 1]);
      match Deserialize(last.data)
      case None => earlier
      case Some(c) => earlier + [Arrival(c, last.at)]
  }

  /** A datagram that carries the message's identifier is one of its chunks; any other traffic is welcome. */
  ghost predicate Genuine(data: seq<byte>, chunks: seq<Chunk>, messageId: int) {
    && |data| >= VOICE_HEADER_SIZE && Be16Value(data[..2]) == VOICE_MAGIC && Be32Value(data[2..6]) == messageId
    ==> exists k :: 0 <= k < |chunks| && data == Serialize(chunks[k])
  }

  ghost predicate AllGenuine(datagrams: seq<Datagram>, chunks: seq<Chunk>, messageId: int) {
    forall i | 0 <= i < |datagrams| :: Genuine(datagrams[i].data, chunks, messageId)
  }

  /** A message whose chunks the wire keeps apart. */
  predicate Sendable(chunks: seq<Chunk>, messageId: int) {
    && 0 <= messageId < 0x1_0000_0000 && Numbered(chunks) && |chunks| <= 0x1_0000
    && forall k | 0 <= k < |chunks| :: chunks[k].messageId == messageId
  }

  lemma OwnDatagram(chunks: seq<Chunk>, messageId: int, k: nat)
    requires Sendable(chunks, messageId) && k < |chunks|
    ensures var c := Deserialize(Serialize(chunks[k])); c.Some? && c.value.sequence == k && SameChunk(c.value, chunks[k])
  {
    hide Serialize, Deserialize;
    WireRoundTrip(chunks[k]);
  }

  /** A datagram reads as one of the message's chunks exactly when it is that chunk's serialization. */
  lemma GenuineReads(data: seq<byte>, chunks: seq<Chunk>, messageId: int, k: nat)
    requires Sendable(chunks, messageId) && Genuine(data, chunks, messageId) && k < |chunks|
    ensures Deserialize(data).Some? ==> Belongs(Deserialize(data).value, chunks, messageId)
    ensures data == Serialize(chunks[k]) <==>
            Deserialize(data).Some? && Deserialize(data).value.messageId == messageId && Deserialize(data).value.sequence == k
  {
    hide Serialize, Be16Value, Be32Value, ModeOf;
    OwnDatagram(chunks, messageId, k);
    if Deserialize(data).Some? && Deserialize(data).value.messageId == messageId {
      var j :| 0 <= j < |chunks| && data == Serialize(chunks[j]);
      OwnDatagram(chunks, messageId, j);
    }
  }

  lemma {:induction false} ParsedBelong(datagrams: seq<Datagram>, chunks: seq<Chunk>, messageId: int, k: nat)
    requires Sendable(chunks, messageId) && AllGenuine(datagrams, chunks, messageId) && k < |chunks|
    ensures AllBelong(Parsed(datagrams), chunks, messageId)
    ensures k in Seen(Parsed(datagrams), messageId) <==> exists i :: 0 <= i < |datagrams| && datagrams[i].data == Serialize(chunks[k])
    decreases datagrams
  {
    hide Serialize, Deserialize, Belongs, Genuine, Sendable;
    if datagrams != [] {
      var n := |datagrams| - 1;
      var data := datagrams[n].data;
      ParsedBelong(datagrams[..n], chunks, messageId, k);
      GenuineReads(data, chunks, messageId, k);
      assert (exists i :: 0 <= i < |datagrams| && datagrams[i].data == Serialize(chunks[k])) <==>
             data == Serialize(chunks[k]) || exists i :: 0 <= i < n && datagrams[..n][i].data == Serialize(chunks[k]) by {
        assert forall i | 0 <= i < n :: datagrams[..n][i] == datagrams[i];
      }
      if Deserialize(data).Some? {
        var parsed := Parsed(datagrams);
        assert parsed[..|parsed| - 1] == Parsed(datagrams[..n]);
        SeenMore(parsed, messageId);
      }
    }
  }

  /**
   * Confluence over the wire, in the midst of any other traffic: the message is complete exactly when
   * every one of its chunks has come in, and then the payloads are the message's own.
   */
  lemma AcrossTheWire(frames: seq<seq<byte>>, mode: CodecMode, messageId: int, datagrams: seq<Datagram>)
    requires frames != [] && 0 <= messageId < 0x1_0000_0000 && |ChunksOf(frames, mode, messageId)| <= 0x1_0000
    requires AllGenuine(datagrams, ChunksOf(frames, mode, messageId), messageId)
    ensures var chunks := ChunksOf(frames, mode, messageId);
            var b := Receive(Empty(messageId), Parsed(datagrams));
            && (b.IsComplete() <==>
                forall k | 0 <= k < |chunks| :: exists i :: 0 <= i < |datagrams| && datagrams[i].data == Serialize(chunks[k]))
            && (b.IsComplete() ==> b.OrderedPayloads() == Somes(Payloads(chunks)))
  {
    hide Serialize, Deserialize, Belongs, Genuine, Receive, Seen, Join, Buffer.IsComplete, Buffer.MissingChunks, Buffer.OrderedPayloads;
    var chunks := ChunksOf(frames, mode, messageId);
    var seen := Seen(Parsed(datagrams), messageId);
    ChunksAreNumbered(frames, mode, messageId);
    forall k | 0 <= k < |chunks|
      ensures k in seen <==> exists i :: 0 <= i < |datagrams| && datagrams[i].data == Serialize(chunks[k])
    {
      ParsedBelong(datagrams, chunks, messageId, k);
    }
    ParsedBelong(datagrams, chunks, messageId, 0);
    Confluence(frames, mode, messageId, Parsed(datagrams));
    SeenIsBelow(Parsed(datagrams), chunks, messageId);
    assert seen == Upto(|chunks|) <==> forall k | 0 <= k < |chunks| :: k in seen;
  }

  lemma SeenIsBelow(arrivals: seq<Arrival>, chunks: seq<Chunk>, messageId: int)
    requires AllBelong(arrivals, chunks, messageId)
    ensures Seen(arrivals, messageId) <= Upto(|chunks|)
  {
    forall k | k in Seen(arrivals, messageId)
      ensures k < |chunks|
    {
      var i :| 0 <= i < |arrivals| && arrivals[i].chunk.messageId == messageId && arrivals[i].chunk.sequence == k;
      assert Belongs(arrivals[i].chunk, chunks, messageId);
    }
  }
}
