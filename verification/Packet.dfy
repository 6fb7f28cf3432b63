/** The OpenOrbitLink packet: wire format, encryption policy, builder and parser (protocol/packet.py). */
module Packet {
  import BandPolicy
  import opened Bytes
  import opened Crc
  import opened CrcDetection
  import opened CrcOrder
  import XorParity

  const SYNC_WORD: seq<byte> := [0xFE, 0x6B, 0x28, 0x40]
  const MAX_PAYLOAD_SIZE := 2048
  const HEADER_SIZE := 21
  const FEC_SIZE := 32
  const CRC_SIZE := 2

  datatype PayloadType = Text | Voice | Sos | Relay | Ack | Beacon | VoiceChunk | VoiceMeta

  function TypeCode(t: PayloadType): byte {
    match t
    case Text => 0x01
    case Voice => 0x02
    case Sos => 0x03
    case Relay => 0x04
    case Ack => 0x05
    case Beacon => 0x06
    case VoiceChunk => 0x12
    case VoiceMeta => 0x13
  }

  function TypeOf(code: byte): (t: Option<PayloadType>)
    ensures t.Some? ==> TypeCode(t.value) == code
  {
    if code == 0x01 then Some(Text)
    else if code == 0x02 then Some(Voice)
    else if code == 0x03 then Some(Sos)
    else if code == 0x04 then Some(Relay)
    else if code == 0x05 then Some(Ack)
    else if code == 0x06 then Some(Beacon)
    else if code == 0x12 then Some(VoiceChunk)
    else if code == 0x13 then Some(VoiceMeta)
    else None
  }

  datatype Band = Unknown | Amateur | Ism | Licensed | CarrierNtn | ReceiveOnly

  function BandCode(b: Band): byte {
    match b
    case Unknown => 0
    case Amateur => 1
    case Ism => 2
    case Licensed => 3
    case CarrierNtn => 4
    case ReceiveOnly => 5
  }

  function BandOf(code: byte): (b: Option<Band>)
    ensures b.Some? ==> BandCode(b.value) == code
  {
    if code == 0 then Some(Unknown)
    else if code == 1 then Some(Amateur)
    else if code == 2 then Some(Ism)
    else if code == 3 then Some(Licensed)
    else if code == 4 then Some(CarrierNtn)
    else if code == 5 then Some(ReceiveOnly)
    else None
  }

  /** The regulatory band a transmission counts as. */
  function SecurityBand(b: Band): BandPolicy.BandType {
    match b
    case Unknown => BandPolicy.UNKNOWN
    case Amateur => BandPolicy.AMATEUR
    case Ism => BandPolicy.ISM
    case Licensed => BandPolicy.LICENSED
    case CarrierNtn => BandPolicy.NTN
    case ReceiveOnly => BandPolicy.RECEIVE_ONLY
  }

  datatype Packet = Packet(
    deviceId: seq<byte>,
    timestamp: int,
    payloadType: PayloadType,
    payload: seq<byte>,
    band: Band,
    isEncrypted: bool,
    fecData: seq<byte>,
    sequenceNum: int,
    hopCount: int,
    ttl: int)
  {
    /** What assert_encryption_policy lets through. */
    predicate PolicyAllows() {
      BandPolicy.TxAllowed(SecurityBand(band)) && (isEncrypted ==> BandPolicy.EncryptionAllowed(SecurityBand(band)))
    }

    predicate Serializable() {
      |deviceId| == 6 && |payload| <= MAX_PAYLOAD_SIZE &&
      0 <= hopCount <= 255 && 0 <= ttl <= 255 && PolicyAllows()
    }
  }

  datatype PacketError = BadDeviceId | PayloadTooLong | BadHopFields | PolicyViolation

  /** The first 32 bytes, zero-filled on the right. */
  function FixedFec(fec: seq<byte>): (f: seq<byte>)
    ensures |f| == FEC_SIZE
    ensures |fec| == FEC_SIZE ==> f == fec
  {
    if |fec| >= FEC_SIZE then fec[..FEC_SIZE] else fec + seq(FEC_SIZE - |fec|, _ => 0)
  }

  function Header(p: Packet): (h: seq<byte>)
    requires p.Serializable()
    ensures |h| == HEADER_SIZE
  {
    SYNC_WORD + p.deviceId + Be32(p.timestamp % 0x1_0000_0000) +
    [TypeCode(p.payloadType), BandCode(p.band), if p.isEncrypted then 0x01 else 0x00,
     ByteOf(p.hopCount), ByteOf(p.ttl)] + Be16(|p.payload|)
  }

  function Body(p: Packet): seq<byte>
    requires p.Serializable()
  {
    Header(p) + p.payload + FixedFec(p.fecData)
  }

  function Serialize(p: Packet): Result<seq<byte>, PacketError> {
    if |p.deviceId| != 6 then Failure(BadDeviceId)
    else if |p.payload| > MAX_PAYLOAD_SIZE then Failure(PayloadTooLong)
    else if !(0 <= p.hopCount <= 255 && 0 <= p.ttl <= 255) then Failure(BadHopFields)
    else if !p.PolicyAllows() then Failure(PolicyViolation)
    else Success(Body(p) + Trailer(Ccitt(Body(p))))
  }

  function Deserialize(data: seq<byte>): Option<Packet> {
    if |data| < HEADER_SIZE + FEC_SIZE + CRC_SIZE then None
    else if data[..4] != SYNC_WORD then None
    else if data[|data| - 2..] != Trailer(Ccitt(data[..|data| - 2])) then None
    else ParseFields(data)
  }

  /** The part of deserialize behind the CRC check. */
  function ParseFields(data: seq<byte>): Option<Packet>
    requires |data| >= HEADER_SIZE + FEC_SIZE + CRC_SIZE
  {
    var t := TypeOf(data[14]);
    var band := BandOf(data[15]);
    var payloadLen := Be16Value(data[19..21]);
    if t.None? || band.None? then None
    else if data[16] & 0xFE != 0 then None
    else if payloadLen > MAX_PAYLOAD_SIZE then None
    else if |data| != HEADER_SIZE + payloadLen + FEC_SIZE + CRC_SIZE then None
    else Some(Packet(
      data[4..10],
      Be32Value(data[10..14]),
      t.value,
      data[HEADER_SIZE..HEADER_SIZE + payloadLen],
      band.value,
      data[16] & 0x01 != 0,
      data[HEADER_SIZE + payloadLen..HEADER_SIZE + payloadLen + FEC_SIZE],
      0,
      data[17] as int,
      data[18] as int))
  }

  // ----- Round trip, with the documented loss -----

  /** What survives the wire: the sequence number is not sent, the timestamp has 32 bits, the FEC field 32 bytes. */
  function Transmitted(p: Packet): Packet {
    p.(sequenceNum := 0, timestamp := p.timestamp % 0x1_0000_0000, fecData := FixedFec(p.fecData))
  }

  lemma HeaderFields(p: Packet)
    requires p.Serializable()
    ensures var h := Header(p);
      h[..4] == SYNC_WORD && h[4..10] == p.deviceId &&
      Be32Value(h[10..14]) == p.timestamp % 0x1_0000_0000 &&
      h[14] == TypeCode(p.payloadType) && h[15] == BandCode(p.band) &&
      h[16] == (if p.isEncrypted then 0x01 else 0x00) &&
      h[17] == ByteOf(p.hopCount) && h[18] == ByteOf(p.ttl) &&
      Be16Value(h[19..21]) == |p.payload|
  {
    hide ByteOf, Be32, Be32Value, Be16, Be16Value, TypeCode, BandCode;
    var h := Header(p);
    assert h[10..14] == Be32(p.timestamp % 0x1_0000_0000);
    assert h[19..21] == Be16(|p.payload|);
    assert h[4..10] == p.deviceId;
    assert h[..4] == SYNC_WORD;
  }

  lemma CodesRoundTrip(t: PayloadType, b: Band)
    ensures TypeOf(TypeCode(t)) == Some(t) && BandOf(BandCode(b)) == Some(b)
  {}

  lemma FlagsRoundTrip(encrypted: bool)
    ensures var f: byte := if encrypted then 0x01 else 0x00; f & 0xFE == 0 && (f & 0x01 != 0) == encrypted
  {}

  lemma SerializedLayout(p: Packet, data: seq<byte>)
    requires p.Serializable() && Serialize(p) == Success(data)
    ensures |data| == HEADER_SIZE + |p.payload| + FEC_SIZE + CRC_SIZE
    ensures data[..HEADER_SIZE] == Header(p)
    ensures data[HEADER_SIZE..HEADER_SIZE + |p.payload|] == p.payload
    ensures data[HEADER_SIZE + |p.payload|..HEADER_SIZE + |p.payload| + FEC_SIZE] == FixedFec(p.fecData)
    ensures data[..|data| - 2] == Body(p) && data[|data| - 2..] == Trailer(Ccitt(Body(p)))
  {
    hide Header, FixedFec, Ccitt;
    assert |Trailer(Ccitt(Body(p)))| == 2;
    hide Trailer;
    assert data == Header(p) + p.payload + FixedFec(p.fecData) + Trailer(Ccitt(Body(p)));
  }

  lemma HeaderSlices(data: seq<byte>, h: seq<byte>)
    requires |data| >= HEADER_SIZE && h == data[..HEADER_SIZE]
    ensures data[..4] == h[..4] && data[4..10] == h[4..10] && data[10..14] == h[10..14] && data[19..21] == h[19..21]
    ensures data[14] == h[14] && data[15] == h[15] && data[16] == h[16] && data[17] == h[17] && data[18] == h[18]
    ensures h == h[..4] + h[4..10] + h[10..14] + [h[14], h[15], h[16], h[17], h[18]] + h[19..21]
  {}

  lemma ParsedFields(p: Packet, data: seq<byte>)
    requires p.Serializable() && Serialize(p) == Success(data)
    ensures data[..4] == SYNC_WORD && ParseFields(data) == Some(Transmitted(p))
  {
    SerializedLayout(p, data);
    hide Header, FixedFec, Ccitt, Trailer, ByteOf, Be32, Be32Value, Be16, Be16Value, TypeCode, BandCode, TypeOf, BandOf, Serialize, Body;
    HeaderFields(p);
    HeaderSlices(data, Header(p));
    CodesRoundTrip(p.payloadType, p.band);
    FlagsRoundTrip(p.isEncrypted);
  }

  lemma RoundTrip(p: Packet)
    requires p.Serializable()
    ensures Serialize(p).Success? && Deserialize(Serialize(p).value) == Some(Transmitted(p))
  {
    var data := Serialize(p).value;
    SerializedLayout(p, data);
    ParsedFields(p, data);
    hide Header, FixedFec, Ccitt, Trailer, ParseFields;
  }

  // ----- The encoding is canonical -----

  lemma FlagsCanonical(f: byte)
    requires f & 0xFE == 0
    ensures f == if f & 0x01 != 0 then 0x01 else 0x00
  {}

  lemma ParsedHeader(data: seq<byte>, p: Packet)
    requires |data| >= HEADER_SIZE + FEC_SIZE + CRC_SIZE && data[..4] == SYNC_WORD
    requires ParseFields(data) == Some(p) && p.Serializable()
    ensures Header(p) == data[..HEADER_SIZE]
  {
    FieldBytes(data, p);
    HeaderSlices(data, data[..HEADER_SIZE]);
    hide ByteOf, Be32, Be32Value, Be16, Be16Value, TypeCode, BandCode, TypeOf, BandOf, ParseFields;
  }

  lemma FieldBytes(data: seq<byte>, p: Packet)
    requires |data| >= HEADER_SIZE + FEC_SIZE + CRC_SIZE
    requires ParseFields(data) == Some(p) && p.Serializable()
    ensures p.deviceId == data[4..10] && Be32(p.timestamp % 0x1_0000_0000) == data[10..14]
    ensures TypeCode(p.payloadType) == data[14] && BandCode(p.band) == data[15]
    ensures data[16] == if p.isEncrypted then 0x01 else 0x00
    ensures ByteOf(p.hopCount) == data[17] && ByteOf(p.ttl) == data[18]
    ensures Be16(|p.payload|) == data[19..21]
  {
    hide ByteOf, Be32, Be32Value, Be16, Be16Value, TypeCode, BandCode, TypeOf, BandOf;
    FieldValues(data);
    assert p.timestamp % 0x1_0000_0000 == p.timestamp;
  }

  lemma FieldValues(data: seq<byte>)
    requires |data| >= HEADER_SIZE + FEC_SIZE + CRC_SIZE
    ensures Be32(Be32Value(data[10..14])) == data[10..14] && Be16(Be16Value(data[19..21])) == data[19..21]
    ensures (data[17] as int) < 256 && (data[18] as int) < 256
    ensures ByteOf(data[17] as int) == data[17] && ByteOf(data[18] as int) == data[18]
    ensures data[16] & 0xFE == 0 ==> data[16] == if data[16] & 0x01 != 0 then 0x01 else 0x00
  {
    Be32OfValue(data[10..14]);
    Be16OfValue(data[19..21]);
    ByteOfValue(data[17]);
    ByteOfValue(data[18]);
    if data[16] & 0xFE == 0 { FlagsCanonical(data[16]); }
    hide ByteOf, Be32, Be32Value, Be16, Be16Value;
  }

  lemma ParsedIsWellFormed(data: seq<byte>)
    requires Deserialize(data).Some?
    ensures var p := Deserialize(data).value;
      |p.deviceId| == 6 && |p.payload| <= MAX_PAYLOAD_SIZE && |p.fecData| == FEC_SIZE &&
      0 <= p.hopCount <= 255 && 0 <= p.ttl <= 255
  {
    ByteOfValue(data[17]);
    ByteOfValue(data[18]);
    hide ByteOf, Be32Value, Be16Value, TypeOf, BandOf, Ccitt, Trailer;
  }

  /** An accepted byte string is the one and only encoding of the packet it decodes to; only policy can forbid re-sending it. */
  lemma Canonical(data: seq<byte>)
    requires Deserialize(data).Some?
    ensures var p := Deserialize(data).value;
      Serialize(p) == if p.PolicyAllows() then Success(data) else Failure(PolicyViolation)
  {
    var p := Deserialize(data).value;
    ParsedIsWellFormed(data);
    hide Header, Ccitt, Trailer, TypeOf, BandOf, Be16Value, Be32Value;
    if p.PolicyAllows() {
      ParsedHeader(data, p);
      BodyOfParsed(data, p);
      hide ParseFields, Body;
      assert data == data[..|data| - 2] + data[|data| - 2..];
    }
  }

  lemma BodyOfParsed(data: seq<byte>, p: Packet)
    requires |data| >= HEADER_SIZE + FEC_SIZE + CRC_SIZE
    requires ParseFields(data) == Some(p) && p.Serializable() && Header(p) == data[..HEADER_SIZE]
    ensures Body(p) == data[..|data| - 2]
  {
    hide Header, TypeOf, BandOf, Be16Value, Be32Value;
    assert data[..|data| - 2] == data[..HEADER_SIZE] + p.payload + p.fecData;
  }

  // ----- Error detection -----

  lemma CrcAcceptsIffRegisterClears(data: seq<byte>)
    requires |data| >= 2
    ensures data[|data| - 2..] == Trailer(Ccitt(data[..|data| - 2]))
      <==> BitRegister(0xFFFF, AllBits(MsbBits, data)) == 0
  {
    hide Trailer, MsbBits;
    var body, tail := data[..|data| - 2], data[|data| - 2..];
    assert data == body + tail && tail == [tail[0], tail[1]];
    RegisterConcat(0xFFFF, body, tail);
    Residue(Ccitt(body), tail[0], tail[1]);
    RegisterIsBitRegister(0xFFFF, data);
  }

  /** No detectable corruption of a transmitted packet is ever accepted; and every packet is short enough for three flips to be. */
  lemma CorruptionRejected(p: Packet, sent: seq<byte>, received: seq<byte>)
    requires Serialize(p) == Success(sent) && |received| == |sent|
    requires DetectableCorruption(MsbBits, sent, received)
    ensures Deserialize(received) == None
  {
    SerializedLayout(p, sent);
    CrcAcceptsIffRegisterClears(sent);
    CrcAcceptsIffRegisterClears(received);
    Detected(0xFFFF, AllBits(MsbBits, sent), AllBits(MsbBits, received));
    hide Header, Ccitt, Trailer, MsbBits, FixedFec;
  }

  /** So the bound on the length in `Detectable` excludes no packet. */
  lemma PacketsAreShort(p: Packet, sent: seq<byte>)
    requires Serialize(p) == Success(sent)
    ensures |AllBits(MsbBits, sent)| <= ORDER
  {
    SerializedLayout(p, sent);
    AllBitsLength(MsbBits, sent);
  }

  // ----- Builder and parser -----

  const MAX_FEC_MISMATCHES := 16

  function Built(deviceId: seq<byte>, seqNum: int, t: PayloadType, payload: seq<byte>, band: Band, encrypted: bool, now: int): Packet {
    Packet(deviceId, now, t, payload, band, encrypted, XorParity.Parity(payload, FEC_SIZE), seqNum, 0, 10)
  }

  function ParsePacket(raw: seq<byte>): Option<Packet> {
    match Deserialize(raw)
    case None => None
    case Some(p) =>
      if XorParity.Mismatches(p.fecData, XorParity.Parity(p.payload, FEC_SIZE)) > MAX_FEC_MISMATCHES then None
      else Some(p)
  }

  class OpenOrbitLinkProtocol {
    const deviceId: seq<byte>
    var seqCounter: int

    constructor (deviceId: seq<byte>)
      requires |deviceId| == 6
      ensures this.deviceId == deviceId && seqCounter == 0
    {
      this.deviceId := deviceId;
      seqCounter := 0;
    }

    /** The counter moves even when the policy then refuses the packet. */
    method BuildPacket(t: PayloadType, payload: seq<byte>, band: Band, encrypted: bool, now: int)
      returns (r: Result<Packet, PacketError>)
      modifies this`seqCounter
      ensures seqCounter == old(seqCounter) + 1
      ensures var p := Built(deviceId, seqCounter, t, payload, band, encrypted, now);
        r == if p.PolicyAllows() then Success(p) else Failure(PolicyViolation)
    {
      seqCounter := seqCounter + 1;
      var fecData := XorParity.ComputeParity(payload, FEC_SIZE);
      var packet := Packet(deviceId, now, t, payload, band, encrypted, fecData[..], seqCounter, 0, 10);
      if !packet.PolicyAllows() {
        return Failure(PolicyViolation);
      }
      return Success(packet);
    }
  }

  /** Whatever the builder makes has ten hops to go, and what serialize takes of it the parser gives back. */
  lemma BuiltPacketsParse(deviceId: seq<byte>, n: int, t: PayloadType, payload: seq<byte>, band: Band, encrypted: bool, now: int)
    requires |deviceId| == 6
    ensures var p := Built(deviceId, n, t, payload, band, encrypted, now);
      && p.ttl - p.hopCount == 10
      && (Serialize(p).Success? <==> |payload| <= MAX_PAYLOAD_SIZE && p.PolicyAllows())
      && (Serialize(p).Success? ==>
            ParsePacket(Serialize(p).value) == Some(p.(sequenceNum := 0, timestamp := now % 0x1_0000_0000)))
  {
    var p := Built(deviceId, n, t, payload, band, encrypted, now);
    if p.Serializable() {
      RoundTrip(p);
      XorParity.NoMismatch(p.fecData);
    }
    hide Deserialize, Body, Ccitt, Trailer;
  }
}
