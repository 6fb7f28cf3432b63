/** Which byte strings are packets, octet by octet (protocol/packet.py). */
module PacketOctets {
  import opened Bytes
  import opened Crc
  import opened Octets
  import opened Packet
  import XorParity

  predicate TypeIs(code: int, t: PayloadType) {
    || (1 <= code <= 6 && t == [Text, Voice, Sos, Relay, Ack, Beacon][code - 1])
    || (0x12 <= code <= 0x13 && t == [VoiceChunk, VoiceMeta][code - 0x12])
  }

  predicate BandIs(code: int, b: Band) {
    0 <= code <= 5 && b == [Unknown, Amateur, Ism, Licensed, CarrierNtn, ReceiveOnly][code]
  }

  /** Sync word, device, time, type, band, flag, hops, limit, length; payload; parity; and a CRC that clears the register. */
  predicate Holds(data: seq<byte>, p: Packet) {
    && |data| == 55 + |p.payload| && |p.payload| <= 2048
    && data[..4] == [0xFE, 0x6B, 0x28, 0x40]
    && data[4..10] == p.deviceId
    && Number(data[10..14]) == p.timestamp
    && TypeIs(data[14] as int, p.payloadType) && BandIs(data[15] as int, p.band)
    && data[16] as int == (if p.isEncrypted then 1 else 0)
    && data[17] as int == p.hopCount && data[18] as int == p.ttl
    && Number(data[19..21]) == |p.payload|
    && data[21..21 + |p.payload|] == p.payload
    && data[21 + |p.payload|..53 + |p.payload|] == p.fecData
    && Register(0xFFFF, data) == 0
  }

  lemma Codes(code: byte)
    ensures forall t :: TypeOf(code) == Some(t) <==> TypeIs(code as int, t)
    ensures forall b :: BandOf(code) == Some(b) <==> BandIs(code as int, b)
  {}

  lemma Flag(f: byte, encrypted: bool)
    ensures f as int == (if encrypted then 1 else 0) <==> f & 0xFE == 0 && (f & 0x01 != 0) == encrypted
  {}

  lemma CrcClears(data: seq<byte>)
    requires |data| >= 2
    ensures data[|data| - 2..] == Trailer(Ccitt(data[..|data| - 2])) <==> Register(0xFFFF, data) == 0
  {
    CrcAcceptsIffRegisterClears(data);
    RegisterIsBitRegister(0xFFFF, data);
  }

  lemma FieldsHold(data: seq<byte>, p: Packet)
    requires |data| >= 55 && Register(0xFFFF, data) == 0 && data[..4] == [0xFE, 0x6B, 0x28, 0x40]
    requires ParseFields(data) == Some(p)
    ensures Holds(data, p) && p.sequenceNum == 0
  {
    Numbers(data[10..14]);
    Numbers(data[19..21]);
    Codes(data[14]);
    Codes(data[15]);
    Flag(data[16], p.isEncrypted);
    hide Number, TypeOf, BandOf, TypeIs, BandIs, Be16Value, Be32Value, Register;
  }

  lemma HeldParses(data: seq<byte>, p: Packet)
    requires Holds(data, p)
    ensures ParseFields(data).Some?
  {
    Numbers(data[19..21]);
    Codes(data[14]);
    Codes(data[15]);
    Flag(data[16], p.isEncrypted);
    hide Number, TypeOf, BandOf, TypeIs, BandIs, Be16Value, Be32Value, Register;
    assert TypeOf(data[14]) == Some(p.payloadType) && BandOf(data[15]) == Some(p.band);
  }

  lemma HeldOnce(data: seq<byte>, p: Packet, q: Packet)
    requires Holds(data, p) && Holds(data, q) && p.sequenceNum == q.sequenceNum
    ensures p == q
  {
    Codes(data[14]);
    Codes(data[15]);
    hide Number, TypeOf, BandOf, TypeIs, BandIs, Register;
    assert TypeOf(data[14]) == Some(p.payloadType) == Some(q.payloadType);
    assert BandOf(data[15]) == Some(p.band) == Some(q.band);
  }

  /** A byte string is read as a packet exactly when it holds it, whatever its band allows. */
  lemma ReadIff(data: seq<byte>, p: Packet)
    ensures Deserialize(data) == Some(p) <==> Holds(data, p) && p.sequenceNum == 0
  {
    hide Number, TypeIs, BandIs, ParseFields, Register, Trailer;
    if |data| >= 55 {
      CrcClears(data);
      if Register(0xFFFF, data) == 0 && data[..4] == SYNC_WORD {
        if ParseFields(data) == Some(p) { FieldsHold(data, p); }
        if Holds(data, p) && p.sequenceNum == 0 {
          HeldParses(data, p);
          FieldsHold(data, ParseFields(data).value);
          HeldOnce(data, p, ParseFields(data).value);
        }
      }
    }
  }

  /** And what serialize sends holds the packet, its time cut to 32 bits and its parity to 32 octets. */
  lemma SentHolds(p: Packet, data: seq<byte>)
    requires Serialize(p) == Success(data)
    ensures Holds(data, p.(timestamp := p.timestamp % 0x1_0000_0000, fecData := (p.fecData + seq(32, _ => 0))[..32]))
  {
    hide Number, TypeIs, BandIs, Register;
    RoundTrip(p);
    ReadIff(data, Transmitted(p));
    hide Holds, Deserialize, Body;
    assert (p.fecData + seq(32, _ => 0))[..32] == FixedFec(p.fecData);
  }

  /** What may be sent: six octets of device, at most 2048 of payload, and on no band unknown or only received on, nor encrypted on an amateur one. */
  lemma SendableIff(p: Packet)
    ensures Serialize(p).Success? <==>
      && |p.deviceId| == 6 && |p.payload| <= 2048 && 0 <= p.hopCount < 256 && 0 <= p.ttl < 256
      && !p.band.Unknown? && !p.band.ReceiveOnly? && (p.band.Amateur? ==> !p.isEncrypted)
  {
    hide Body, Ccitt, Trailer;
  }

  /** And the parser lets it pass exactly when at most half of its parity octets are not those of its payload. */
  lemma ParsedIff(data: seq<byte>, p: Packet)
    ensures ParsePacket(data) == Some(p) <==>
      && Holds(data, p) && p.sequenceNum == 0
      && |XorParity.Disagreeing(p.fecData, XorParity.Parity(p.payload, 32))| <= 16
  {
    ReadIff(data, p);
    XorParity.MismatchesCount(p.fecData, XorParity.Parity(p.payload, 32));
    hide Holds, Deserialize;
  }
}
