# OpenOrbitLink: verified models of framing, routing, airtime, voice, security and compression

These Dafny files model the parts of OpenOrbitLink whose correctness is a matter of logic: what goes
on the air, what comes back off it, who forwards what to whom, and how much airtime that may cost.
Each model follows the code's branches, constants and error cases. Code that computes a value is a
function; code that changes state step by step is a method or a class, proved against a function of
the old state. The theorems are about those functions, and hold for every input, every schedule or
every run.

`dafny verify dfyconfig.toml` checks everything.

## What is proved

**Framing.** Both CRCs are computed by their nested loops and shown equal to a bit-serial register.
That register is linear and injective, so a 16-bit burst or an odd number of flipped bits always
changes it. Its feedback element has order 32767, so up to three flipped bits do as well, for data of
up to 32767 bits; two are missed exactly when their distance is a multiple of 32767. The reflected CRC
of AX.25 is the mirror image of the other one, for every input. A packet survives its wire format up
to the documented loss, every accepted byte string re-serializes to itself, and which byte strings are
packets is said octet by octet. A detectably corrupted packet or frame is rejected. The HDLC bit
decoder gives back exactly the frames sent by the transmitter of section 3.6 of AX.25 v2.2, after any
noise, with any number of shared or repeated flags. UI frames, addresses and digipeater paths
round-trip, every callsign is read as what it says, and a frame's octets are given one by one.
`AirLink` puts the two together: bits of many frames in, the same messages out. A frame that arrives
without flags may be damaged so that it looks flagged, and is then read one byte late. For frames with
at most eight digipeaters every detectable damage is refused all the same exactly when they have
twenty bytes or more; for any number of addresses the exact condition is the length and one more test
of length and number of addresses (`Ax25Exact`).

**Routing.** The router's methods are proved against value functions. Over every run of one router:
hop counts are the forwarding lists' lengths and stay within the limit, the table's size is what the
statistics say, nothing is forwarded twice to one neighbour while held, and nothing is delivered
twice. For every strategy the history alone decides how long a bundle is held and to whom an encounter
sends it (`HeldIff`, `SendsIff`). Over every run of a network, with losses and repeated receptions,
the copies of a bundle with L copies never exceed L, and spray-and-wait makes at most 2 log L + 1
transmissions of it (the logarithm to base two, rounded up), a bound that some run reaches for every L
and hop limit. When copies held and transmissions in flight together stay within L is decided exactly,
for nodes of any configuration and for nodes that all have one.

**Airtime.** The sliding window keeps every closed hour of the full history within the limit, even
when a record is stamped later than its check, and pruning never changes a decision. A transmission
passes exactly when it fits the station's limit and its user's fair share, both counted on the full
history (`PassesIff`), and exactly when it fits what the budget announced (`RemainingIsExact`). The C
tracker's tumbling window keeps every closed hour within twice its limit, with wrapping 32-bit time,
and the factor two is reached. An exception that escapes a message ends the worker's poll at that
message and costs no safety.

**Voice.** Reassembly depends only on which chunks have been seen. The C chunker produces the Python
chunks byte for byte, and both reassemblers complete on the same datagram. Each chunk's place, marks
and frames are given, and the octets it is sent as. The ragged interleaver is a bijection that spreads
bursts over rows, one damaged byte of an FEC frame is always reported as exactly one mismatch, and for
two damaged bytes the number reported is given exactly. Concealment ends within six nested calls from
any state, and its history ring, counters and noise generator are given over every run, as is every
sample played for a lost frame.

**Security blocks.** For bundles with distinct block numbers the BPSec validator, with its loops and
dictionaries, accepts exactly what its rules say written without them, and a bundle complies with
sections 3.2 and 3.7 to 3.9 of RFC 9172 exactly when it is accepted and every BCB that targets a BIB
shares a target with it, which is the one rule the code lacks. In an accepted bundle every security
block is readable when its turn comes, on every node in the same order.

**Compression.** Thirty-one sequential replacements are undone by thirty-one others, exactly for texts
without the token characters, and leave no phrase in any text. Whatever method the compressor picks,
nothing it tried is shorter, and its bytes are what the method says.

**Store and forward.** Over every run of queueing, satellite windows and acknowledgements, delivered
bundles stay delivered and are never sent again, bundles that never expire are never removed, retry
counts are the failed sends, what is stored is always a packet that receivers accept and its band
allows, and windows respect the order of priority and age. How long a bundle of each type is stored,
and which goes first, is said without the store's own columns (`StoredIff`, `UrgentFirst`).

## Where the code differs from what is said about it

The models follow the code. These differences are theorems or witnesses below unless marked as notes.

- Copies held and transmissions in flight together may exceed L, because the transmission to the
  destination does not spend a copy. Their exact maximum for L copies and h hops is `Peak`: no run
  exceeds it (`HeldAndInFlightBound`) and some run reaches it (`PeakReached`). They stay within L in
  every network exactly for the configurations of `WithinCopies` (`NeverExceedsIff`), for more than
  four hops those with L = 8 or L >= 10; where all nodes have one hop, two copies are enough
  (`UniformNeverExceedsIff`). The defaults, four copies and five hops, reach six (`DefaultsExceed`).
  Copies and relays on the way alone always stay within L (`CopiesBound`).
- A frame built without FCS may be taken for one with FCS, or refused, if its last two bytes say so
  (`NoFcsRoundTrip` gives the exact condition).
- `next_available_in_seconds` is an instant too short: at exactly that time nothing has left the
  window (`WaitIsShort`).
- A line feed, or any other character below U+0020 except NUL, is a token of the phrase dictionary: it
  comes back as a phrase (`LineFeedBecomesFire`). Text beyond Latin-1 makes `compress` raise, even
  without a hint.
- The validator lets a BCB target a BIB with which it shares no target, against section 3.8 of RFC
  9172 (`LoneBibAccepted`; `CompliantIffAccepted` shows that this is the only rule missing). Two BIBs
  with one block number hide each other's targets from it (`SharedNumberHides`).
- Of two chunks with one number the Python buffer keeps the later and the C buffer the earlier
  (`LatestStays`, `FirstStays`).
- An expiry that comes out as 0.0 is taken for none (`HeldIff`).
- The C chunker sets LAST_CHUNK from the planned batch, so frames of different sizes can yield two
  last chunks (`LastMarkedEarly`). A chunk is marked as the last with another behind it exactly when
  the frames left are few enough for one chunk and longer than 70 bytes together (`MarkedEarlyIff`),
  and never when no frame is longer than the first (`OnlyFinalMarked`). Both reassemblers take a
  message received in order for complete at its first mark (`CompleteFromFirstMark`), so they lose
  what is behind an early one, and never complete a message that the chunker cut at 128 chunks before
  setting one (`UnmarkedNeverComplete`). Voice messages of more than 65536 chunks alias on the wire
  (`WireKeepsChunks`).
- Equal damage to two bytes of one parity column cancels (`DoubleDamage`). Interleaving puts two such
  bytes side by side for the data lengths 2, 5, 7 to 14, 17, 18 and 22 to 24, and for no other the
  encoder takes (`NeighboursCollideIff`); without it that happens for the lengths 4k + 1
  (`PlainNeighboursCollideIff`).
- A frame of 18 or 19 bytes received without flags can be damaged in an odd number of bits so that it
  decodes: its first and last byte are taken for flags, and what is left is too short for an FCS check
  (`ShortOddDecodes`). For a longer frame every odd damage is refused (`OddDamageRefusedIff`). Of all
  two flips only those can pass that turn a first byte 7 into a flag and clear the low bit of the
  control byte, and they do so for some frame exactly where `TwoFlipsPass` says, a matter of length
  and number of addresses that never holds with eight digipeaters or fewer (`AllRefusedIff`,
  `EightDigipeaters`).
- Neural repair, meant to fall back on repetition, ends in comfort noise at once and counts six losses
  for the first lost frame of a burst; one loss before two good frames switches interpolation off for
  good (`CountersOverRuns`, `NeuralRepairIsNoise`).
- An exception before the worker's try block, or in its handler's commit, leaves the other messages of
  the poll untried (`EscapeIsLast`).
- Bundles are never marked failed or expired, and the retry limit is never consulted (`RunKeeps` shows
  the states that occur).
- Notes: the bit decoder does no NRZI decoding, though its docstring says so. Both FEC classes are XOR
  parity: they detect and do not correct. VOICE_CHUNK and VOICE_META bundles are queued with text
  priority and a day to live, not with voice priority. The reassembler of the C code takes the number
  of chunks from the last chunk, not from the first.

## Model

| member | source | states |
|---|---|---|
| Crc.Crc16Ccitt | protocol/packet.py:244-257 | the nested loops compute the byte-wise polynomial remainder from 0xFFFF |
| Crc.RegisterIsBitRegister | protocol/packet.py:244-257 | the byte-wise register equals a bit-serial one fed with the bits, most significant first, for every start and data |
| Crc.RegisterConcat | protocol/packet.py:244-257 | feeding a concatenation is feeding one part after the other |
| Crc.Residue | protocol/packet.py:150-152 | feeding two bytes clears the register exactly when they are its own value, high byte first |
| CrcDetection.RegisterOfDiff | protocol/packet.py:244-257 | linearity: the XOR of two registers is the register of the difference of the data |
| CrcDetection.BurstDetected | protocol/packet.py:244-257 | different data of equal length whose differences lie within 16 consecutive bits have different CRCs, at any length |
| CrcDetection.OddDetected | protocol/packet.py:244-257 | so do data that differ in an odd number of bits |
| CrcOrder.Power32767 | protocol/packet.py:244-257 | shifting 1 through the polynomial 32767 times gives 1 back |
| CrcOrder.NoShortPeriod | protocol/packet.py:244-257 | and no smaller positive number of shifts does |
| CrcOrder.UpToThreeFlipsDetected | protocol/packet.py:244-257 | data of up to 32767 bits that differ in one to three bits have different CRCs |
| CrcOrder.TwoFlipsMissedIff | protocol/packet.py:244-257 | two flipped bits leave the CRC as it is exactly when their distance is a multiple of 32767 |
| CheckValues.CcittOfDigits | protocol/packet.py:244-257 | the CRC of the ASCII digits 1 to 9 is 0x29B1, the check value of this CRC |
| FrameCheck.Crc16X25 | protocol/bpv7.py:133-143 | the reflected loops compute the reflected remainder, complemented |
| FrameCheck.MirrorImage | protocol/bpv7.py:133-143 | crc16_x25 of any data is the bit reversal of crc16_ccitt of the byte-wise bit-reversed data, complemented |
| CheckValues.X25OfDigits | protocol/bpv7.py:133-143 | crc16_x25 of the ASCII digits 1 to 9 is 0x906E, its check value |
| FrameCheck.GoodFrameResidue | protocol/aprs.py:79-81 | any body followed by its FCS, sent least significant bit first, leaves the same constant in the register |
| FrameCheck.CorruptFrameHasBadFcs | protocol/aprs.py:145-153 | a 16-bit burst in transmission order, an odd number of flips, or up to three flips in 32767 bits always spoil the FCS, also across the boundary to it |
| XorParity.ComputeParity | protocol/packet.py:273-280 | accumulating in place gives each parity byte the XOR of its column |
| XorParity.ParityBit | protocol/packet.py:273-280 | a parity bit is set exactly when an odd number of the bytes of its column have it set |
| XorParity.ColumnXor | native/src/codec2_fec.c:84-90 | a difference in one byte shows in its own column's parity, and in no other |
| XorParity.SingleByteErrorCountsOne | protocol/packet.py:282-292 | one corrupted data byte is counted as exactly one mismatch |
| XorParity.MismatchesCount | protocol/packet.py:282-292 | the mismatches reported are the number of places where received and expected parity differ |
| Packet.RoundTrip | protocol/packet.py:123-205 | a serializable packet deserializes to itself, less its sequence number, its timestamp's high bits and the FEC's length |
| Packet.Canonical | protocol/packet.py:155-205 | an accepted byte string re-serializes to itself exactly where the band's policy allows the packet, and is refused by policy elsewhere |
| Packet.CorruptionRejected | protocol/packet.py:148-167 | every detectable corruption of a serialized packet, of the same length, is rejected by deserialize: a 16-bit burst, an odd number of flips, or up to three |
| Packet.PacketsAreShort | protocol/packet.py:132-153 | every serialized packet is within the 32767 bits for which three flips are noticed |
| PacketOctets.ReadIff | protocol/packet.py:155-205 | a byte string is read as a packet exactly when it holds it: every field at its place, most significant octet first, and a CRC that clears the register |
| PacketOctets.SentHolds | protocol/packet.py:123-153 | what is sent holds the packet so, its time cut to 32 bits and its parity cut or filled with zeros to 32 octets |
| PacketOctets.SendableIff | protocol/packet.py:123-213 | a packet is serialized exactly when its fields fit, its band is neither unknown nor receive-only, and it is not encrypted on an amateur band |
| PacketOctets.ParsedIff | protocol/packet.py:386-397 | the parser lets a packet pass exactly when it is held and at most 16 of its 32 parity octets are not those of its payload |
| Packet.OpenOrbitLinkProtocol.BuildPacket | protocol/packet.py:361-384 | the counter goes up by one whatever happens, and the packet carries it unless the policy refuses |
| Packet.BuiltPacketsParse | protocol/packet.py:361-397 | built packets serialize exactly when the payload fits and the policy allows, and then parse to what was built |
| Hdlc.AX25Decoder.DecodeFrame | dsp/flowgraphs/iss_aprs_decode.py:55-89 | appends the frames that the bit-step machine emits, and nothing else |
| Hdlc.PackBits | dsp/flowgraphs/iss_aprs_decode.py:91-99 | whole groups of eight bits become bytes, least significant bit first; a remainder is dropped |
| Hdlc.BytesBack | dsp/flowgraphs/iss_aprs_decode.py:91-99 | a frame's bits with fewer than eight more after them pack to the frame |
| Hdlc.Unstuffed | dsp/flowgraphs/iss_aprs_decode.py:62-89 | inside a frame, stuffed data of any content is collected unstuffed, with no frame emitted |
| Hdlc.Transparency | dsp/flowgraphs/iss_aprs_decode.py:55-99 | any list of frames, sent with stuffing and one or more flags before, between and after, comes out in order; those under 14 bytes are dropped and nothing is added |
| Hdlc.Resynchronisation | dsp/flowgraphs/iss_aprs_decode.py:55-99 | the same after any preceding noise, once a flag has been seen |
| Hdlc.Abort | dsp/flowgraphs/iss_aprs_decode.py:80-85 | seven or more ones and a zero leave the frame, from any state |
| Hdlc.NoFrameWithoutFlags | dsp/flowgraphs/iss_aprs_decode.py:55-89 | whatever the bits, frames come out only where there are two flags, and have fourteen octets or more |
| Ax25.ParsedIsCanonical | protocol/aprs.py:186-191 | a parsed callsign with SSID up to 15 is one to six capitals or digits, not repeated |
| Callsigns.SpeltIsParsed | protocol/aprs.py:186-191 | one to six letters or digits, alone or with a hyphen and the one or two digits of n, within any blanks, are read as the name in capitals and SSID 0 or n |
| Callsigns.ParsedIsSpelt | protocol/aprs.py:186-191 | and whatever is read is of this form |
| Callsigns.ParsedIff | protocol/aprs.py:186-191 | so exactly these strings are read, and all others are invalid callsigns |
| Ax25.AddressRoundTrip | protocol/aprs.py:84-108 | encoding a canonical address and decoding it gives the address and the last-address bit back |
| Ax25Octets.AddressOctets | protocol/aprs.py:84-95 | an encoded address is its characters times two, blanks behind them, and 0x60 plus twice the SSID plus 0x80 if repeated plus 1 if last |
| Ax25Fields.DecodedSays | protocol/aprs.py:98-108 | every seven octets are read as what they say: the characters without blanks around them and the bits of the last octet; they are refused only where they hold blanks alone |
| Ax25.PathRoundTrip | protocol/aprs.py:161-170 | the last-address bit ends the address loop at the right place, for any number of addresses and any bytes after them |
| Ax25.BodyRoundTrip | protocol/aprs.py:138-183 | a body of canonical addresses and any information parses to exactly those |
| Ax25.ParseCallsigns | protocol/aprs.py:186-191 | all callsigns parsed, or the first one's error |
| Ax25.BuildUiFrame | protocol/aprs.py:111-135 | the extending byte buffer is the frame, or the first error |
| Ax25Octets.FrameOctets | protocol/aprs.py:111-135 | a built frame is the destination, the source and the digipeaters at seven octets each, the last bit in the final one alone, 3, 240, the information and the FCS low octet first, within flags if wanted |
| Ax25.DecodeUiFrame | protocol/aprs.py:138-183 | flag stripping, FCS check and parsing in their order, every error included |
| Ax25.DecodeFields | protocol/aprs.py:155-183 | the two addresses, the digipeater loop, control and PID |
| Ax25Fields.ParsedIff | protocol/aprs.py:154-183 | whoever built it, a frame's body is accepted exactly when it is a destination, a source and digipeaters up to the only last-address bit, each as its octets say, 3, 240 and the information |
| Ax25.DecodeDigipeaters | protocol/aprs.py:161-170 | the loop reads the path and leaves exactly what follows it |
| Ax25.FrameRoundTrip | protocol/aprs.py:111-183 | every frame built with FCS, with or without flags, decodes to its addresses in order, its information and a valid FCS |
| Ax25.NoFcsRoundTrip | protocol/aprs.py:145-153 | a frame built without FCS decodes to itself exactly when its last two bytes are not taken for a good FCS, nor checked and found bad |
| Ax25.DamagedFrameRejected | protocol/aprs.py:145-153 | every detectable corruption of what lies between the flags fails with the FCS error |
| LateRead.LateReadRejected | protocol/aprs.py:138-183 | a frame that damage makes look flagged is read one byte late and refused, with or without FCS validation, while its address marks are intact and its PID has not become a control byte |
| Ax25Damage.OddDamageRefusedIff | protocol/aprs.py:138-183 | a frame built with FCS and received without flags: every odd damage is refused exactly when it has twenty bytes, that is a digipeater or two bytes of information |
| Ax25Damage.ShortOddDecodes | protocol/aprs.py:138-183 | every shorter frame can be damaged in an odd number of bits so that it decodes |
| Ax25TwoFlips.DamagedUnflaggedRejected | protocol/aprs.py:138-183 | such a frame never decodes after a burst, one or three flips, any odd number from twenty bytes on, or two flips other than those of first byte and control bit |
| Ax25TwoFlips.TwoFlipsHitControl | protocol/aprs.py:138-183 | two flips that make a frame look flagged and decode turn its first byte 7 into a flag and clear the low bit of its control byte |
| LateFcs.LateFcsIff | protocol/aprs.py:145-153 | whether the FCS passes after those two flips depends on length and number of addresses alone, by one equation |
| FcsSteering.EndsWithFlag | protocol/aprs.py:79-81 | for any body two bytes anywhere in it can be chosen so that its last FCS byte is a flag |
| Ax25LateWitness.TwoFlipsDecode | protocol/aprs.py:111-183 | wherever the equation holds and nine bytes of information fit, some frame decodes after two flips |
| Ax25Exact.AllRefusedIff | protocol/aprs.py:111-183 | for every length and number of addresses: all detectable damage of all such frames is refused exactly from twenty bytes on and where the equation does not hold within 4095 bytes |
| LateFcsLengths.TenAddressesNeverPass | protocol/aprs.py:145-153 | with two to ten addresses the equation holds for no length up to 4095 bytes |
| Ax25Exact.EightDigipeaters | protocol/aprs.py:111-183 | so with at most eight digipeaters all detectable damage is refused exactly from twenty bytes on |
| AirLink.MessagesArrive | dsp/flowgraphs/iss_aprs_decode.py:55-99 | messages built as UI frames, sent bit by bit after any noise, are all decoded to what was sent |
| DtnRouter.DTNRouter.Originate | protocol/dtn_routing.py:127-164 | the whole router state after originating a bundle |
| DtnRouter.DTNRouter.OnReceive | protocol/dtn_routing.py:166-210 | a bundle is new exactly when neither delivered nor held, and the whole state after it |
| DtnRouter.DTNRouter.OnEncounter | protocol/dtn_routing.py:251-308 | exactly the selected bundles are listed, once each, most urgent first, and the whole state after it |
| DtnRouter.DTNRouter.Visit | protocol/dtn_routing.py:277-300 | one entry's fate: dropped, forwarded with its copies halved, or left |
| DtnRouter.DTNRouter.PruneExpired | protocol/dtn_routing.py:310-316 | exactly the expired entries go, and are counted |
| DtnRouter.SortByPriority | protocol/dtn_routing.py:302-308 | a permutation, most urgent first |
| RouterRuns.InvariantStep | protocol/dtn_routing.py:127-316 | every operation keeps hop counts equal to forwarding lists and within the limit, and the table's size equal to originated + received - delivered - dropped |
| RouterRuns.InvariantRun | protocol/dtn_routing.py:127-316 | so does every run with fresh originated identifiers |
| RouterRuns.NeverTwice | protocol/dtn_routing.py:223-249 | a bundle forwarded to a neighbour is not forwarded to it again while held |
| RouterRuns.DeliveredAtMostOnce | protocol/dtn_routing.py:166-210 | on any run a bundle is delivered at most once, and is known as delivered exactly if it was |
| ForwardingHistory.HeldIff | protocol/dtn_routing.py:56-60 | over every run, a bundle put in at t is held exactly until an encounter or a pruning after t + bundle_ttl; a ttl of zero or less, or an expiry that comes out as 0.0, never ends |
| ForwardingHistory.SendsIff | protocol/dtn_routing.py:212-300 | for every strategy, run and encounter: the bundle is sent exactly when it is held and alive, the neighbour neither has it, gave it nor got it before, hops are left, and it is the destination, or epidemic, or sprayed while the copies exceed two to the number of sendings |
| ForwardingHistory.PriorityStays | protocol/dtn_routing.py:127-206 | while held it keeps the priority, size and destination it was originated with, or priority 2 if received |
| ForwardingHistory.StatisticsOverRuns | protocol/dtn_routing.py:111-120 | every statistic is the number of calls, sendings or repeated receptions it stands for |
| ForwardingHistory.NeighborsOverRuns | protocol/dtn_routing.py:267-272 | a neighbour is known exactly when met, with the number of meetings and the time of the last |
| SprayNetwork.StepPays | protocol/dtn_routing.py:178-300 | every network step pays for its transmissions of a bundle out of a potential that never grows |
| SprayNetwork.RunPays | protocol/dtn_routing.py:178-300 | so does every run, whatever is lost, received again or expired |
| SprayNetwork.CopiesBound | protocol/dtn_routing.py:146-300 | copies held plus copies on the way to relays of a bundle originated with L copies never exceed L |
| SprayNetwork.SendBound | protocol/dtn_routing.py:146-300 | it is sent at most 2 log L + 1 times in the whole run, and at most twice for every hop it may make |
| SprayNetwork.SprayBound | protocol/dtn_routing.py:146-300 | in particular at most 2L - 1 times |
| SprayNetwork.HeldAndInFlightBound | protocol/dtn_routing.py:146-300 | copies held plus all transmissions in flight never exceed the peak for its copies and hops |
| SprayNetwork.PeakWithinCopies | protocol/dtn_routing.py:146-155 | the peak is within the copies exactly for the configurations listed |
| SprayWitness.PeakReached | protocol/dtn_routing.py:146-300 | for every number of copies and hop limit some run reaches the peak |
| SprayWitness.SendBoundReached | protocol/dtn_routing.py:146-300 | and some run makes all the sends that the bound allows |
| SprayWitness.NeverExceedsIff | protocol/dtn_routing.py:146-300 | in every network and run copies held and transmissions in flight stay within the copies given, exactly for the configurations listed |
| SprayWitness.DefaultsExceed | protocol/dtn_routing.py:88-118 | with four copies and five hops a run comes to six |
| SprayUniform.UniformNeverExceedsIff | protocol/dtn_routing.py:146-300 | the same in networks whose nodes all have one configuration, where for one hop two copies are enough |
| DutyCycle.DutyCycleTracker.PruneExpired | backend/rate_limiter.py:72-76 | the records not older than the window remain, in order |
| DutyCycle.DutyCycleTracker.CanTransmit | backend/rate_limiter.py:105-127 | allowed exactly when both the global limit and the user's share hold on the pruned records |
| DutyCycle.DutyCycleTracker.RecordTransmission | backend/rate_limiter.py:129-144 | appends one record, pruning nothing |
| DutyCycle.DutyCycleTracker.GetBudget | backend/rate_limiter.py:146-173 | the whole budget, every field, and the pruned records |
| DutyCycle.TransmitQueue.TransmitMessage | backend/tx_queue.py:101-168 | deferred, sent, failed or ended by an escaping exception, with the records, counters and last time that follow, wherever an exception strikes |
| DutyCycle.TransmitQueue.ProcessPending | backend/tx_queue.py:85-99 | messages are tried in turn until one lets an exception escape; records, counters and whether one did |
| DutyCycle.TransmitQueue.Poll | backend/tx_queue.py:75-83 | an escaped exception is counted once and the rest waits |
| DutyCycle.EscapeIsLast | backend/tx_queue.py:98-99 | a poll ends early exactly behind the first message whose exception escapes |
| DutyCycle.KeptKept | backend/rate_limiter.py:72-76 | pruning earlier never changes what pruning later keeps |
| DutyCycle.UsedKept | backend/rate_limiter.py:78-82 | the sum over the pruned records is the airtime of the history since the window began |
| DutyCycle.RecordIsSafe | backend/rate_limiter.py:105-144 | a transmission that passed its check fits into every closed hour it can fall in, however late it is stamped |
| DutyCycle.RunIsSafe | backend/tx_queue.py:101-135 | with one worker and a monotone clock, after any run of attempts and queries, every closed hour of the full history is within the limit, and pruned and full records agree for every later time |
| FairShare.PassesIff | backend/rate_limiter.py:84-127 | on every run an attempt passes exactly when its airtime, with that of the hour before the check, is within the limit and, with the user's own, within an equal share among those who transmitted in that hour or the minimum; the outcome follows from that and the exceptions |
| FairShare.RecordedIff | backend/rate_limiter.py:129-144 | what enters the history is exactly what fits so and is not interrupted before its record |
| DutyCycle.WaitIsShort | backend/rate_limiter.py:159-163 | records leave the window strictly after the announced wait; at its end the answer is still no |
| FairShare.RemainingIsExact | backend/rate_limiter.py:146-173 | an attempt passes exactly when its airtime is within the remaining seconds announced |
| FairShare.BudgetOverRuns | backend/rate_limiter.py:146-173 | the other fields of the budget: the user's airtime in the hour, the smaller of share and limit, the window, and no wait where something remains |
| AirtimeTracker.OolDutyCycleTracker.CanTransmit | native/include/airtime_calculator.h:183-196 | rolls the window if it is over, and answers from what is then used |
| AirtimeTracker.OolDutyCycleTracker.RecordTx | native/include/airtime_calculator.h:201-207 | charges the window, the last time and the count |
| AirtimeTracker.OolDutyCycleTracker.Transmit | native/include/airtime_calculator.h:183-207 | check and record at one time, as a gate |
| AirtimeTracker.ElapsedIsShort | native/include/airtime_calculator.h:187 | wrapped 32-bit subtraction never exceeds the true distance |
| AirtimeTracker.ElapsedIs | native/include/airtime_calculator.h:182-195 | it is the true distance less whole turns of 2^32 seconds |
| AirtimeTracker.AtMostTwice | native/include/airtime_calculator.h:162-206 | gated and monotone, any closed span as long as the window carries at most twice the limit, at any offset and across wrap-around |
| AirtimeTracker.TwiceIsReached | native/include/airtime_calculator.h:162-206 | two seconds that carry exactly twice the limit |
| AirtimeTracker.LetThroughIff | native/include/airtime_calculator.h:182-206 | on every run the window moves exactly to a request an hour or more after its start, and a request passes exactly when it fits the limit with what was sent in its window |
| AirtimeTracker.StatisticsOverRuns | native/include/airtime_calculator.h:198-206 | the count is the number of transmissions and the last epoch that of the last one |
| Voice.WireRoundTrip | protocol/voice_transport.py:111-146 | deserializing a serialized chunk gives it back with its numbers cut to 32 and 16 bits and no frame count |
| Voice.WireCanonical | protocol/voice_transport.py:121-146 | every accepted byte string is the serialization of what it is read as |
| VoiceOctets.ReadIff | protocol/voice_transport.py:121-146 | a byte string is read as a chunk exactly when it holds it: VM, message, sequence, flags, codec and payload at their places, most significant octet first |
| VoiceOctets.SentHolds | protocol/voice_transport.py:111-119 | what is sent holds the chunk so, its numbers cut to 32 and 16 bits |
| Voice.ChunkVoiceMessage | protocol/voice_transport.py:210-282 | the loop cuts the frames into the batches of the codec's size, with metadata, and refuses only an empty message |
| Voice.PayloadsJoin | protocol/voice_transport.py:245-269 | the payloads of all chunks joined are the frames joined |
| ChunkShapes.ChunkShape | protocol/voice_transport.py:241-266 | each chunk has its place, is marked first and last exactly where it is, and all but the last hold the most frames that fit 70 bytes, without a gap |
| ChunkShapes.MostThatFit | protocol/voice_transport.py:198-203 | frames_per_chunk is the most frames that fit 70 bytes |
| ChunkShapes.FramesAreWholeBytes | protocol/voice_transport.py:53-63 | for every mode the frame size is what its bit rate makes in its frame time, in whole bytes |
| Voice.ChunkFits | protocol/voice_transport.py:111-119 | with frames of the codec's size no serialized chunk exceeds 80 bytes |
| VoiceReassembly.VoiceReassemblyBuffer.AddChunk | protocol/voice_transport.py:302-321 | the whole buffer after a chunk, and completeness only for its own message |
| VoiceReassembly.HoldsPayloads | protocol/voice_transport.py:353-374 | complete or not, the payloads run to the highest chunk seen, with gaps exactly where one is missing |
| VoiceReassembly.Confluence | protocol/voice_transport.py:302-374 | for any order, duplicates, losses and foreign chunks: complete exactly when all chunks were seen, missing exactly the unseen ones once the last is known, and then the payloads are the frames |
| Receptions.LatestStays | protocol/voice_transport.py:291-317 | for any arrivals: of chunks with one number the latest stays, as do the latest mark, mode and time; the first arrival gives the first time |
| Receptions.FirstStays | native/include/voice_chunker.h:214-224 | in the C buffer the first of datagrams with one number stays |
| Receptions.NewGivesTimes | native/include/voice_chunker.h:214-224 | there the last datagram with a new number gives mode and last time, and the first taken the first time |
| VoiceReassembly.AcrossTheWire | protocol/voice_transport.py:111-374 | the same from raw datagrams amid any other traffic, for up to 65536 chunks |
| VoiceReassembly.WireKeepsChunks | protocol/voice_transport.py:111-146 | all of a message's chunks survive the wire exactly when there are at most 65536 |
| NativeVoice.OolVoiceChunk.Pack | native/include/audio_frame.h:114-150 | header and as many leading frames as fit in 80 bytes, written in place |
| NativeVoice.OolVoiceChunk.WriteHeader | native/include/audio_frame.h:124-134 | the ten shifted and masked bytes are the big-endian header |
| NativeVoice.ChunkVoiceMessage | native/include/voice_chunker.h:69-171 | succeeds exactly when the first frame's size fits a chunk, with the next 32-bit identifier, chunks, totals, duration and airtime |
| NativeVoice.NothingSkipped | native/include/voice_chunker.h:127-155 | for frames of any sizes: no chunk exceeds 80 bytes and the payloads are the frames in order; it stops only at 128 chunks or a frame over 70 bytes |
| NativeVoice.RefinesPython | native/include/voice_chunker.h:109-171 | for frames of one size the packed chunks are the Python chunks byte for byte: all of them up to 128, else the first 128 |
| NativeVoice.SameDuration | native/include/voice_chunker.h:158-165 | both report the same frame duration for every codec |
| NativeVoice.TotalBytesAre | native/include/voice_chunker.h:146-165 | the total is ten bytes for each chunk and the payloads |
| NativeVoice.SameIdIff | native/include/voice_chunker.h:69-72 | two messages get the same number exactly when a multiple of 2^32 messages lies between them |
| NativeMarks.LastMarkedEarly | native/include/voice_chunker.h:137-153 | four frames of unequal sizes that give two chunks both marked as last |
| NativeMarks.MarkedEarlyIff | native/include/voice_chunker.h:127-155 | for every frame list: a chunk is marked as last with another behind it exactly when the frames left fit the count but not the bytes of one chunk, and a next chunk can be made |
| NativeMarks.OnlyFinalMarked | native/include/voice_chunker.h:127-155 | where no frame is longer than the first, the chunk marked is the final one and no other, and it ends the message unless 128 chunks are made before |
| NativeReassembly.OolReassemblyBuffer.AddChunk | native/include/voice_chunker.h:192-237 | the whole buffer after a datagram, and the answer, refusals included |
| NativeReassembly.NativeReceiveHolds | native/include/voice_chunker.h:192-237 | for any datagrams the buffer holds the payloads seen, counts each once, and is complete exactly when all are there |
| NativeReassembly.CompleteTogether | native/include/voice_chunker.h:192-237 | fed the same datagrams, the C and the Python buffer hold the same payloads and complete on the same one |
| NativeDelivery.CompleteFromFirstMark | native/include/voice_chunker.h:127-237 | in order and without loss, a message of any frames is complete from its first marked chunk on, in the C reassembler and in the Python one |
| NativeDelivery.UnmarkedNeverComplete | native/include/voice_chunker.h:192-237 | in any order and with any losses, a message none of whose chunks is marked is never complete |
| Interleaver.InterleaveBytes | native/src/codec2_fec.c:41-57 | the nested loops write the column-wise reading of the ragged matrix, and nothing beyond the length |
| Interleaver.DeinterleaveBytes | native/src/codec2_fec.c:62-76 | the nested loops put every byte back to its row and column |
| Interleaver.RoundTrip | native/src/codec2_fec.c:41-76 | the two are inverse both ways, for every length and row count |
| Interleaver.BurstSpread | native/src/codec2_fec.c:36-57 | output bytes less than a full column apart come from different rows, at original positions at least a row less one apart |
| Interleaver.SourceAfter | native/src/codec2_fec.c:41-57 | which two positions are sent one after the other |
| FecFrame.Encode | native/src/codec2_fec.c:114-137 | accepts one to 24 bytes, and writes data and parity, interleaved on demand |
| FecFrame.Decode | native/src/codec2_fec.c:152-185 | refuses only frames that are too short; returns the data and the number of mismatches |
| FecFrame.CleanRoundTrip | native/src/codec2_fec.c:114-185 | decoding an encoded frame returns the input with no error, with and without interleaving |
| FecFrame.SingleDamageCountsOne | native/src/codec2_fec.c:152-185 | one damaged byte anywhere in a received frame is reported as exactly one mismatch |
| FecFrame.DoubleDamage | native/src/codec2_fec.c:114-185 | any two damaged bytes: two mismatches from two parity columns, else one, or none exactly if damaged alike, and then the data is wrong |
| FecFrame.NeighboursCollideIff | native/src/codec2_fec.c:41-185 | interleaved, some two neighbours share a parity column exactly for the data lengths not listed as safe |
| FecFrame.PlainNeighboursCollideIff | native/src/codec2_fec.c:114-185 | and without interleaving exactly for lengths one above a multiple of four |
| Concealment.OolPlcState.GoodFrame | native/include/packet_loss_recovery.h:94-114 | the whole state after a good frame; an empty one changes nothing |
| Concealment.OolPlcState.ConcealFrame | native/include/packet_loss_recovery.h:124-221 | terminates by recursion from every state; the whole state after it, the noise generator's included, the samples written, and no others |
| Concealment.OolPlcState.FillNoise | native/include/packet_loss_recovery.h:194-209 | sample by sample the generator moves on, and stays where the frame ends |
| Noise.NeverDry | native/include/packet_loss_recovery.h:201-206 | the generator is never at zero unless it starts there |
| Noise.NeverMeet | native/include/packet_loss_recovery.h:201-206 | different states stay different: each of the three shifts can be undone |
| Noise.FirstState | native/include/packet_loss_recovery.h:201-206 | the first state after the seed 0xACE1 is 0xA60C43CF, and its low half makes the first sample |
| Concealment.Calls | native/include/packet_loss_recovery.h:124-217 | the number of nested calls, which is what the loss counters grow by, is between one and six |
| Concealment.FallsBack | native/include/packet_loss_recovery.h:186-216 | a call that recurses has the effect of its bookkeeping and then the inner call |
| ConcealmentRuns.RingHoldsLastFrames | native/include/packet_loss_recovery.h:94-114 | after any run the ring holds the last four good frames, or all of them if fewer, in order |
| ConcealmentRuns.CountersOverRuns | native/include/packet_loss_recovery.h:94-221 | after any run: one concealed frame per lost frame, the exact excess of the loss counters by strategy, and the strategy then preferred |
| ConcealmentRuns.NeuralRepairIsNoise | native/include/packet_loss_recovery.h:194-216 | under neural repair every lost frame, after any run, comes out as comfort noise and takes the generator up where the one before it left it |
| ConcealedSamples.LostSample | native/include/packet_loss_recovery.h:124-224 | for the other strategies, on every run and for every sample: five losses in a row are met by the last frame decayed by 0.85 once more each time, by the line through the last two, or by silence, and from the sixth that is counted on by noise of the last frame's energy |
| ConcealedSamples.KeptSamples | native/include/packet_loss_recovery.h:94-102 | of a good frame the first 960 samples are kept |
| ConcealedSamples.GeneratorOverRuns | native/include/packet_loss_recovery.h:201-208 | the generator goes on by one step for each sample of noise and for nothing else |
| ConcealmentRuns.SameLength | native/include/packet_loss_recovery.h:132-133 | every concealed frame has the configured number of samples |
| Bpsec.AsbAcceptedIffValid | security/bpsec.py:92-109 | the ordered checks pass exactly for distinct non-negative targets, a known scheme, parameters announced exactly if present and one result list per target |
| Bpsec.AsbErrorMeans | security/bpsec.py:92-109 | each error names what is wrong with the block |
| Bpsec.ValidateSecurityBlocks | security/bpsec.py:175-241 | accepts exactly when every check on the dictionaries holds, and otherwise names something that is so |
| Bpsec.CollectTargets | security/bpsec.py:187-208 | the first loop and its dictionaries |
| Bpsec.AddOperations | security/bpsec.py:200-204 | stops exactly at an operation seen before, and adds all of them otherwise |
| Bpsec.CheckTargets | security/bpsec.py:210-227 | the second and third loop |
| Bpsec.CheckOverlaps | security/bpsec.py:229-241 | the nested loops over BCBs and BIBs that share targets |
| BpsecRules.AcceptedIffChecked | security/bpsec.py:175-241 | for bundles with distinct block numbers: accepted exactly when the rules the code has hold, stated block by block |
| BpsecRules.BundleFlags | protocol/bpv7.py:469-487 | bit 0 of the flags makes a fragment; version 7 is demanded, and of anonymous bundles that bits 14 and 16 to 18, the reports, are clear |
| BpsecRules.BlockFlags | security/bpsec.py:219-228 | bit 0 of a block's flags replicates it, bit 4 makes it discardable |
| BpsecRules.BandsForEncryption | security/__init__.py:96-134 | only amateur, unknown and receive-only bands forbid encryption, and only the last two sending |
| BpsecRules.CompliantIffAccepted | security/bpsec.py:175-241 | such a bundle satisfies sections 3.2 and 3.7 to 3.9 of RFC 9172 and the band policy exactly when it is accepted and every BCB that targets a BIB shares a target with it |
| BpsecRules.LoneBibAccepted | security/bpsec.py:229-241 | a bundle that section 3.8 of RFC 9172 forbids and that is accepted |
| BpsecRules.SharedNumberHides | security/bpsec.py:205-241 | a bundle with a repeated block number that is accepted against those rules |
| BpsecOrder.SecurityProcessingOrder | security/bpsec.py:244-259 | the sorted security blocks of an accepted bundle, or the validator's error |
| BpsecOrder.OrderFacts | security/bpsec.py:244-259 | a permutation of the security blocks, BCBs first and by number |
| BpsecOrder.ReadableInTurn | security/bpsec.py:244-259 | in an accepted bundle no security block is reached while encrypted, and no BIB while a target of it is |
| BpsecOrder.NeverHalfEncrypted | security/bpsec.py:229-241 | whichever BCBs are pending, one encrypted target of a BIB means all of them and the BIB itself are |
| BpsecOrder.SameOrderEverywhere | security/bpsec.py:244-259 | the order does not depend on the order of the blocks in the bundle |
| PhraseDictionary.OrderIsStableSort | backend/turbo_compression.py:230-232 | phrases are replaced in the stable order of decreasing length |
| PhraseDictionary.SqueezeText | backend/turbo_compression.py:226-234 | the loop of 31 replacements |
| PhraseDictionary.UnsqueezeText | backend/turbo_compression.py:236-241 | the loop of 31 expansions |
| PhraseDictionary.SqueezedKeepsExpansion | backend/turbo_compression.py:226-234 | no replacement changes what the text expands to, overlapping phrases included |
| PhraseDictionary.UnsqueezedIsExpanded | backend/turbo_compression.py:236-241 | sequential expansion spells out every token independently |
| PhraseDictionary.RoundTrip | backend/turbo_compression.py:226-241 | decompressing the compressed text gives it back exactly when it has none of U+0001 to U+001F |
| PhraseDictionary.SqueezedKeepsWide | backend/turbo_compression.py:226-234 | the result is never longer and keeps or lacks characters beyond Latin-1 as the text does |
| SqueezedPhrases.NoPhraseLeft | backend/turbo_compression.py:226-234 | for every text no phrase is left anywhere in the result |
| SqueezedPhrases.ShorterIff | backend/turbo_compression.py:226-234 | the result is shorter exactly when the text holds a phrase, and the text itself otherwise |
| SqueezedPhrases.PhraseIsOneToken | backend/turbo_compression.py:226-234 | each phrase alone becomes its own token, also where it holds a shorter phrase |
| TurboCompression.DictionaryRoundTrip | backend/turbo_compression.py:226-241 | in bytes: fails exactly on characters beyond Latin-1, never lengthens, round-trips exactly without token characters |
| TurboCompression.LineFeedBecomesFire | backend/turbo_compression.py:51 | a line feed comes back as FIRE |
| TurboCompression.Smallest | backend/turbo_compression.py:196 | the first of the smallest candidates |
| TurboCompression.TurboCompressor.Compress | backend/turbo_compression.py:127-208 | fails exactly when the dictionary is used and cannot encode; otherwise picks the smallest candidate and updates the statistics |
| TurboCompression.CompressRoundTrip | backend/turbo_compression.py:127-224 | the result is never longer than the data, and GPS packing apart decompresses to it exactly when it is not a dictionary result for text with token characters |
| CompressionChoice.NothingIsSmaller | backend/turbo_compression.py:127-196 | the result is no longer than the data, the deflated data, for text the squeezed text and for hinted text its deflation, and for positions the packed ones; other bytes than the data only where they are fewer |
| CompressionChoice.MethodMeans | backend/turbo_compression.py:127-196 | the bytes are what the method says, and each method is used only for what it is meant for |
| CompressionChoice.PhraseCostsOneByte | backend/turbo_compression.py:226-234 | a phrase hinted as text comes out as one byte at most |
| TurboCompression.PacketRoundTrip | backend/turbo_compression.py:98-112 | the packet survives its wire format exactly when its size fits 16 bits, and what is read re-serializes to itself |
| CompressionChoice.ReadIff | backend/turbo_compression.py:98-112 | bytes are read as a packet exactly when they hold its method, its size in two octets and its data |
| DtnStore.BundleStore.UpdateState | protocol/dtn.py:172-185 | one row's state, with retry count and time on demand; an unknown identifier changes nothing |
| DtnStore.BundleStore.CleanupExpired | protocol/dtn.py:187-197 | exactly the expired, undelivered bundles go, and are counted |
| DtnStore.BundleStore.GetPending | protocol/dtn.py:159-170 | the most urgent pending bundles, each once, in order of priority and age, at most the limit |
| DtnEngine.DTNEngine.QueueMessage | protocol/dtn.py:237-256 | refused by policy with nothing changed, failed in serialization with the number used up, or a fresh identifier and a queued row of its type's priority and expiry |
| DtnEngine.DTNEngine.Transmit | protocol/dtn.py:353-377 | one round: awaiting an acknowledgement on success, queued with one more retry on failure or exception |
| DtnEngine.DTNEngine.TransmissionWindow | protocol/dtn.py:335-382 | clean-up, then a prefix of the pending list, each bundle by its own round, until the time is up |
| DtnEngine.DTNEngine.ReceiveAck | protocol/dtn.py:384-386 | the bundle becomes delivered |
| DtnEngine.SweptAt | protocol/dtn.py:348-377 | each bundle tried changes by its own round, the others not at all |
| DtnEngine.MostUrgentFirst | protocol/dtn.py:159-170 | a pending bundle ahead of one that was tried was tried as well |
| BundleRuns.WindowAt | protocol/dtn.py:335-382 | a window removes a bundle exactly when it is expired and undelivered; another is unchanged or, if pending, keeps its expiry and gains its failures as retries |
| BundleRuns.StepKeeps | protocol/dtn.py:159-197 | every event keeps the invariant, the delivered bundles with their number of sends, and the bundles that never expire |
| BundleRuns.RunKeeps | protocol/dtn.py:57-386 | so does every run: nothing left transmitting, retries are the failed sends, delivered is for ever and never sent again, and every stored bundle is a packet receivers accept and its band allows |
| BundleRuns.SendsAre | protocol/dtn.py:353-377 | the sends counted are the rounds in which the bundle was handed to the transmitter |
| BundleRuns.SosStays | protocol/dtn.py:57-69 | an SOS bundle queued at any point is never removed |
| BundleLives.StoredIff | protocol/dtn.py:184-197 | a queued bundle is stored at the end of a run exactly when no window cleaned up after the end of its type's time without its acknowledgement before |
| BundleLives.UrgentFirst | protocol/dtn.py:57-80 | in every reachable store, before a bundle is tried every undelivered one of an earlier type was, SOS first and beacons last, and every older one of the same rank |
| BundleLives.TriedBundle | protocol/dtn.py:353-377 | a tried bundle awaits its acknowledgement if there is no transmitter or it accepts, and is queued with one more retry otherwise |
| BundleLives.TransmittedCount | protocol/dtn.py:343-382 | the number reported is that of the rounds without a transmitter or with its acceptance |
| BundleLives.NumbersUsed | protocol/dtn.py:237-256 | the counter goes up by one for each packet its band's policy allows, serialized or not, and for nothing else |

## Left out

- Radio and user interface: GNU Radio flow graphs, NRZI, modems, Android, HTTP routes, gRPC and database schemas.
- Clocks are parameters, one reading per call where the code reads the clock several times within one call; a `now` of exactly 0.0, which Python takes for no argument, is an ordinary time here.
- Floating-point rounding: seconds, gains and budgets are reals.
- Dictionary insertion order among equals in `on_encounter`, and sharing of the entry object that `originate` returns with its caller.
- relay_copy, the coercion of band names, license lookups and statistics dictionaries: easy members.
- Python's Unicode rules in callsigns: digits, blanks and capitals are those of ASCII, with the other blanks that `strip` removes from ASCII text.
- zlib, UTF-8, the GPS packer and the tests for printable and GPS-like text are parameters; of zlib and UTF-8 only that they undo themselves is assumed, and only where a lemma says so.
- CBOR encoding, ciphers and MACs, the compact bundle form without CBOR, and the constructor defaults of security blocks: bundles and blocks are taken as parsed.
- PCM arithmetic and frame energies are uninterpreted functions; the noise generator's runs are those of one concealment state, although all states share it.
- SQLite and asyncio: the bundle store is a map, ties in priority and age come in any order, and acknowledgements arrive between windows.
- Message rows, their statuses and the transmission log of the server's queue: only what touches the duty-cycle tracker is kept.
- A second engine on the same database, whose counter starts again: identifiers are fresh within one engine.
- Bpsec.CheckOverlaps: looks at blocks in their order instead of the dictionaries' items, which are the same pairs; of several errors it may name another one than the code.
- Interleaver.InterleaveBytes: has no padding loop, because the output is already full where the code has it.
- FecFrame.Decode: asks for at most 32 received bytes, the size of the code's working buffers, which the code does not check.
- AirtimeTracker.OolDutyCycleTracker.Transmit: the code has the check and the record only as two calls; the bound is for callers who make both at one time.
- Concealment.OolPlcState.ConcealFrame: the cases that write samples are a method of their own.
- DtnEngine.DTNEngine.QueueMessage: takes the packet as a value, so the band that the code writes into the caller's packet is not seen by the caller.
- DutyCycle.TransmitQueue.Poll: begins behind the query for messages, whose own failure counts one error and touches nothing else.
