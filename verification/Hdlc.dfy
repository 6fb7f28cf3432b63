/** HDLC deframing: AX25Decoder of dsp/flowgraphs/iss_aprs_decode.py, against the transmitter of section 3.6 of AX.25 v2.2. */
module Hdlc {
  import opened Bytes

  const MIN_FRAME := 14

  // ----- Bits to bytes, least significant first -----

  function LowBits(bits: seq<bool>, n: nat): byte
    requires n <= |bits| && n <= 8
  {
    if n == 0 then 0 else LowBits(bits, n - 1) | Place(bits[n - 1], n - 1)
  }

  function Place(bit: bool, n: nat): byte
    requires n < 8
  {
    (if bit then 1 else 0) << n
  }

  function BitsToBytes(bits: seq<bool>): seq<byte> {
    if |bits| < 8 then [] else [LowBits(bits, 8)] + BitsToBytes(bits[8..])
  }

  method PackBits(bits: seq<bool>) returns (result: seq<byte>)
    ensures result == BitsToBytes(bits)
  {
    result := [];
    var i := 0;
    while i < |bits| - 7
      invariant 0 <= i <= |bits|
      invariant result + BitsToBytes(bits[i..]) == BitsToBytes(bits)
    {
      var b: byte := 0;
      for j := 0 to 8
        invariant b == LowBits(bits[i..], j)
      {
        var bit: byte := if bits[i + j] then 1 else 0;
        b := b | (bit << j);
      }
      assert bits[i..][8..] == bits[i + 8..];
      result := result + [b];
      i := i + 8;
    }
  }

  // ----- The deframer -----

  /** The locals of decode_frame, and the frames appended so far. */
  datatype State = State(frameBits: seq<bool>, inFrame: bool, ones: nat, out: seq<seq<byte>>)

  const START := State([], false, 0, [])

  function Emitted(s: State): seq<seq<byte>> {
    if s.inFrame && |s.frameBits| >= 8 && |BitsToBytes(s.frameBits)| >= MIN_FRAME
    then [BitsToBytes(s.frameBits)] else []
  }

  function Collect(s: State, bit: bool): State {
    if s.inFrame then s.(frameBits := s.frameBits + [bit]) else s
  }

  function Step(s: State, bit: bool): State {
    if bit then Collect(s.(ones := s.ones + 1), bit)
    else if s.ones == 5 then s.(ones := 0)
    else if s.ones == 6 then State([], true, 0, s.out + Emitted(s))
    else if s.ones >= 7 then State([], false, 0, s.out)
    else Collect(s.(ones := 0), bit)
  }

  function Run(s: State, bits: seq<bool>): State
    decreases bits
  {
    if bits == [] then s else Run(Step(s, bits[0]), bits[1..])
  }

  class AX25Decoder {
    var packets: seq<seq<byte>>

    constructor ()
      ensures packets == []
    {
      packets := [];
    }

    method DecodeFrame(bits: seq<bool>)
      modifies this
      ensures packets == old(packets) + Run(START, bits).out
    {
      var frameBits: seq<bool> := [];
      var inFrame := false;
      var ones := 0;
      ghost var added := [];
      var i := 0;
      while i < |bits|
        invariant 0 <= i <= |bits| && 0 <= ones
        invariant Run(State(frameBits, inFrame, ones, added), bits[i..]) == Run(START, bits)
        invariant packets == old(packets) + added
      {
        var bit := bits[i];
        ghost var before := State(frameBits, inFrame, ones, added);
        assert Run(before, bits[i..]) == Run(Step(before, bit), bits[i + 1..]) by {
          assert bits[i..][1..] == bits[i + 1..];
        }
        i := i + 1;
        if bit {
          ones := ones + 1;
        } else {
          if ones == 5 {
            ones := 0;
            assert State(frameBits, inFrame, ones, added) == Step(before, bit);
            continue;
          } else if ones == 6 {
            if inFrame && |frameBits| >= 8 {
              var frame := PackBits(frameBits);
              if |frame| >= MIN_FRAME {
                packets := packets + [frame];
                added := added + [frame];
              }
            }
            frameBits := [];
            inFrame := true;
            ones := 0;
            assert added == before.out + Emitted(before);
            assert State(frameBits, inFrame, ones, added) == Step(before, bit);
            continue;
          } else if ones >= 7 {
            inFrame := false;
            frameBits := [];
            ones := 0;
            assert State(frameBits, inFrame, ones, added) == Step(before, bit);
            continue;
          }
          ones := 0;
        }
        if inFrame {
          frameBits := frameBits + [bit];
        }
        assert State(frameBits, inFrame, ones, added) == Step(before, bit);
      }
    }
  }

  // ----- The transmitter -----

  const FLAG: seq<bool> := [false, true, true, true, true, true, true, false]

  /** A zero after every five ones in a row; `run` ones have just been sent. */
  function Stuff(bits: seq<bool>, run: nat): seq<bool>
    decreases bits
  {
    if bits == [] then []
    else if !bits[0] then [false] + Stuff(bits[1..], 0)
    else if run == 4 then [true, false] + Stuff(bits[1..], 0)
    else [true] + Stuff(bits[1..], run + 1)
  }

  /** One flag, then one more for every element of `fill`; true means that it shares a zero with the flag before. */
  function Flags(fill: seq<bool>): seq<bool> {
    if fill == [] then FLAG
    else Flags(fill[..|fill| - 1]) + if fill[|fill| - 1] then FLAG[1..] else FLAG
  }

  /** Frames sent LSB first with zeros stuffed, each followed by one or more flags. */
  function Stream(frames: seq<seq<byte>>, fills: seq<seq<bool>>): seq<bool>
    requires |frames| == |fills|
  {
    if frames == [] then []
    else Stuff(AllBits(LsbBits, frames[0]), 0) + Flags(fills[0]) + Stream(frames[1..], fills[1..])
  }

  /** The receiver keeps frames of at least 14 bytes. */
  function Kept(frames: seq<seq<byte>>): seq<seq<byte>> {
    if frames == [] then []
    else (if |frames[0]| >= MIN_FRAME then [frames[0]] else []) + Kept(frames[1..])
  }

  // ----- Transparency -----

  lemma {:induction false} RunConcat(s: State, a: seq<bool>, b: seq<bool>)
    ensures Run(s, a + b) == Run(Run(s, a), b)
    decreases a
  {
    if a == [] {
      assert a + b == b;
    } else {
      assert (a + b)[1..] == a[1..] + b;
      RunConcat(Step(s, a[0]), a[1..], b);
    }
  }

  function Opened(out: seq<seq<byte>>): State { State([], true, 0, out) }

  /** The six ones of a flag. */
  lemma SixOnes(s: State)
    requires s.ones == 0
    ensures Run(s, FLAG[1..7]) ==
      s.(ones := 6, frameBits := if s.inFrame then s.frameBits + FLAG[1..7] else s.frameBits)
  {
    RunOnes(s, 6);
    assert FLAG[1..7] == seq(6, _ => true);
  }

  lemma {:induction false} RunOnes(s: State, n: nat)
    ensures Run(s, seq(n, _ => true)) ==
      s.(ones := s.ones + n, frameBits := if s.inFrame then s.frameBits + seq(n, _ => true) else s.frameBits)
    decreases n
  {
    if n > 0 {
      var all := seq(n, _ => true);
      assert all[1..] == seq(n - 1, _ => true);
      RunOnes(Step(s, true), n - 1);
      assert [true] + seq(n - 1, _ => true) == all;
    }
  }

  /** Whatever came before, a flag leaves the receiver at the start of a frame. */
  lemma AnyFlag(s: State)
    ensures var t := Step(s, false);
      Run(s, FLAG) == Opened(t.out + Emitted(t.(frameBits := if t.inFrame then t.frameBits + FLAG[1..7] else t.frameBits)))
  {
    var t := Step(s, false);
    assert FLAG[1..] == FLAG[1..7] + [false];
    SixOnes(t);
    RunConcat(t, FLAG[1..7], [false]);
    assert Run(Run(t, FLAG[1..7]), [false]) == Step(Run(t, FLAG[1..7]), false);
  }

  lemma SharedFlag(out: seq<seq<byte>>)
    ensures Run(Opened(out), FLAG[1..]) == Opened(out)
  {
    assert FLAG[1..] == FLAG[1..7] + [false];
    SixOnes(Opened(out));
    RunConcat(Opened(out), FLAG[1..7], [false]);
    var u := Run(Opened(out), FLAG[1..7]);
    assert Run(u, [false]) == Step(u, false);
    assert Emitted(u) == [];
  }

  lemma IdleFlag(out: seq<seq<byte>>)
    ensures Run(Opened(out), FLAG) == Opened(out)
  {
    AnyFlag(Opened(out));
    var t := Step(Opened(out), false);
    assert t == State([false], true, 0, out);
    assert Emitted(t.(frameBits := [false] + FLAG[1..7])) == [];
  }

  /** Idle flags produce nothing. */
  lemma {:induction false} MoreFlags(s: State, fill: seq<bool>, out: seq<seq<byte>>)
    requires Run(s, FLAG) == Opened(out)
    ensures Run(s, Flags(fill)) == Opened(out)
    decreases |fill|
  {
    if fill != [] {
      var init, last := fill[..|fill| - 1], fill[|fill| - 1];
      MoreFlags(s, init, out);
      RunConcat(s, Flags(init), if last then FLAG[1..] else FLAG);
      SharedFlag(out);
      IdleFlag(out);
    }
  }

  /** Unstuffing gives back exactly the data bits, and never sees a flag inside them. */
  lemma {:induction false} Unstuffed(s: State, bits: seq<bool>)
    requires s.inFrame && s.ones < 5
    ensures var t := Run(s, Stuff(bits, s.ones));
      t.inFrame && t.ones < 5 && t.out == s.out && t.frameBits == s.frameBits + bits
    decreases bits
  {
    if bits != [] {
      var u := DataBit(s, bits[0], Stuff(bits[1..], if bits[0] && s.ones < 4 then s.ones + 1 else 0));
      Unstuffed(u, bits[1..]);
      hide Step;
      assert (s.frameBits + [bits[0]]) + bits[1..] == s.frameBits + bits;
    }
  }

  /** One data bit, with its stuffed zero if it gets one. */
  lemma DataBit(s: State, bit: bool, rest: seq<bool>) returns (u: State)
    requires s.inFrame && s.ones < 5
    ensures u == State(s.frameBits + [bit], true, if bit && s.ones < 4 then s.ones + 1 else 0, s.out)
    ensures Run(s, (if !bit then [false] else if s.ones == 4 then [true, false] else [true]) + rest) == Run(u, rest)
  {
    if bit && s.ones == 4 {
      u := Step(Step(s, true), false);
      assert ([true, false] + rest)[1..] == [false] + rest;
      assert ([false] + rest)[1..] == rest;
    } else {
      u := Step(s, bit);
      assert ([bit] + rest)[1..] == rest;
    }
  }

  // ----- Bytes survive -----

  lemma ByteBack(b: byte)
    ensures LowBits(LsbBits(b), 8) == b
  {
    var m := LsbBits(b);
    BitsInPlace(b);
    assert Place(m[0], 0) == b & 0x01 && Place(m[1], 1) == b & 0x02 && Place(m[2], 2) == b & 0x04 && Place(m[3], 3) == b & 0x08;
    assert Place(m[4], 4) == b & 0x10 && Place(m[5], 5) == b & 0x20 && Place(m[6], 6) == b & 0x40 && Place(m[7], 7) == b & 0x80;
    hide Place, LsbBits;
    AllPlaces(b);
    UpTo4(m);
    From4(m);
    hide LowBits;
  }

  lemma LowBitsNext(m: seq<bool>, n: nat)
    requires n < |m| && n < 8
    ensures LowBits(m, n + 1) == LowBits(m, n) | Place(m[n], n)
  {
    hide Place;
  }

  lemma UpTo4(m: seq<bool>)
    requires |m| == 8
    ensures LowBits(m, 4) == ((Place(m[0], 0) | Place(m[1], 1)) | Place(m[2], 2)) | Place(m[3], 3)
  {
    assert LowBits(m, 0) == 0;
    hide Place, LowBits;
    ZeroOr(Place(m[0], 0));
    LowBitsNext(m, 0);
    LowBitsNext(m, 1);
    LowBitsNext(m, 2);
    LowBitsNext(m, 3);
  }

  lemma ZeroOr(b: byte)
    ensures 0 | b == b
  {}

  lemma From4(m: seq<bool>)
    requires |m| == 8
    ensures LowBits(m, 8) == (((LowBits(m, 4) | Place(m[4], 4)) | Place(m[5], 5)) | Place(m[6], 6)) | Place(m[7], 7)
  {
    hide Place, LowBits;
    LowBitsNext(m, 4);
    LowBitsNext(m, 5);
    LowBitsNext(m, 6);
    LowBitsNext(m, 7);
  }

  lemma BitsInPlace(b: byte)
    ensures (if b & 0x01 != 0 then 1 else 0) << 0 == b & 0x01
    ensures (if b & 0x02 != 0 then 1 else 0) << 1 == b & 0x02
    ensures (if b & 0x04 != 0 then 1 else 0) << 2 == b & 0x04
    ensures (if b & 0x08 != 0 then 1 else 0) << 3 == b & 0x08
    ensures (if b & 0x10 != 0 then 1 else 0) << 4 == b & 0x10
    ensures (if b & 0x20 != 0 then 1 else 0) << 5 == b & 0x20
    ensures (if b & 0x40 != 0 then 1 else 0) << 6 == b & 0x40
    ensures (if b & 0x80 != 0 then 1 else 0) << 7 == b & 0x80
  {}

  lemma AllPlaces(b: byte)
    ensures (((((((b & 0x01) | (b & 0x02)) | (b & 0x04)) | (b & 0x08)) | (b & 0x10)) | (b & 0x20)) | (b & 0x40)) | (b & 0x80) == b
  {}

  lemma {:induction false} LowBitsOfPrefix(a: seq<bool>, b: seq<bool>, n: nat)
    requires n <= |a| && n <= 8
    ensures LowBits(a + b, n) == LowBits(a, n)
    decreases n
  {
    if n > 0 { LowBitsOfPrefix(a, b, n - 1); }
  }

  /** The seven flag bits that reach the frame buffer never make a byte. */
  lemma {:induction false} BytesBack(frame: seq<byte>, tail: seq<bool>)
    requires |tail| < 8
    ensures BitsToBytes(AllBits(LsbBits, frame) + tail) == frame
    decreases frame
  {
    if frame == [] {
      assert AllBits(LsbBits, frame) + tail == tail;
    } else {
      var m, rest := LsbBits(frame[0]), AllBits(LsbBits, frame[1..]) + tail;
      var bits := AllBits(LsbBits, frame) + tail;
      ByteBack(frame[0]);
      assert |m| == 8;
      hide LsbBits;
      assert bits == m + rest && bits[8..] == rest;
      LowBitsOfPrefix(m, rest, 8);
      BytesBack(frame[1..], tail);
    }
  }

  /** A flag after the stuffed bits of a frame emits that frame, if it is long enough. */
  lemma FrameAndFlag(out: seq<seq<byte>>, frame: seq<byte>)
    ensures Run(Opened(out), Stuff(AllBits(LsbBits, frame), 0) + FLAG) == Opened(out + Kept([frame]))
  {
    var bits := AllBits(LsbBits, frame);
    Unstuffed(Opened(out), bits);
    RunConcat(Opened(out), Stuff(bits, 0), FLAG);
    var s := Run(Opened(out), Stuff(bits, 0));
    ClosingFlag(s, frame);
  }

  lemma ClosingFlag(s: State, frame: seq<byte>)
    requires s.inFrame && s.ones < 5 && s.frameBits == AllBits(LsbBits, frame)
    ensures Run(s, FLAG) == Opened(s.out + Kept([frame]))
  {
    hide LsbBits, AllBits, BitsToBytes, Kept, Emitted;
    var t := s.(ones := 0, frameBits := s.frameBits + [false]);
    assert Step(s, false) == t;
    AnyFlag(s);
    hide Step, Run;
    var u := t.(frameBits := t.frameBits + FLAG[1..7]);
    assert u.frameBits == AllBits(LsbBits, frame) + ([false] + FLAG[1..7]);
    EmittedFrame(u, frame, [false] + FLAG[1..7]);
  }

  lemma EmittedFrame(u: State, frame: seq<byte>, tail: seq<bool>)
    requires u.inFrame && |tail| == 7 && u.frameBits == AllBits(LsbBits, frame) + tail
    ensures Emitted(u) == Kept([frame])
  {
    BytesBack(frame, tail);
    AllBitsLength(LsbBits, frame);
    KeptOne(frame);
    hide LsbBits, AllBits, BitsToBytes, Kept;
  }

  lemma FrameAndFlags(out: seq<seq<byte>>, frame: seq<byte>, fill: seq<bool>)
    ensures Run(Opened(out), Stuff(AllBits(LsbBits, frame), 0) + Flags(fill)) == Opened(out + Kept([frame]))
  {
    hide LsbBits, Step, Flags, Stuff, Opened, Kept, AllBits;
    var bits := Stuff(AllBits(LsbBits, frame), 0);
    var s := Run(Opened(out), bits);
    FrameAndFlag(out, frame);
    RunConcat(Opened(out), bits, FLAG);
    MoreFlags(s, fill, out + Kept([frame]));
    RunConcat(Opened(out), bits, Flags(fill));
  }

  lemma {:induction false} StreamFromOpen(out: seq<seq<byte>>, frames: seq<seq<byte>>, fills: seq<seq<bool>>)
    requires |frames| == |fills|
    ensures Run(Opened(out), Stream(frames, fills)) == Opened(out + Kept(frames))
    decreases frames
  {
    hide LsbBits, Step, Flags, Stuff, Opened, AllBits;
    if frames == [] {
      assert out + Kept(frames) == out;
    } else {
      var first := Stuff(AllBits(LsbBits, frames[0]), 0) + Flags(fills[0]);
      FrameAndFlags(out, frames[0], fills[0]);
      RunConcat(Opened(out), first, Stream(frames[1..], fills[1..]));
      StreamFromOpen(out + Kept([frames[0]]), frames[1..], fills[1..]);
      KeptFirst(frames);
      assert (out + Kept([frames[0]])) + Kept(frames[1..]) == out + Kept(frames);
    }
  }

  lemma KeptFirst(frames: seq<seq<byte>>)
    requires frames != []
    ensures Kept(frames) == Kept([frames[0]]) + Kept(frames[1..])
  {
    KeptOne(frames[0]);
  }

  lemma KeptOne(frame: seq<byte>)
    ensures Kept([frame]) == if |frame| >= MIN_FRAME then [frame] else []
  {
    assert [frame][1..] == [];
  }

  /** Frames of at least 14 bytes come out exactly as they went in, in order, and nothing else does. */
  lemma Transparency(lead: seq<bool>, frames: seq<seq<byte>>, fills: seq<seq<bool>>)
    requires |frames| == |fills|
    ensures Run(START, Flags(lead) + Stream(frames, fills)).out == Kept(frames)
    ensures (forall i | 0 <= i < |frames| :: |frames[i]| >= MIN_FRAME) ==> Kept(frames) == frames
  {
    if forall i | 0 <= i < |frames| :: |frames[i]| >= MIN_FRAME { KeptAll(frames); }
    Resynchronisation([], lead, frames, fills);
    assert [] + (Flags(lead) + Stream(frames, fills)) == Flags(lead) + Stream(frames, fills);
    assert [] + FLAG == FLAG;
    AnyFlag(START);
  }

  /** One flag is enough: after any noise, all later frames are received. */
  lemma Resynchronisation(noise: seq<bool>, lead: seq<bool>, frames: seq<seq<byte>>, fills: seq<seq<bool>>)
    requires |frames| == |fills|
    ensures Run(START, noise + (Flags(lead) + Stream(frames, fills))).out ==
      Run(START, noise + FLAG).out + Kept(frames)
  {
    hide LsbBits, Step;
    var s := Run(START, noise);
    RunConcat(START, noise, Flags(lead) + Stream(frames, fills));
    RunConcat(START, noise, FLAG);
    AnyFlag(s);
    var out := Run(s, FLAG).out;
    MoreFlags(s, lead, out);
    RunConcat(s, Flags(lead), Stream(frames, fills));
    StreamFromOpen(out, frames, fills);
  }

  lemma {:induction false} KeptAll(frames: seq<seq<byte>>)
    requires forall i | 0 <= i < |frames| :: |frames[i]| >= MIN_FRAME
    ensures Kept(frames) == frames
  {
    if frames != [] { KeptAll(frames[1..]); }
  }

  /** Seven ones in a row abandon the frame, and nothing is received before the next flag. */
  lemma Abort(s: State, n: nat)
    requires n >= 7
    ensures Run(s, seq(n, _ => true) + [false]) == State([], false, 0, s.out)
  {
    var ones := seq(n, _ => true);
    RunOnes(s, n);
    RunConcat(s, ones, [false]);
    assert Run(Run(s, ones), [false]) == Step(Run(s, ones), false);
  }

  // ----- Without flags there are no frames -----

  /** Six ones and no more, and a zero: a flag, at the beginning perhaps without its first zero. */
  predicate FlagEnds(bits: seq<bool>, i: nat)
    requires i < |bits|
  {
    !bits[i] && i >= 6 && (forall k | i - 6 <= k < i :: bits[k]) && (i == 6 || !bits[i - 7])
  }

  /** The bits end in exactly so many ones. */
  predicate EndsInOnes(bits: seq<bool>, n: nat) {
    n <= |bits| && (forall k | |bits| - n <= k < |bits| :: bits[k]) && (n == |bits| || !bits[|bits| - n - 1])
  }

  predicate HasFlag(bits: seq<bool>) { exists i :: 0 <= i < |bits| && FlagEnds(bits, i) }

  predicate HasTwoFlags(bits: seq<bool>) {
    exists i, j :: 0 <= i < j < |bits| && FlagEnds(bits, i) && FlagEnds(bits, j)
  }

  /** Receiving began with a flag, and what was received ended with a later one. */
  predicate Justified(s: State, bits: seq<bool>) {
    && EndsInOnes(bits, s.ones)
    && (s.inFrame ==> HasFlag(bits))
    && (s.out != [] ==> HasTwoFlags(bits))
    && forall k | 0 <= k < |s.out| :: |s.out[k]| >= 14
  }

  lemma OnesNext(bits: seq<bool>, n: nat, bit: bool)
    requires EndsInOnes(bits, n)
    ensures EndsInOnes(bits + [bit], if bit then n + 1 else 0)
  {
    var more := bits + [bit];
    assert forall k | 0 <= k < |bits| :: more[k] == bits[k];
  }

  lemma SameFlag(bits: seq<bool>, bit: bool, i: nat)
    requires i < |bits| && FlagEnds(bits, i)
    ensures FlagEnds(bits + [bit], i)
  {
    assert forall k | 0 <= k < |bits| :: (bits + [bit])[k] == bits[k];
  }

  lemma FlagsStay(bits: seq<bool>, bit: bool)
    ensures HasFlag(bits) ==> HasFlag(bits + [bit])
    ensures HasTwoFlags(bits) ==> HasTwoFlags(bits + [bit])
  {
    if HasFlag(bits) {
      var i :| 0 <= i < |bits| && FlagEnds(bits, i);
      SameFlag(bits, bit, i);
    }
    if HasTwoFlags(bits) {
      var i, j :| 0 <= i < j < |bits| && FlagEnds(bits, i) && FlagEnds(bits, j);
      SameFlag(bits, bit, i);
      SameFlag(bits, bit, j);
    }
    hide FlagEnds;
  }

  lemma FlagNow(bits: seq<bool>)
    requires EndsInOnes(bits, 6)
    ensures HasFlag(bits + [false])
    ensures HasFlag(bits) ==> HasTwoFlags(bits + [false])
  {
    var more := bits + [false];
    assert FlagEnds(more, |bits|) by {
      assert forall k | 0 <= k < |bits| :: more[k] == bits[k];
    }
    if HasFlag(bits) {
      var i :| 0 <= i < |bits| && FlagEnds(bits, i);
      SameFlag(bits, false, i);
    }
    hide FlagEnds;
  }

  lemma StepJustified(s: State, bits: seq<bool>, bit: bool)
    requires Justified(s, bits)
    ensures Justified(Step(s, bit), bits + [bit])
  {
    hide EndsInOnes, HasFlag, HasTwoFlags, BitsToBytes;
    OnesNext(bits, s.ones, bit);
    FlagsStay(bits, bit);
    if !bit && s.ones == 6 {
      FlagNow(bits);
    }
  }

  lemma {:induction false} RunJustified(bits: seq<bool>)
    ensures Justified(Run(START, bits), bits)
    decreases bits
  {
    hide Step, Justified;
    if bits == [] {
      NothingJustified();
    } else {
      var n := |bits| - 1;
      RunJustified(bits[..n]);
      StepJustified(Run(START, bits[..n]), bits[..n], bits[n]);
      assert bits == bits[..n] + [bits[n]];
      RunConcat(START, bits[..n], [bits[n]]);
      var s := Run(START, bits[..n]);
      assert Run(s, [bits[n]]) == Run(Step(s, bits[n]), []);
    }
  }

  lemma NothingJustified()
    ensures Justified(START, [])
  {}

  /** Whatever the bits, frames come out only where there are two flags, and have fourteen octets or more. */
  lemma NoFrameWithoutFlags(bits: seq<bool>)
    ensures Run(START, bits).out != [] ==> HasTwoFlags(bits)
    ensures forall k | 0 <= k < |Run(START, bits).out| :: |Run(START, bits).out[k]| >= 14
  {
    RunJustified(bits);
    hide HasTwoFlags, EndsInOnes;
  }
}
