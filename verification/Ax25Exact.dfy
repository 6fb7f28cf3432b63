/** For which frames sent without flags every detectable damage is refused (protocol/aprs.py). */
module Ax25Exact {
  import opened Bytes
  import opened CrcDetection
  import opened CrcOrder
  import opened FlipCounts
  import opened FrameCheck
  import opened Ax25
  import opened LateRead
  import opened LateFcs
  import opened LateFcsLengths
  import opened Ax25Damage
  import opened Ax25TwoFlips
  import opened Ax25LateWitness

  datatype Inputs = Inputs(source: string, destination: string, information: seq<byte>, digipeaters: seq<string>)
  {
    /** The frame, with FCS and without flags. */
    function Frame(): Result<seq<byte>, Ax25Error> {
      Built(source, destination, information, digipeaters, false, true)
    }

    predicate Makes(n: nat, addresses: nat) {
      Frame().Success? && |Frame().value| == n && |digipeaters| + 2 == addresses
    }
  }

  ghost predicate Refuses(m: Inputs, received: seq<byte>)
    requires m.Frame().Success?
  {
    |received| == |m.Frame().value| && DetectableCorruption(LsbBits, m.Frame().value, received) ==> Decoded(received, true).Failure?
  }

  /** No detectable damage of any frame of n bytes with so many addresses decodes. */
  ghost predicate AllRefused(n: nat, addresses: nat) {
    forall m: Inputs, received: seq<byte> | m.Makes(n, addresses) :: Refuses(m, received)
  }

  /** Two flips are detectable anywhere in 32767 bits, which are 4095 bytes. */
  const MAX_DETECTABLE := 4095

  /** The two flips that a frame of this shape cannot be protected against. */
  predicate TwoFlipsPass(n: nat, addresses: nat)
    requires addresses >= 2 && n >= 7 * addresses + 4
  {
    7 * addresses + 13 <= n <= MAX_DETECTABLE && LateFcsPasses(n, 7 * addresses)
  }

  lemma TwoFlipsDetectable(sent: seq<byte>, received: seq<byte>)
    requires |sent| == |received| <= MAX_DETECTABLE && AllFlips(sent, received) == 2
    ensures DetectableCorruption(LsbBits, sent, received)
  {
    BitLengths(sent, received);
    hide LsbBits, AllFlips, BurstOf16, Ones;
    FlipsByByte(sent, received);
  }

  lemma DetectableIsShort(sent: seq<byte>, received: seq<byte>)
    requires DetectableCorruption(LsbBits, sent, received) && |sent| == |received| && AllFlips(sent, received) == 2
    ensures |sent| <= MAX_DETECTABLE || BurstOf16(AllBits(LsbBits, sent), AllBits(LsbBits, received))
  {
    BitLengths(sent, received);
    hide LsbBits, AllFlips, BurstOf16, Ones;
    FlipsByByte(sent, received);
  }

  lemma FlippedRefused(m: Inputs, n: nat, addresses: nat, received: seq<byte>)
    requires m.Makes(n, addresses) && |received| == n && DetectableCorruption(LsbBits, m.Frame().value, received)
    requires ControlFlipped(m.Frame().value, received, addresses)
    ensures n >= 7 * addresses + 4
    ensures Decoded(received, true).Success? ==> TwoFlipsPass(n, addresses)
  {
    hide Built, BodyOf, Canonical, Decoded, Fcs, LateFcsPasses, AllFlips, LsbBits, Detectable, BurstOf16, LooksFlagged, ControlFlipped;
    var a := SentFrame(m.source, m.destination, m.information, m.digipeaters);
    var body := BodyOf(a, m.information);
    FrameLength(a, m.information);
    if Decoded(received, true).Success? {
      FlippedNeeds(a, m.information, received);
      FlippedTwice(body + Fcs(body), received, addresses);
      DetectableIsShort(body + Fcs(body), received);
      FlippedLooksFlagged(body + Fcs(body), received, addresses);
      if BurstOf16(AllBits(LsbBits, body + Fcs(body)), AllBits(LsbBits, received)) {
        BurstRejected(a, m.information, Fcs(body), received, true);
        assert false;
      }
    }
  }

  lemma ShapeRefuses(m: Inputs, n: nat, addresses: nat, received: seq<byte>)
    requires addresses >= 2 && n >= 7 * addresses + 4 && n >= 20 && !TwoFlipsPass(n, addresses)
    requires m.Makes(n, addresses)
    ensures Refuses(m, received)
  {
    hide Built, Decoded, LateFcsPasses, AllFlips, LsbBits, Detectable, BurstOf16, ControlFlipped, TwoFlipsPass;
    if |received| == n && DetectableCorruption(LsbBits, m.Frame().value, received) {
      if ControlFlipped(m.Frame().value, received, addresses) {
        FlippedRefused(m, n, addresses, received);
      } else {
        DamagedUnflaggedRejected(m.source, m.destination, m.information, m.digipeaters, received);
      }
    }
  }

  lemma ShortFrame(n: nat) returns (m: Inputs)
    requires 18 <= n <= 19
    ensures m.Makes(n, 2)
  {
    hide Built, BodyOf, Fcs, Canonical;
    m := Inputs("A", "7", seq(n - 18, _ => 0), []);
    BuildsPlain("A", "7", m.information, []);
    var a := Addresses(["A", "7"] + []);
    FrameLength(a, m.information);
  }

  lemma ShortNotRefused(n: nat)
    requires 18 <= n <= 19
    ensures !AllRefused(n, 2)
  {
    hide Built, Decoded, AllFlips, LsbBits, Detectable;
    var m := ShortFrame(n);
    var received := ShortOddDecodes(m.Frame().value);
    OddIsDetectable(m.Frame().value, received);
    assert !Refuses(m, received);
  }

  lemma PassNotRefused(n: nat, addresses: nat)
    requires addresses >= 2 && n >= 7 * addresses + 4 && TwoFlipsPass(n, addresses)
    ensures !AllRefused(n, addresses)
  {
    hide Built, Decoded, AllFlips, LsbBits, Detectable, LateFcsPasses;
    var digipeaters, information, received := TwoFlipsDecode(addresses, n);
    var m := Inputs("A", "7", information, digipeaters);
    TwoFlipsDetectable(m.Frame().value, received);
    assert !Refuses(m, received);
  }

  /**
   * Every burst, odd damage and one to three flips of every frame of n bytes with so many addresses are refused, exactly
   * when it has twenty bytes or more and is not one of the shapes whose late FCS passes after two flips.
   */
  lemma AllRefusedIff(n: nat, addresses: nat)
    requires addresses >= 2 && n >= 7 * addresses + 4
    ensures AllRefused(n, addresses) <==> n >= 20 && !TwoFlipsPass(n, addresses)
  {
    hide Refuses, TwoFlipsPass, Inputs.Makes;
    if n < 20 {
      ShortNotRefused(n);
    } else if TwoFlipsPass(n, addresses) {
      PassNotRefused(n, addresses);
    } else {
      forall m: Inputs, received: seq<byte> | m.Makes(n, addresses)
        ensures m.Frame().Success? && Refuses(m, received)
      {
        MakesFrame(m, n, addresses);
        ShapeRefuses(m, n, addresses, received);
      }
    }
  }

  lemma MakesFrame(m: Inputs, n: nat, addresses: nat)
    requires m.Makes(n, addresses)
    ensures m.Frame().Success?
  {}

  /** With eight digipeaters at most, which is what AX.25 allows, the length alone decides. */
  lemma EightDigipeaters(n: nat, addresses: nat)
    requires 2 <= addresses <= 10 && n >= 7 * addresses + 4
    ensures AllRefused(n, addresses) <==> n >= 20
  {
    hide AllRefused, LateFcsPasses;
    AllRefusedIff(n, addresses);
    if n <= MAX_DETECTABLE {
      TenAddressesNeverPass(n, addresses);
    }
  }
}
