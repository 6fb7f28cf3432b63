/** Runs that reach the bounds of spray-and-wait, for every number of copies and every hop limit. */
module SprayWitness {
  import opened DtnRouter
  import opened SprayNetwork

  const BUNDLE: BundleId := "b"
  const ORIGIN: NodeId := "S"
  const DESTINATION: NodeId := "D"

  function Name(i: nat): NodeId { seq(i + 1, _ => 'r') }

  function Fresh(nodeId: NodeId, copies: int, maxHops: int): Router {
    Router(nodeId, SprayAndWait, copies, maxHops, 0.0, map[], map[], {}, Stats(0, 0, 0, 0, 0, 0, 0))
  }

  /** One originator, and as many relays as it may make hops. */
  function Start(copies: int, maxHops: int, s: Setup, relays: nat): Network {
    Network([Fresh(ORIGIN, copies, maxHops)] + seq(relays, i requires i >= 0 => Fresh(Name(i), s.copies, s.hops)), [])
  }

  function Origin(): Event { Originate(0, BUNDLE, DESTINATION, 0, 2, 1.0) }

  function Meeting(node: nat, neighbor: NodeId): Event { Encounter(node, neighbor, {}, 1.0, [BUNDLE]) }

  /** What all relays are configured with. */
  datatype Setup = Setup(copies: int, hops: int)

  /** The i-th node is a relay that has seen nothing, and the originator has not met it. */
  predicate Waiting(n: Network, s: Setup, i: nat)
    requires 1 <= i < |n.nodes| && BUNDLE in n.nodes[0].table
  {
    n.nodes[i] == Fresh(Name(i - 1), s.copies, s.hops) && Name(i - 1) !in n.nodes[0].table[BUNDLE].forwardedTo
  }

  /** The originator holds the bundle with c copies and h hops left; the first j relays have been served. */
  ghost predicate Stage(n: Network, s: Setup, j: nat, c: int, h: nat) {
    && j < |n.nodes| && AllSpray(n)
    && n.nodes[0].nodeId == ORIGIN && n.nodes[0].table.Keys == {BUNDLE}
    && Ready(n.nodes[0].table[BUNDLE], c, h)
    && forall i | j < i < |n.nodes| :: Waiting(n, s, i)
  }

  /** An entry that has not gone to the destination. */
  predicate Ready(e: RoutingEntry, c: int, h: nat) {
    e.destination == DESTINATION && e.copies == c && HopsLeft(e) == h && e.sourceNode == ORIGIN && e.expiresAt == 0.0
    && DESTINATION !in e.forwardedTo
  }

  // ----- One meeting, one delivery -----

  lemma OneListed()
    ensures Lists([BUNDLE], {BUNDLE})
  {}

  /** A node that holds just the bundle meets a neighbour it may be sent to. */
  lemma Meets(n: Network, i: nat, neighbor: NodeId)
    requires i < |n.nodes| && n.nodes[i].table.Keys == {BUNDLE} && n.nodes[i].strategy == SprayAndWait
    requires var e := n.nodes[i].table[BUNDLE];
      e.expiresAt == 0.0 && ShouldForward(e, SprayAndWait, neighbor, 1.0)
    ensures var r, n' := n.nodes[i], Apply(n, Meeting(i, neighbor));
      && n'.nodes == n.nodes[i := Encountered(r, neighbor, {}, 1.0)]
      && n'.nodes[i].table == map[BUNDLE := ForwardedEntry(r.table[BUNDLE], SprayAndWait, neighbor)]
      && n'.inFlight == n.inFlight + [Transmission(BUNDLE, r.nodeId, neighbor, r.table[BUNDLE].destination)]
      && HeldAndInFlight(n', BUNDLE) == HeldAndInFlight(n, BUNDLE) - NodeCopies(r, BUNDLE) + NodeCopies(n'.nodes[i], BUNDLE) + 1
      && SprayNetwork.SendsNow(n, Meeting(i, neighbor), BUNDLE) == 1
  {
    var r := n.nodes[i];
    assert Selected(r, neighbor, {}, 1.0) == {BUNDLE};
    OneListed();
    var t := Transmission(BUNDLE, r.nodeId, neighbor, r.table[BUNDLE].destination);
    assert [BUNDLE][1..] == [];
    assert Transmissions(r, neighbor, [BUNDLE]) == [t];
    assert EncounterTable(r, neighbor, {}, 1.0) == map[BUNDLE := ForwardedEntry(r.table[BUNDLE], SprayAndWait, neighbor)];
    hide Selected, EncounterTable, Expired, Lists, Met, Counted, ForwardedEntry, ShouldForward;
    SumUpdate(n.nodes, r => NodeCopies(r, BUNDLE), i, Encountered(r, neighbor, {}, 1.0));
    OneMoreInFlight(n.inFlight, t);
  }

  lemma OneMoreInFlight(ts: seq<Transmission>, t: Transmission)
    requires t.id == BUNDLE
    ensures InFlight(ts + [t], BUNDLE) == InFlight(ts, BUNDLE) + 1
  {
    CountConcat(ts, [t], (t: Transmission) => t.id == BUNDLE);
    assert [t][1..] == [];
  }

  /** The newest transmission reaches a relay that knows nothing. */
  lemma Arrives(n: Network, i: nat, s: Setup, t: Transmission)
    requires i < |n.nodes| && n.nodes[i] == Fresh(t.target, s.copies, s.hops)
    requires n.inFlight != [] && n.inFlight[|n.inFlight| - 1] == t
    requires t == Transmission(BUNDLE, ORIGIN, t.target, DESTINATION) && t.target != DESTINATION
    ensures var n' := Apply(n, Deliver(|n.inFlight| - 1, i, 1.0));
      && n'.nodes == n.nodes[i := Received(n.nodes[i], BUNDLE, ORIGIN, DESTINATION, 1.0)]
      && n'.nodes[i].table == map[BUNDLE := RoutingEntry(DESTINATION, 1, 1, s.hops, 0.0, {ORIGIN}, ORIGIN, 0, 2)]
      && n'.inFlight == n.inFlight[..|n.inFlight| - 1]
      && HeldAndInFlight(n', BUNDLE) == HeldAndInFlight(n, BUNDLE)
  {
    var last := |n.inFlight| - 1;
    assert Without(n.inFlight, last) == n.inFlight[..last];
    assert n.inFlight == n.inFlight[..last] + [t];
    SumUpdate(n.nodes, r => NodeCopies(r, BUNDLE), i, Received(n.nodes[i], BUNDLE, ORIGIN, DESTINATION, 1.0));
    OneMoreInFlight(n.inFlight[..last], t);
  }

  // ----- One relay served -----

  lemma DifferentNames(i: nat, j: nat)
    ensures Name(i) == Name(j) ==> i == j
    ensures Name(i) != ORIGIN && Name(i) != DESTINATION
  {
    assert |Name(i)| == i + 1 && |Name(j)| == j + 1 && Name(i)[0] == 'r';
  }

  /** The originator sprays to the next relay, which receives the bundle and sends it on to the destination. */
  function Round(n: Network, j: nat): seq<Event> {
    [Meeting(0, Name(j)), Deliver(|n.inFlight|, j + 1, 1.0), Meeting(j + 1, DESTINATION)]
  }

  lemma RoundServes(n: Network, s: Setup, j: nat, c: int, h: nat)
    requires Stage(n, s, j, c, h) && j + 1 < |n.nodes| && c > 1 && h > 0 && s.hops >= 2
    ensures Stage(Run(n, Round(n, j)), s, j + 1, c - c / 2, h - 1)
    ensures |Run(n, Round(n, j)).nodes| == |n.nodes|
    ensures HeldAndInFlight(Run(n, Round(n, j)), BUNDLE) == HeldAndInFlight(n, BUNDLE) - c / 2 + 2
    ensures SprayNetwork.Sends(n, Round(n, j), BUNDLE) == 2
  {
    var e := n.nodes[0].table[BUNDLE];
    var i, name := j + 1, Name(j);
    assert Waiting(n, s, i);
    DifferentNames(j, j);
    Meets(n, 0, name);
    var one := Apply(n, Meeting(0, name));
    var t := Transmission(BUNDLE, ORIGIN, name, DESTINATION);
    assert one.nodes[i] == n.nodes[i];
    Arrives(one, i, s, t);
    var two := Apply(one, Deliver(|n.inFlight|, i, 1.0));
    Meets(two, i, DESTINATION);
    var three := Apply(two, Meeting(i, DESTINATION));
    ThreeEvents(n, Meeting(0, name), Deliver(|n.inFlight|, i, 1.0), Meeting(i, DESTINATION));
    hide Apply, HeldAndInFlight, SprayNetwork.Sends, Run, Encountered, Received;
    assert three.nodes[0] == one.nodes[0];
    forall k | i < k < |three.nodes|
      ensures Waiting(three, s, k)
    {
      assert Waiting(n, s, k);
      DifferentNames(k - 1, j);
    }
  }

  lemma ThreeEvents(n: Network, a: Event, b: Event, c: Event)
    ensures var one := Apply(n, a); var two := Apply(one, b);
      && Run(n, [a, b, c]) == Apply(two, c)
      && SprayNetwork.Sends(n, [a, b, c], BUNDLE)
         == SprayNetwork.SendsNow(n, a, BUNDLE) + SprayNetwork.SendsNow(one, b, BUNDLE) + SprayNetwork.SendsNow(two, c, BUNDLE)
  {
    hide Apply, SprayNetwork.SendsNow;
    var one := Apply(n, a);
    var two := Apply(one, b);
    assert [a, b, c][1..] == [b, c] && [b, c][1..] == [c] && [c][1..] == [];
    assert Run(n, [a, b, c]) == Run(one, [b, c]) == Run(two, [c]) == Run(Apply(two, c), []);
    assert SprayNetwork.Sends(Apply(two, c), [], BUNDLE) == 0;
    assert SprayNetwork.Sends(two, [c], BUNDLE) == SprayNetwork.SendsNow(two, c, BUNDLE);
    assert SprayNetwork.Sends(one, [b, c], BUNDLE) == SprayNetwork.SendsNow(one, b, BUNDLE) + SprayNetwork.Sends(two, [c], BUNDLE);
  }

  lemma {:induction false} RunAppend(n: Network, a: seq<Event>, b: seq<Event>)
    ensures Run(n, a + b) == Run(Run(n, a), b)
    ensures SprayNetwork.Sends(n, a + b, BUNDLE) == SprayNetwork.Sends(n, a, BUNDLE) + SprayNetwork.Sends(Run(n, a), b, BUNDLE)
    decreases a
  {
    hide Apply, SprayNetwork.SendsNow;
    if a == [] {
      assert a + b == b;
    } else {
      assert (a + b)[1..] == a[1..] + b;
      RunAppend(Apply(n, a[0]), a[1..], b);
    }
  }

  /** With the last copy the originator goes to the destination itself. */
  lemma HandsOver(n: Network, s: Setup, j: nat, c: int, h: nat)
    requires Stage(n, s, j, c, h) && c <= 1 && h > 0
    ensures var events := [Meeting(0, DESTINATION)];
      && HeldAndInFlight(Run(n, events), BUNDLE) == HeldAndInFlight(n, BUNDLE) + 1
      && SprayNetwork.Sends(n, events, BUNDLE) == 1
  {
    Meets(n, 0, DESTINATION);
    var one := Apply(n, Meeting(0, DESTINATION));
    hide Apply, HeldAndInFlight, SprayNetwork.SendsNow;
    assert [Meeting(0, DESTINATION)][1..] == [];
    assert Run(n, [Meeting(0, DESTINATION)]) == Run(one, []);
    assert SprayNetwork.Sends(one, [], BUNDLE) == 0;
  }

  function AtLeastOne(c: int): int { if c > 1 then c else 1 }

  /** From any stage there is a way to the peak of held and flying copies. */
  lemma {:induction false} ClimbToPeak(n: Network, s: Setup, j: nat, c: int, h: nat) returns (events: seq<Event>)
    requires Stage(n, s, j, c, h) && j + h < |n.nodes| && s.hops >= 2
    ensures NeverOriginates(events, BUNDLE)
    ensures HeldAndInFlight(Run(n, events), BUNDLE) == HeldAndInFlight(n, BUNDLE) - AtLeastOne(c) + Peak(c, false, h)
    decreases h
  {
    hide Apply, HeldAndInFlight, Stage;
    if c <= 1 && h > 0 {
      HandsOver(n, s, j, c, h);
      events := [Meeting(0, DESTINATION)];
    } else if c > 1 && h > 0 && Peak(c - c / 2, false, h - 1) + 2 > c {
      RoundServes(n, s, j, c, h);
      var rest := ClimbToPeak(Run(n, Round(n, j)), s, j + 1, c - c / 2, h - 1);
      RunAppend(n, Round(n, j), rest);
      events := Round(n, j) + rest;
    } else {
      events := [];
      assert Run(n, []) == n;
    }
  }

  /** And one on which every send that is possible is made. */
  lemma {:induction false} SendAll(n: Network, s: Setup, j: nat, c: int, h: nat) returns (events: seq<Event>)
    requires Stage(n, s, j, c, h) && j + h < |n.nodes| && s.hops >= 2
    ensures NeverOriginates(events, BUNDLE)
    ensures SprayNetwork.Sends(n, events, BUNDLE) == SendPeak(c, false, h)
    decreases h
  {
    hide Apply, SprayNetwork.SendsNow, Stage;
    if h == 0 {
      events := [];
    } else if c <= 1 {
      HandsOver(n, s, j, c, h);
      events := [Meeting(0, DESTINATION)];
    } else {
      RoundServes(n, s, j, c, h);
      var rest := SendAll(Run(n, Round(n, j)), s, j + 1, c - c / 2, h - 1);
      RunAppend(n, Round(n, j), rest);
      events := Round(n, j) + rest;
    }
  }

  // ----- The bounds are reached -----

  lemma Originates(copies: int, maxHops: int, s: Setup, relays: nat)
    ensures var n := Start(copies, maxHops, s, relays); var n' := Apply(n, Origin());
      && OneOrigin(n, Origin(), []) && |n'.nodes| == relays + 1
      && Stage(n', s, 0, copies, if maxHops > 0 then maxHops else 0)
      && HeldAndInFlight(n', BUNDLE) == AtLeastOne(copies)
  {
    var n := Start(copies, maxHops, s, relays);
    SumZero(n.nodes, r => NodeCopies(r, BUNDLE));
    SumUpdate(n.nodes, r => NodeCopies(r, BUNDLE), 0, Originated(n.nodes[0], BUNDLE, DESTINATION, 0, 2, 1.0));
  }

  /** For every number of copies and hop limit, with relays that may make two hops or more, some run reaches the peak. */
  lemma PeakReached(copies: int, maxHops: int, s: Setup) returns (n: Network, events: seq<Event>)
    requires s.hops >= 2
    ensures n == Start(copies, maxHops, s, HopLimit(Fresh(ORIGIN, copies, maxHops))) && OneOrigin(n, Origin(), events)
    ensures HeldAndInFlight(Run(Apply(n, Origin()), events), BUNDLE) == Peak(copies, false, HopLimit(n.nodes[0]))
  {
    var relays := HopLimit(Fresh(ORIGIN, copies, maxHops));
    n := Start(copies, maxHops, s, relays);
    Originates(copies, maxHops, s, relays);
    hide Apply, HeldAndInFlight, Stage, Peak;
    events := ClimbToPeak(Apply(n, Origin()), s, 0, copies, relays);
  }

  /** And some run makes every send the bound allows. */
  lemma SendBoundReached(copies: int, maxHops: int, s: Setup) returns (n: Network, events: seq<Event>)
    requires s.hops >= 2
    ensures n == Start(copies, maxHops, s, HopLimit(Fresh(ORIGIN, copies, maxHops))) && OneOrigin(n, Origin(), events)
    ensures var h := HopLimit(n.nodes[0]);
      SprayNetwork.Sends(Apply(n, Origin()), events, BUNDLE) == if h > Log(copies) then 2 * Log(copies) + 1 else 2 * h
  {
    var relays := HopLimit(Fresh(ORIGIN, copies, maxHops));
    n := Start(copies, maxHops, s, relays);
    Originates(copies, maxHops, s, relays);
    SendPeakIs(copies, relays);
    hide Apply, HeldAndInFlight, Stage, SendPeak, SprayNetwork.Sends;
    events := SendAll(Apply(n, Origin()), s, 0, copies, relays);
  }

  // ----- When copies held and in flight never exceed the copies given -----

  ghost predicate Stays(n: Network, e: Event, events: seq<Event>)
    requires OneOrigin(n, e, events)
  {
    HeldAndInFlight(Run(Apply(n, e), events), e.id) <= CopiesOf(n.nodes[e.node])
  }

  /** In every network, whatever happens to a bundle of a node configured so. */
  ghost predicate NeverExceeds(copies: int, maxHops: int) {
    forall n: Network, e: Event, events: seq<Event> |
      OneOrigin(n, e, events) && n.nodes[e.node].sprayCopies == copies && n.nodes[e.node].maxHops == maxHops :: Stays(n, e, events)
  }

  /**
   * They never exceed the copies given exactly for some configurations, which can be checked beforehand:
   * for hop limits above four, those with eight copies or at least ten.
   */
  lemma NeverExceedsIff(copies: int, maxHops: int)
    ensures NeverExceeds(copies, maxHops) <==> WithinCopies(if copies > 1 then copies else 1, if maxHops > 0 then maxHops else 0)
  {
    var c, h := if copies > 1 then copies else 1, if maxHops > 0 then maxHops else 0;
    PeakWithinCopies(c, h);
    var n, events := PeakReached(copies, maxHops, Setup(copies, if maxHops > 2 then maxHops else 2));
    assert Peak(copies, false, h) == Peak(c, false, h);
    hide Apply, HeldAndInFlight, Peak, WithinCopies, OneOrigin;
    assert n.nodes[0] == Fresh(ORIGIN, copies, maxHops);
    if NeverExceeds(copies, maxHops) {
      assert Stays(n, Origin(), events);
    }
    forall n, e, events |
      OneOrigin(n, e, events) && n.nodes[e.node].sprayCopies == copies && n.nodes[e.node].maxHops == maxHops
      ensures HeldAndInFlight(Run(Apply(n, e), events), e.id) <= Peak(c, false, h)
    {
      HeldAndInFlightBound(n, e, events);
    }
  }

  /** The defaults, four copies and five hops, are not among them: six can be held and flying. */
  lemma DefaultsExceed() returns (n: Network, events: seq<Event>)
    ensures OneOrigin(n, Origin(), events) && forall i | 0 <= i < |n.nodes| :: n.nodes[i].sprayCopies == 4 && n.nodes[i].maxHops == 5
    ensures HeldAndInFlight(Run(Apply(n, Origin()), events), BUNDLE) == 6
  {
    hide Apply, HeldAndInFlight, OneOrigin, Start, Peak;
    PeaksTo4(5);
    n, events := PeakReached(4, 5, Setup(4, 5));
    StartIsUniform(4, 5, HopLimit(Fresh(ORIGIN, 4, 5)));
  }

  lemma StartIsUniform(copies: int, maxHops: int, relays: nat)
    ensures var nodes := Start(copies, maxHops, Setup(copies, maxHops), relays).nodes;
      |nodes| == relays + 1 && nodes[0] == Fresh(ORIGIN, copies, maxHops)
      && forall i | 0 <= i < |nodes| :: nodes[i].sprayCopies == copies && nodes[i].maxHops == maxHops
  {}
}
