/** Spray-and-wait where all nodes have one configuration (protocol/dtn_routing.py). */
module SprayUniform {
  import opened DtnRouter
  import opened SprayNetwork
  import opened SprayWitness

  ghost predicate Uniform(n: Network, copies: int, maxHops: int) {
    forall i | 0 <= i < |n.nodes| :: n.nodes[i].sprayCopies == copies && n.nodes[i].maxHops == maxHops
  }

  /** In every network of such nodes, whatever happens to a bundle. */
  ghost predicate UniformNeverExceeds(copies: int, maxHops: int) {
    forall n: Network, e: Event, events: seq<Event> | OneOrigin(n, e, events) && Uniform(n, copies, maxHops) :: Stays(n, e, events)
  }

  // ----- One hop: a relay only waits, so a bundle in flight is worth the one copy it becomes -----

  predicate OneHop(r: Router, id: BundleId) {
    r.maxHops <= 1 && (id in r.table ==> HopsLeft(r.table[id]) <= 1)
  }

  ghost predicate AllOneHop(n: Network, id: BundleId) {
    AllSpray(n) && forall i | 0 <= i < |n.nodes| :: OneHop(n.nodes[i], id)
  }

  /** The copies held, and one more where the last of them can still go to the destination. */
  function Weight(r: Router, id: BundleId): nat {
    if id in r.table && r.table[id].copies <= 1 && HopsLeft(r.table[id]) == 1 && !Done(r.table[id]) then NodeCopies(r, id) + 1
    else NodeCopies(r, id)
  }

  function Weights(n: Network, id: BundleId): nat {
    Sum(n.nodes, r => Weight(r, id)) + InFlight(n.inFlight, id)
  }

  lemma ForwardOnce(r: Router, neighbor: NodeId, summary: set<BundleId>, now: real, id: BundleId)
    requires r.strategy == SprayAndWait && OneHop(r, id)
    ensures var r' := Encountered(r, neighbor, summary, now);
      OneHop(r', id) && Weight(r', id) + (if id in Selected(r, neighbor, summary, now) then 1 else 0) <= Weight(r, id)
  {
    if id in Selected(r, neighbor, summary, now) {
      var e := r.table[id];
      assert e.copies > 1 ==> e.copies / 2 >= 1;
    }
  }

  lemma ReceiveOnce(r: Router, m: Transmission, now: real, id: BundleId)
    requires OneHop(r, id)
    ensures var r' := Received(r, m.id, m.source, m.destination, now);
      OneHop(r', id) && Weight(r', id) <= Weight(r, id) + if m.id == id then 1 else 0
  {}

  lemma OtherOnce(r: Router, e: Event, id: BundleId)
    requires e.Originate? && e.id != id && OneHop(r, id)
    ensures var r' := Originated(r, e.id, e.destination, e.payloadSize, e.priority, e.now);
      OneHop(r', id) && Weight(r', id) == Weight(r, id)
  {}

  lemma PruneOnce(r: Router, now: real, id: BundleId)
    requires OneHop(r, id)
    ensures OneHop(Pruned(r, now), id) && Weight(Pruned(r, now), id) <= Weight(r, id)
  {}

  lemma NodeOnce(n: Network, i: nat, r: Router, inFlight: seq<Transmission>, id: BundleId)
    requires i < |n.nodes| && AllOneHop(n, id) && OneHop(r, id) && r.strategy == SprayAndWait
    requires Weight(r, id) + InFlight(inFlight, id) <= Weight(n.nodes[i], id) + InFlight(n.inFlight, id)
    ensures var n' := Network(n.nodes[i := r], inFlight); AllOneHop(n', id) && Weights(n', id) <= Weights(n, id)
  {
    hide Weight, OneHop;
    SumUpdate(n.nodes, r => Weight(r, id), i, r);
  }

  lemma StepOnce(n: Network, e: Event, id: BundleId)
    requires AllOneHop(n, id) && !(e.Originate? && e.id == id)
    ensures AllOneHop(Apply(n, e), id) && Weights(Apply(n, e), id) <= Weights(n, id)
  {
    if Possible(n, e) {
      match e
      case Originate(i, _, _, _, _, _) =>
        OtherOnce(n.nodes[i], e, id);
        NodeOnce(n, i, Apply(n, e).nodes[i], n.inFlight, id);
      case Encounter(i, neighbor, summary, now, order) =>
        ForwardOnce(n.nodes[i], neighbor, summary, now, id);
        FlightSent(n.inFlight, n.nodes[i], neighbor, order, id);
        NodeOnce(n, i, Apply(n, e).nodes[i], Apply(n, e).inFlight, id);
      case Deliver(t, i, now) =>
        ReceiveOnce(n.nodes[i], n.inFlight[t], now, id);
        FlightWithout(n.inFlight, t, id);
        NodeOnce(n, i, Apply(n, e).nodes[i], Apply(n, e).inFlight, id);
      case Lose(t) =>
        FlightWithout(n.inFlight, t, id);
      case Expire(i, now) =>
        PruneOnce(n.nodes[i], now, id);
        NodeOnce(n, i, Apply(n, e).nodes[i], n.inFlight, id);
    }
  }

  lemma {:induction false} RunOnce(n: Network, events: seq<Event>, id: BundleId)
    requires AllOneHop(n, id) && NeverOriginates(events, id)
    ensures Weights(Run(n, events), id) <= Weights(n, id)
    decreases events
  {
    hide Apply, Weights, AllOneHop;
    if events != [] {
      StepOnce(n, events[0], id);
      assert NeverOriginates(events[1..], id);
      RunOnce(Apply(n, events[0]), events[1..], id);
    }
  }

  lemma OriginOnce(n: Network, e: Event)
    requires AllSpray(n) && e.Originate? && e.node < |n.nodes| && Unknown(n, e.id)
    requires forall i | 0 <= i < |n.nodes| :: n.nodes[i].maxHops == 1
    requires n.nodes[e.node].sprayCopies >= 2
    ensures AllOneHop(Apply(n, e), e.id) && Weights(Apply(n, e), e.id) == n.nodes[e.node].sprayCopies
  {
    var id, i, r := e.id, e.node, Apply(n, e).nodes[e.node];
    SumZero(n.nodes, r => Weight(r, id));
    SumUpdate(n.nodes, r => Weight(r, id), i, r);
  }

  /** With one hop and two copies or more, nothing exceeds the copies given. */
  lemma OneHopStays(n: Network, e: Event, events: seq<Event>)
    requires OneOrigin(n, e, events) && Uniform(n, n.nodes[e.node].sprayCopies, 1) && n.nodes[e.node].sprayCopies >= 2
    ensures Stays(n, e, events)
  {
    OriginOnce(n, e);
    RunOnce(Apply(n, e), events, e.id);
    var m := Run(Apply(n, e), events);
    SumMonotone(m.nodes, r => NodeCopies(r, e.id), r => Weight(r, e.id));
    hide Apply;
  }

  // ----- The condition -----

  /** For one hop two copies are enough; otherwise as where every node may differ. */
  predicate UniformWithin(copies: nat, hops: nat) {
    if hops == 1 then copies >= 2 else WithinCopies(copies, hops)
  }

  /** A single node with one hop and one copy keeps the copy that it sends to the destination. */
  lemma LastCopyExceeds(copies: int) returns (n: Network, events: seq<Event>)
    requires copies <= 1
    ensures OneOrigin(n, Origin(), events) && Uniform(n, copies, 1) && !Stays(n, Origin(), events)
  {
    var s := Setup(copies, 1);
    n := Start(copies, 1, s, 0);
    Originates(copies, 1, s, 0);
    events := [Meeting(0, DESTINATION)];
    HandsOver(Apply(n, Origin()), s, 0, copies, 1);
    hide Apply, HeldAndInFlight, Stage;
  }

  lemma UniformNeverExceedsIff(copies: int, maxHops: int)
    ensures UniformNeverExceeds(copies, maxHops) <==>
            UniformWithin(if copies > 1 then copies else 1, if maxHops > 0 then maxHops else 0)
  {
    hide Apply, Stays, HeldAndInFlight, Peak, OneOrigin, Uniform;
    if maxHops == 1 {
      OneHopIff(copies);
    } else {
      MoreHopsIff(copies, maxHops);
    }
  }

  lemma OneHopIff(copies: int)
    ensures UniformNeverExceeds(copies, 1) <==> copies >= 2
  {
    hide Apply, Stays, HeldAndInFlight;
    if copies < 2 {
      var n, events := LastCopyExceeds(copies);
    } else {
      forall n: Network, e: Event, events: seq<Event> | OneOrigin(n, e, events) && Uniform(n, copies, 1)
        ensures Stays(n, e, events)
      {
        OneHopStays(n, e, events);
      }
    }
  }

  lemma MoreHopsIff(copies: int, maxHops: int)
    requires maxHops != 1
    ensures UniformNeverExceeds(copies, maxHops) <==>
            WithinCopies(if copies > 1 then copies else 1, if maxHops > 0 then maxHops else 0)
  {
    NeverExceedsIff(copies, maxHops);
    if maxHops >= 2 {
      var c := if copies > 1 then copies else 1;
      PeakWithinCopies(c, maxHops);
      var n, events := PeakReached(copies, maxHops, Setup(copies, maxHops));
      assert Peak(copies, false, maxHops) == Peak(c, false, maxHops);
      hide Apply, HeldAndInFlight, Peak, WithinCopies;
      assert n.nodes[0] == Fresh(ORIGIN, copies, maxHops);
      assert Uniform(n, copies, maxHops);
      if UniformNeverExceeds(copies, maxHops) {
        assert Stays(n, Origin(), events);
      }
    }
  }
}
