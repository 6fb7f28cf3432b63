/** A network of routers with messages in flight: what spray-and-wait costs in any run (protocol/dtn_routing.py). */
module SprayNetwork {
  import opened DtnRouter
  import opened Sorting

  /** A transmission on its way. */
  datatype Transmission = Transmission(id: BundleId, source: NodeId, target: NodeId, destination: NodeId)

  datatype Network = Network(nodes: seq<Router>, inFlight: seq<Transmission>)

  /** One step of the schedule; a step that is not possible changes nothing. */
  datatype Event =
    | Originate(node: nat, id: BundleId, destination: NodeId, payloadSize: int, priority: int, now: real)
    | Encounter(node: nat, neighbor: NodeId, summary: set<BundleId>, now: real, order: seq<BundleId>)
    | Deliver(transmission: nat, node: nat, now: real)
    | Lose(transmission: nat)
    | Expire(node: nat, now: real)

  ghost predicate Possible(n: Network, e: Event) {
    match e
    case Originate(i, _, _, _, _, _) => i < |n.nodes|
    case Encounter(i, neighbor, summary, now, order) =>
      i < |n.nodes| && Lists(order, Selected(n.nodes[i], neighbor, summary, now))
    case Deliver(t, i, _) => t < |n.inFlight| && i < |n.nodes| && n.nodes[i].nodeId == n.inFlight[t].target
    case Lose(t) => t < |n.inFlight|
    case Expire(i, _) => i < |n.nodes|
  }

  function Transmissions(r: Router, neighbor: NodeId, ids: seq<BundleId>): seq<Transmission> {
    if ids == [] then []
    else (if ids[0] in r.table then [Transmission(ids[0], r.nodeId, neighbor, r.table[ids[0]].destination)] else []) +
         Transmissions(r, neighbor, ids[1..])
  }

  function Without(ts: seq<Transmission>, t: nat): seq<Transmission>
    requires t < |ts|
  {
    ts[..t] + ts[t + 1..]
  }

  ghost function Apply(n: Network, e: Event): Network {
    if !Possible(n, e) then n
    else match e
      case Originate(i, id, destination, size, priority, now) =>
        n.(nodes := n.nodes[i := Originated(n.nodes[i], id, destination, size, priority, now)])
      case Encounter(i, neighbor, summary, now, order) =>
        Network(n.nodes[i := Encountered(n.nodes[i], neighbor, summary, now)],
                n.inFlight + Transmissions(n.nodes[i], neighbor, order))
      case Deliver(t, i, now) =>
        var m := n.inFlight[t];
        Network(n.nodes[i := Received(n.nodes[i], m.id, m.source, m.destination, now)], Without(n.inFlight, t))
      case Lose(t) => n.(inFlight := Without(n.inFlight, t))
      case Expire(i, now) => n.(nodes := n.nodes[i := Pruned(n.nodes[i], now)])
  }

  ghost function Run(n: Network, events: seq<Event>): Network
    decreases events
  {
    if events == [] then n else Run(Apply(n, events[0]), events[1..])
  }

  /** How many times the run sends the bundle. */
  ghost function Sends(n: Network, events: seq<Event>, id: BundleId): nat
    decreases events
  {
    if events == [] then 0 else SendsNow(n, events[0], id) + Sends(Apply(n, events[0]), events[1..], id)
  }

  ghost function SendsNow(n: Network, e: Event, id: BundleId): nat {
    if e.Encounter? && Possible(n, e) && id in e.order then 1 else 0
  }

  // ----- Copies and potential of one bundle -----

  function Spare(e: RoutingEntry): nat { if e.copies > 1 then e.copies - 1 else 0 }

  /** Copies a node holds; an entry always stands for at least one. */
  function NodeCopies(r: Router, id: BundleId): nat {
    if id in r.table then 1 + Spare(r.table[id]) else 0
  }

  /** Forwards an entry still has. */
  function HopsLeft(e: RoutingEntry): nat { if e.maxHops > e.hopCount then e.maxHops - e.hopCount else 0 }

  /**
   * Transmissions that c copies with h hops left can still cause: each spray costs the sender half its
   * copies and lets the relay pass the bundle to the destination; and the sender can do that itself once.
   */
  function SendPeak(c: int, done: bool, h: nat): nat {
    if h == 0 then 0
    else if c <= 1 then (if done then 0 else 1)
    else 2 + SendPeak(c - c / 2, done, h - 1)
  }

  /**
   * The most that c copies with h hops left can ever amount to, in copies held and transmissions in
   * flight: the copies as they are, or half of them after one more relay has its copy and sends it on.
   */
  function Peak(c: int, done: bool, h: nat): (p: nat)
    ensures p >= c && p >= 1
  {
    if c <= 1 then (if done || h == 0 then 1 else 2)
    else if h == 0 then c
    else
      var sprayed := Peak(c - c / 2, done, h - 1) + 2;
      if sprayed > c then sprayed else c
  }

  predicate Done(e: RoutingEntry) { e.destination in e.forwardedTo }

  function NodePotential(r: Router, id: BundleId): nat {
    if id in r.table then SendPeak(r.table[id].copies, Done(r.table[id]), HopsLeft(r.table[id])) else 0
  }

  function Sum(nodes: seq<Router>, weight: Router -> nat): nat {
    if nodes == [] then 0 else weight(nodes[0]) + Sum(nodes[1..], weight)
  }

  function Count(ts: seq<Transmission>, p: Transmission -> bool): nat {
    if ts == [] then 0 else (if p(ts[0]) then 1 else 0) + Count(ts[1..], p)
  }

  /** Transmissions of the bundle in flight. */
  function InFlight(ts: seq<Transmission>, id: BundleId): nat { Count(ts, (t: Transmission) => t.id == id) }

  /** Those to a node other than the destination: each can become a new copy. */
  function Relays(ts: seq<Transmission>, id: BundleId): nat {
    Count(ts, (t: Transmission) => t.id == id && t.target != t.destination)
  }

  function Copies(n: Network, id: BundleId): nat {
    Sum(n.nodes, r => NodeCopies(r, id)) + Relays(n.inFlight, id)
  }

  function Potential(n: Network, id: BundleId): nat {
    Sum(n.nodes, r => NodePotential(r, id)) + Relays(n.inFlight, id)
  }

  /** An upper bound for copies held plus transmissions in flight that no step raises. */
  function Load(n: Network, id: BundleId): nat {
    Sum(n.nodes, r => NodeLoad(r, id)) + Relays(n.inFlight, id) + InFlight(n.inFlight, id)
  }

  function NodeLoad(r: Router, id: BundleId): nat {
    if id in r.table then Peak(r.table[id].copies, Done(r.table[id]), HopsLeft(r.table[id])) else 0
  }

  predicate AllSpray(n: Network) {
    forall i | 0 <= i < |n.nodes| :: n.nodes[i].strategy == SprayAndWait
  }

  // ----- Sums -----

  lemma {:induction false} SumUpdate(nodes: seq<Router>, weight: Router -> nat, i: nat, r: Router)
    requires i < |nodes|
    ensures Sum(nodes[i := r], weight) == Sum(nodes, weight) - weight(nodes[i]) + weight(r)
    decreases i
  {
    if i > 0 {
      assert nodes[i := r][1..] == nodes[1..][i - 1 := r];
      SumUpdate(nodes[1..], weight, i - 1, r);
    }
  }

  lemma {:induction false} SumMonotone(nodes: seq<Router>, low: Router -> nat, high: Router -> nat)
    requires forall r: Router :: low(r) <= high(r)
    ensures Sum(nodes, low) <= Sum(nodes, high)
    decreases nodes
  {
    if nodes != [] { SumMonotone(nodes[1..], low, high); }
  }

  lemma {:induction false} CountConcat(a: seq<Transmission>, b: seq<Transmission>, p: Transmission -> bool)
    ensures Count(a + b, p) == Count(a, p) + Count(b, p)
    decreases a
  {
    if a == [] {
      assert a + b == b;
    } else {
      assert (a + b)[1..] == a[1..] + b;
      CountConcat(a[1..], b, p);
    }
  }

  lemma CountWithout(ts: seq<Transmission>, t: nat, p: Transmission -> bool)
    requires t < |ts|
    ensures Count(Without(ts, t), p) == Count(ts, p) - (if p(ts[t]) then 1 else 0)
  {
    assert ts == ts[..t] + ([ts[t]] + ts[t + 1..]);
    CountConcat(ts[..t], [ts[t]] + ts[t + 1..], p);
    CountConcat([ts[t]], ts[t + 1..], p);
    CountConcat(ts[..t], ts[t + 1..], p);
  }

  /** A meeting sends each bundle once at most. */
  lemma {:induction false} CountSent(r: Router, neighbor: NodeId, ids: seq<BundleId>, id: BundleId, p: Transmission -> bool)
    requires Distinct(ids) && forall t: Transmission :: p(t) ==> t.id == id
    ensures Count(Transmissions(r, neighbor, ids), p) ==
      if id in ids && id in r.table && p(Transmission(id, r.nodeId, neighbor, r.table[id].destination)) then 1 else 0
    decreases ids
  {
    if ids != [] {
      assert forall i | 0 <= i < |ids[1..]| :: ids[1..][i] == ids[i + 1] != ids[0];
      assert Distinct(ids[1..]);
      assert id in ids <==> id == ids[0] || id in ids[1..];
      CountSent(r, neighbor, ids[1..], id, p);
      if ids[0] in r.table {
        var first := Transmission(ids[0], r.nodeId, neighbor, r.table[ids[0]].destination);
        assert Transmissions(r, neighbor, ids) == [first] + Transmissions(r, neighbor, ids[1..]);
        CountConcat([first], Transmissions(r, neighbor, ids[1..]), p);
        assert [first][1..] == [];
      } else {
        assert [] + Transmissions(r, neighbor, ids[1..]) == Transmissions(r, neighbor, ids[1..]);
      }
    }
  }

  lemma FlightSent(ts: seq<Transmission>, r: Router, neighbor: NodeId, ids: seq<BundleId>, id: BundleId)
    requires Distinct(ids)
    ensures var ts' := ts + Transmissions(r, neighbor, ids);
      && InFlight(ts', id) == InFlight(ts, id) + (if id in ids && id in r.table then 1 else 0)
      && Relays(ts', id) == Relays(ts, id) + (if id in ids && id in r.table && neighbor != r.table[id].destination then 1 else 0)
  {
    var all := (t: Transmission) => t.id == id;
    var relays := (t: Transmission) => t.id == id && t.target != t.destination;
    CountSent(r, neighbor, ids, id, all);
    CountSent(r, neighbor, ids, id, relays);
    CountConcat(ts, Transmissions(r, neighbor, ids), all);
    CountConcat(ts, Transmissions(r, neighbor, ids), relays);
  }

  lemma FlightWithout(ts: seq<Transmission>, t: nat, id: BundleId)
    requires t < |ts|
    ensures InFlight(Without(ts, t), id) == InFlight(ts, id) - (if ts[t].id == id then 1 else 0)
    ensures Relays(Without(ts, t), id) ==
      Relays(ts, id) - (if ts[t].id == id && ts[t].target != ts[t].destination then 1 else 0)
  {
    CountWithout(ts, t, (t: Transmission) => t.id == id);
    CountWithout(ts, t, (t: Transmission) => t.id == id && t.target != t.destination);
  }

  // ----- One step never raises copies or potential, and pays one unit of potential per transmission -----

  lemma {:induction false} DoneIsLess(c: int, h: nat)
    ensures SendPeak(c, true, h) <= SendPeak(c, false, h) && Peak(c, true, h) <= Peak(c, false, h)
    decreases h
  {
    if h > 0 {
      DoneIsLess(c - c / 2, h - 1);
    }
  }

  /** A forward to a relay takes two from either bound, one to the destination takes one. */
  lemma ForwardPays(e: RoutingEntry, neighbor: NodeId)
    requires e.hopCount < e.maxHops && neighbor !in e.forwardedTo && (e.copies > 1 || neighbor == e.destination)
    ensures var e' := ForwardedEntry(e, SprayAndWait, neighbor);
      var cost := if neighbor == e.destination then 1 else 2;
      && 1 + Spare(e') + (if neighbor == e.destination then 0 else 1) <= 1 + Spare(e)
      && SendPeak(e'.copies, Done(e'), HopsLeft(e')) + cost <= SendPeak(e.copies, Done(e), HopsLeft(e))
      && Peak(e'.copies, Done(e'), HopsLeft(e')) + cost <= Peak(e.copies, Done(e), HopsLeft(e))
  {
    var e' := ForwardedEntry(e, SprayAndWait, neighbor);
    var h := HopsLeft(e');
    assert HopsLeft(e) == h + 1;
    assert e.copies > 1 ==> e.copies / 2 >= 1 && e'.copies == e.copies - e.copies / 2 >= 1;
    assert Done(e') <==> Done(e) || neighbor == e.destination;
    DoneIsLess(e'.copies, h);
  }

  lemma EncounterPays(r: Router, neighbor: NodeId, summary: set<BundleId>, now: real, id: BundleId)
    requires r.strategy == SprayAndWait
    ensures var r' := Encountered(r, neighbor, summary, now);
      var sent := id in Selected(r, neighbor, summary, now);
      var relay := if sent && neighbor != r.table[id].destination then 1 else 0;
      && NodeCopies(r', id) + relay <= NodeCopies(r, id)
      && NodePotential(r', id) + relay + (if sent then 1 else 0) <= NodePotential(r, id)
      && NodeLoad(r', id) + relay + (if sent then 1 else 0) <= NodeLoad(r, id)
  {
    if id in Selected(r, neighbor, summary, now) {
      ForwardPays(r.table[id], neighbor);
    }
  }

  lemma ReceiveAddsOneCopy(r: Router, m: Transmission, now: real, id: BundleId)
    requires r.nodeId == m.target
    ensures var r' := Received(r, m.id, m.source, m.destination, now);
      var relay := if m.id == id && m.target != m.destination then 1 else 0;
      && NodeCopies(r', id) <= NodeCopies(r, id) + relay && NodePotential(r', id) <= NodePotential(r, id) + relay
      && NodeLoad(r', id) <= NodeLoad(r, id) + 2 * relay
  {}

  lemma PruneDrops(r: Router, now: real, id: BundleId)
    ensures NodeCopies(Pruned(r, now), id) <= NodeCopies(r, id) && NodePotential(Pruned(r, now), id) <= NodePotential(r, id)
    ensures NodeLoad(Pruned(r, now), id) <= NodeLoad(r, id)
  {}

  lemma OtherOrigin(r: Router, e: Event, id: BundleId)
    requires e.Originate? && e.id != id
    ensures var r' := Originated(r, e.id, e.destination, e.payloadSize, e.priority, e.now);
      NodeCopies(r', id) == NodeCopies(r, id) && NodePotential(r', id) == NodePotential(r, id) && NodeLoad(r', id) == NodeLoad(r, id)
  {}

  /** The same step at the level of the network. */
  ghost predicate Pays(n: Network, n': Network, id: BundleId, sent: nat) {
    Copies(n', id) <= Copies(n, id) && Potential(n', id) + sent <= Potential(n, id) && Load(n', id) <= Load(n, id)
  }

  lemma NodeStep(n: Network, i: nat, r: Router, inFlight: seq<Transmission>, id: BundleId, sent: nat)
    requires i < |n.nodes|
    requires NodeCopies(r, id) + Relays(inFlight, id) <= NodeCopies(n.nodes[i], id) + Relays(n.inFlight, id)
    requires NodePotential(r, id) + Relays(inFlight, id) + sent <= NodePotential(n.nodes[i], id) + Relays(n.inFlight, id)
    requires NodeLoad(r, id) + Relays(inFlight, id) + InFlight(inFlight, id)
      <= NodeLoad(n.nodes[i], id) + Relays(n.inFlight, id) + InFlight(n.inFlight, id)
    ensures Pays(n, Network(n.nodes[i := r], inFlight), id, sent)
  {
    SumUpdate(n.nodes, r => NodeCopies(r, id), i, r);
    SumUpdate(n.nodes, r => NodePotential(r, id), i, r);
    SumUpdate(n.nodes, r => NodeLoad(r, id), i, r);
  }

  lemma StepPays(n: Network, e: Event, id: BundleId)
    requires AllSpray(n) && !(e.Originate? && e.id == id)
    ensures Pays(n, Apply(n, e), id, SendsNow(n, e, id)) && AllSpray(Apply(n, e))
  {
    if Possible(n, e) {
      match e
      case Originate(i, _, _, _, _, _) =>
        OtherOrigin(n.nodes[i], e, id);
        NodeStep(n, i, Apply(n, e).nodes[i], n.inFlight, id, 0);
      case Encounter(i, neighbor, summary, now, order) =>
        EncounterPays(n.nodes[i], neighbor, summary, now, id);
        FlightSent(n.inFlight, n.nodes[i], neighbor, order, id);
        NodeStep(n, i, Apply(n, e).nodes[i], Apply(n, e).inFlight, id, SendsNow(n, e, id));
      case Deliver(t, i, now) =>
        ReceiveAddsOneCopy(n.nodes[i], n.inFlight[t], now, id);
        FlightWithout(n.inFlight, t, id);
        NodeStep(n, i, Apply(n, e).nodes[i], Apply(n, e).inFlight, id, 0);
      case Lose(t) =>
        FlightWithout(n.inFlight, t, id);
      case Expire(i, now) =>
        PruneDrops(n.nodes[i], now, id);
        NodeStep(n, i, Apply(n, e).nodes[i], n.inFlight, id, 0);
    }
  }

  // ----- Whole runs -----

  ghost predicate NeverOriginates(events: seq<Event>, id: BundleId) {
    forall i | 0 <= i < |events| :: !(events[i].Originate? && events[i].id == id)
  }

  lemma {:induction false} RunPays(n: Network, events: seq<Event>, id: BundleId)
    requires AllSpray(n) && NeverOriginates(events, id)
    ensures Pays(n, Run(n, events), id, Sends(n, events, id))
    decreases events
  {
    hide Apply, SendsNow, Copies, Potential, Load, AllSpray;
    if events != [] {
      StepPays(n, events[0], id);
      assert NeverOriginates(events[1..], id);
      RunPays(Apply(n, events[0]), events[1..], id);
    }
  }

  ghost predicate Unknown(n: Network, id: BundleId) {
    (forall i | 0 <= i < |n.nodes| :: id !in n.nodes[i].table) && Relays(n.inFlight, id) == InFlight(n.inFlight, id) == 0
  }

  lemma {:induction false} SumZero(nodes: seq<Router>, weight: Router -> nat)
    requires forall i | 0 <= i < |nodes| :: weight(nodes[i]) == 0
    ensures Sum(nodes, weight) == 0
  {
    if nodes != [] {
      assert forall i | 0 <= i < |nodes[1..]| :: nodes[1..][i] == nodes[i + 1];
      SumZero(nodes[1..], weight);
    }
  }

  /** The copies a node gives a bundle of its own; one even where it is configured to give none. */
  function CopiesOf(r: Router): nat { if r.sprayCopies > 1 then r.sprayCopies else 1 }

  function HopLimit(r: Router): nat { if r.maxHops > 0 then r.maxHops else 0 }

  lemma AfterOrigin(n: Network, e: Event)
    requires AllSpray(n) && e.Originate? && e.node < |n.nodes| && Unknown(n, e.id)
    ensures var r := n.nodes[e.node];
      && Copies(Apply(n, e), e.id) == CopiesOf(r)
      && Potential(Apply(n, e), e.id) == SendPeak(CopiesOf(r), false, HopLimit(r))
      && Load(Apply(n, e), e.id) == Peak(CopiesOf(r), false, HopLimit(r))
      && AllSpray(Apply(n, e))
  {
    var id, i, r := e.id, e.node, Apply(n, e).nodes[e.node];
    SumZero(n.nodes, r => NodeCopies(r, id));
    SumZero(n.nodes, r => NodePotential(r, id));
    SumZero(n.nodes, r => NodeLoad(r, id));
    SumUpdate(n.nodes, r => NodeCopies(r, id), i, r);
    SumUpdate(n.nodes, r => NodePotential(r, id), i, r);
    SumUpdate(n.nodes, r => NodeLoad(r, id), i, r);
  }

  /** A network in which a bundle is originated once, and what happens to it then. */
  ghost predicate OneOrigin(n: Network, e: Event, events: seq<Event>) {
    && AllSpray(n) && e.Originate? && e.node < |n.nodes| && Unknown(n, e.id)
    && NeverOriginates(events, e.id)
  }

  /**
   * A bundle originated once with L copies: whatever the encounters, losses, repeated receptions and expiries,
   * the copies held plus the copies in flight to relays never exceed L.
   */
  lemma CopiesBound(n: Network, e: Event, events: seq<Event>)
    requires OneOrigin(n, e, events)
    ensures Copies(Run(Apply(n, e), events), e.id) <= CopiesOf(n.nodes[e.node])
  {
    AfterOrigin(n, e);
    hide Apply, Copies, Potential, Load, AllSpray;
    RunPays(Apply(n, e), events, e.id);
  }

  // ----- How often a bundle is sent -----

  /** The base-two logarithm of c, rounded up. */
  function Log(c: int): nat
    decreases c
  {
    if c <= 1 then 0 else 1 + Log(c - c / 2)
  }

  lemma {:induction false} SendPeakIs(c: int, h: nat)
    ensures SendPeak(c, false, h) == if h > Log(c) then 2 * Log(c) + 1 else 2 * h
    decreases h
  {
    if h > 0 && c > 1 {
      SendPeakIs(c - c / 2, h - 1);
    }
  }

  /** It is sent at most 2 log L + 1 times, and at most twice for every hop it may make. */
  lemma SendBound(n: Network, e: Event, events: seq<Event>)
    requires OneOrigin(n, e, events)
    ensures var r := n.nodes[e.node];
      Sends(Apply(n, e), events, e.id) <=
        if HopLimit(r) > Log(CopiesOf(r)) then 2 * Log(CopiesOf(r)) + 1 else 2 * HopLimit(r)
  {
    AfterOrigin(n, e);
    SendPeakIs(CopiesOf(n.nodes[e.node]), HopLimit(n.nodes[e.node]));
    hide Apply, Copies, Potential, Load, AllSpray, SendPeak;
    RunPays(Apply(n, e), events, e.id);
  }

  lemma {:induction false} LogIsSmall(c: int)
    requires c >= 1
    ensures Log(c) <= c - 1
    decreases c
  {
    if c > 1 {
      LogIsSmall(c - c / 2);
    }
  }

  /** In particular at most 2L - 1 times. */
  lemma SprayBound(n: Network, e: Event, events: seq<Event>)
    requires OneOrigin(n, e, events)
    ensures Sends(Apply(n, e), events, e.id) <= 2 * CopiesOf(n.nodes[e.node]) - 1
  {
    SendBound(n, e, events);
    LogIsSmall(CopiesOf(n.nodes[e.node]));
    hide Apply, Sends, OneOrigin;
  }

  // ----- Copies held and every transmission in flight -----

  /** Those to the destination included, which carry no copy away in the wait phase. */
  function HeldAndInFlight(n: Network, id: BundleId): nat {
    Sum(n.nodes, r => NodeCopies(r, id)) + InFlight(n.inFlight, id)
  }

  lemma HeldAndInFlightBound(n: Network, e: Event, events: seq<Event>)
    requires OneOrigin(n, e, events)
    ensures var r := n.nodes[e.node];
      HeldAndInFlight(Run(Apply(n, e), events), e.id) <= Peak(CopiesOf(r), false, HopLimit(r))
  {
    AfterOrigin(n, e);
    RunPays(Apply(n, e), events, e.id);
    var m := Run(Apply(n, e), events);
    SumMonotone(m.nodes, r => NodeCopies(r, e.id), r => NodeLoad(r, e.id));
    hide Apply;
  }

  /** The peaks of few copies: a spray pays as long as the hops last. */
  lemma PeaksTo2(h: nat)
    ensures Peak(1, false, h) == if h == 0 then 1 else 2
    ensures Peak(2, false, h) == if h == 0 then 2 else if h == 1 then 3 else 4
  {}

  lemma PeaksTo4(h: nat)
    ensures Peak(3, false, h) == if h == 0 then 3 else if h == 1 then 4 else if h == 2 then 5 else 6
    ensures Peak(4, false, h) == if h <= 1 then 4 else if h == 2 then 5 else 6
  {
    if h > 0 { PeaksTo2(h - 1); }
  }

  lemma PeaksTo8(h: nat)
    ensures Peak(5, false, h) == if h <= 1 then 5 else if h == 2 then 6 else if h == 3 then 7 else 8
    ensures Peak(6, false, h) == if h <= 2 then 6 else if h == 3 then 7 else 8
    ensures Peak(7, false, h) == if h <= 3 then 7 else 8
    ensures Peak(8, false, h) == 8
  {
    if h > 0 { PeaksTo4(h - 1); }
  }

  lemma Peak9(h: nat)
    ensures Peak(9, false, h) == if h <= 4 then 9 else 10
  {
    if h > 0 { PeaksTo8(h - 1); }
  }

  lemma MiddlePeaks(c: int, h: nat)
    requires 5 <= c <= 9
    ensures Peak(c, false, h) <= if c == 9 then 10 else 8
  {
    PeaksTo8(h);
    Peak9(h);
    hide Peak;
    assert c in {5, 6, 7, 8, 9};
  }

  lemma PeakStep(c: int, h: nat)
    requires c > 1 && h > 0
    ensures Peak(c, false, h) <= c || Peak(c, false, h) == Peak(c - c / 2, false, h - 1) + 2
  {}

  /** From ten copies on no spray pays. */
  lemma {:induction false} LargePeaks(c: int, h: nat)
    requires c >= 10
    ensures Peak(c, false, h) == c
    decreases h
  {
    if h > 0 {
      PeakStep(c, h);
      hide Peak;
      if c < 19 {
        MiddlePeaks(c - c / 2, h - 1);
      } else {
        LargePeaks(c - c / 2, h - 1);
      }
    }
  }

  /** What a caller can check on spray_copies and max_hops. */
  predicate WithinCopies(copies: nat, hops: nat) {
    || hops == 0
    || (hops == 1 && copies >= 4) || (hops == 2 && copies >= 6) || (hops == 3 && copies >= 7) || (hops == 4 && copies >= 8)
    || copies == 8 || copies >= 10
  }

  lemma PeakWithinCopies(copies: nat, hops: nat)
    requires copies >= 1
    ensures Peak(copies, false, hops) <= copies <==> WithinCopies(copies, hops)
  {
    if copies >= 10 {
      LargePeaks(copies, hops);
    } else if copies == 9 {
      Peak9(hops);
    } else if copies >= 5 {
      Peaks5To8(copies, hops);
    } else {
      Peaks1To4(copies, hops);
    }
  }

  lemma Peaks1To4(copies: nat, hops: nat)
    requires 1 <= copies <= 4
    ensures Peak(copies, false, hops) <= copies <==> WithinCopies(copies, hops)
  {
    PeaksTo2(hops);
    PeaksTo4(hops);
    hide Peak;
    assert copies == 1 || copies == 2 || copies == 3 || copies == 4;
  }

  lemma Peaks5To8(copies: nat, hops: nat)
    requires 5 <= copies <= 8
    ensures Peak(copies, false, hops) <= copies <==> WithinCopies(copies, hops)
  {
    PeaksTo8(hops);
    hide Peak;
    assert copies == 5 || copies == 6 || copies == 7 || copies == 8;
  }
}
