/** What every sequence of calls keeps true of one router. */
module RouterRuns {
  import opened DtnRouter

  datatype Event =
    | Originate(id: BundleId, destination: NodeId, payloadSize: int, priority: int, now: real)
    | Receive(id: BundleId, source: NodeId, destination: NodeId, now: real)
    | Encounter(neighbor: NodeId, summary: set<BundleId>, now: real)
    | Prune(now: real)

  function Apply(r: Router, e: Event): Router {
    match e
    case Originate(id, destination, size, priority, now) => Originated(r, id, destination, size, priority, now)
    case Receive(id, source, destination, now) => Received(r, id, source, destination, now)
    case Encounter(neighbor, summary, now) => Encountered(r, neighbor, summary, now)
    case Prune(now) => Pruned(r, now)
  }

  function Run(r: Router, events: seq<Event>): Router
    decreases events
  {
    if events == [] then r else Run(Apply(r, events[0]), events[1..])
  }

  /** Originated identifiers are new to the table they enter. */
  ghost predicate FreshOrigins(r: Router, events: seq<Event>)
    decreases events
  {
    events == [] ||
    ((events[0].Originate? ==> events[0].id !in r.table) && FreshOrigins(Apply(r, events[0]), events[1..]))
  }

  // ----- The invariant -----

  ghost predicate GoodEntry(e: RoutingEntry, maxHops: int) {
    e.hopCount == |e.forwardedTo| <= maxHops && e.maxHops == maxHops
  }

  ghost predicate Invariant(r: Router) {
    && r.maxHops >= 1
    && (forall id | id in r.table :: GoodEntry(r.table[id], r.maxHops))
    && |r.table| == r.stats.originated + r.stats.received - r.stats.delivered - r.stats.dropped
  }

  lemma EncounterSize(r: Router, neighbor: NodeId, summary: set<BundleId>, now: real)
    ensures |EncounterTable(r, neighbor, summary, now)| == |r.table| - |Expired(r.table, now)|
    ensures |r.table - Expired(r.table, now)| == |r.table| - |Expired(r.table, now)|
  {
    hide ForwardedEntry, Sends;
    assert EncounterTable(r, neighbor, summary, now).Keys == r.table.Keys - Expired(r.table, now);
    assert (r.table - Expired(r.table, now)).Keys == r.table.Keys - Expired(r.table, now);
  }

  lemma ForwardKeepsGood(e: RoutingEntry, strategy: Strategy, id: BundleId, neighbor: NodeId, summary: set<BundleId>, now: real, maxHops: int)
    requires GoodEntry(e, maxHops) && Sends(e, strategy, id, neighbor, summary, now)
    ensures GoodEntry(ForwardedEntry(e, strategy, neighbor), maxHops)
  {}

  lemma EncounterKeepsGood(r: Router, neighbor: NodeId, summary: set<BundleId>, now: real)
    requires forall id | id in r.table :: GoodEntry(r.table[id], r.maxHops)
    ensures var t := EncounterTable(r, neighbor, summary, now); forall id | id in t :: GoodEntry(t[id], r.maxHops)
  {
    hide GoodEntry, ForwardedEntry, Sends;
    var t := EncounterTable(r, neighbor, summary, now);
    forall id | id in t
      ensures GoodEntry(t[id], r.maxHops)
    {
      if id in Selected(r, neighbor, summary, now) {
        ForwardKeepsGood(r.table[id], r.strategy, id, neighbor, summary, now, r.maxHops);
      }
    }
  }

  lemma AddedEntry(t: map<BundleId, RoutingEntry>, id: BundleId, e: RoutingEntry)
    requires id !in t
    ensures |t[id := e]| == |t| + 1
  {
    assert t[id := e].Keys == t.Keys + {id};
  }

  lemma OriginateKeeps(r: Router, id: BundleId, destination: NodeId, size: int, priority: int, now: real)
    requires Invariant(r) && id !in r.table
    ensures Invariant(Originated(r, id, destination, size, priority, now))
  {
    AddedEntry(r.table, id, Originated(r, id, destination, size, priority, now).table[id]);
  }

  lemma ReceiveKeeps(r: Router, id: BundleId, source: NodeId, destination: NodeId, now: real)
    requires Invariant(r)
    ensures Invariant(Received(r, id, source, destination, now))
  {
    var r' := Received(r, id, source, destination, now);
    if IsNew(r, id) && destination != r.nodeId { AddedEntry(r.table, id, r'.table[id]); }
  }

  lemma EncounterKeeps(r: Router, neighbor: NodeId, summary: set<BundleId>, now: real)
    requires Invariant(r)
    ensures Invariant(Encountered(r, neighbor, summary, now))
  {
    EncounterSize(r, neighbor, summary, now);
    EncounterKeepsGood(r, neighbor, summary, now);
    hide GoodEntry, EncounterTable, Expired, Selected;
  }

  lemma PruneKeeps(r: Router, now: real)
    requires Invariant(r)
    ensures Invariant(Pruned(r, now))
  {
    EncounterSize(r, "", {}, now);
    hide GoodEntry;
  }

  lemma InvariantStep(r: Router, e: Event)
    requires Invariant(r) && (e.Originate? ==> e.id !in r.table)
    ensures Invariant(Apply(r, e))
  {
    hide Invariant;
    match e
    case Originate(id, destination, size, priority, now) => OriginateKeeps(r, id, destination, size, priority, now);
    case Receive(id, source, destination, now) => ReceiveKeeps(r, id, source, destination, now);
    case Encounter(neighbor, summary, now) => EncounterKeeps(r, neighbor, summary, now);
    case Prune(now) => PruneKeeps(r, now);
  }

  /** Entry accounting and table accounting, over every run that originates only fresh identifiers. */
  lemma {:induction false} InvariantRun(r: Router, events: seq<Event>)
    requires Invariant(r) && FreshOrigins(r, events)
    ensures Invariant(Run(r, events))
    decreases events
  {
    hide Invariant, Apply;
    if events != [] {
      InvariantStep(r, events[0]);
      InvariantRun(Apply(r, events[0]), events[1..]);
    }
  }

  // ----- Never twice to the same neighbour -----

  function SentBy(r: Router, e: Event): set<BundleId> {
    if e.Encounter? then Selected(r, e.neighbor, e.summary, e.now) else {}
  }

  /** The bundle stays in the table throughout, and is not originated again. */
  ghost predicate Held(r: Router, events: seq<Event>, id: BundleId)
    decreases events
  {
    && id in r.table
    && (events == [] ||
        (!(events[0].Originate? && events[0].id == id) && Held(Apply(r, events[0]), events[1..], id)))
  }

  lemma ForwardedToGrows(r: Router, e: Event, id: BundleId, neighbor: NodeId)
    requires id in r.table && id in Apply(r, e).table && !(e.Originate? && e.id == id)
    requires neighbor in r.table[id].forwardedTo || (e.Encounter? && e.neighbor == neighbor && id in SentBy(r, e))
    ensures neighbor in Apply(r, e).table[id].forwardedTo
  {}

  lemma {:induction false} NotAgain(r: Router, events: seq<Event>, id: BundleId, neighbor: NodeId, i: nat)
    requires Held(r, events, id) && neighbor in r.table[id].forwardedTo
    requires i < |events| && events[i].Encounter? && events[i].neighbor == neighbor
    ensures id !in SentBy(Run(r, events[..i]), events[i])
    decreases events
  {
    if i == 0 {
      assert events[..0] == [];
    } else {
      ForwardedToGrows(r, events[0], id, neighbor);
      hide Apply, SentBy;
      assert events[..i][1..] == events[1..][..i - 1];
      NotAgain(Apply(r, events[0]), events[1..], id, neighbor, i - 1);
    }
  }

  /** While a bundle is held, at most one encounter with a given neighbour sends it. */
  lemma NeverTwice(r: Router, events: seq<Event>, id: BundleId, neighbor: NodeId, i: nat, j: nat)
    requires Held(r, events, id) && i < j < |events|
    requires events[i].Encounter? && events[i].neighbor == neighbor && id in SentBy(Run(r, events[..i]), events[i])
    requires events[j].Encounter? && events[j].neighbor == neighbor
    ensures id !in SentBy(Run(r, events[..j]), events[j])
  {
    hide Apply, SentBy;
    HeldAfter(r, events, id, i);
    HeldAfter(r, events, id, i + 1);
    var at := Run(r, events[..i]);
    RunSplit(r, events[..i + 1], i);
    assert events[..i + 1][..i] == events[..i] && events[..i + 1][i..] == [events[i]];
    assert Run(at, [events[i]]) == Run(Apply(at, events[i]), []);
    assert events[i..][0] == events[i] && events[i..][1..] == events[i + 1..];
    ForwardedToGrows(at, events[i], id, neighbor);
    NotAgain(Apply(at, events[i]), events[i + 1..], id, neighbor, j - i - 1);
    RunSplit(r, events[..j], i + 1);
    assert events[..j][..i + 1] == events[..i + 1] && events[..j][i + 1..] == events[i + 1..][..j - i - 1];
  }

  lemma {:induction false} RunSplit(r: Router, events: seq<Event>, n: nat)
    requires n <= |events|
    ensures Run(r, events) == Run(Run(r, events[..n]), events[n..])
    decreases n
  {
    hide Apply;
    if n == 0 {
      assert events[..0] == [] && events[0..] == events;
    } else {
      assert events[..n][1..] == events[1..][..n - 1] && events[1..][n - 1..] == events[n..];
      RunSplit(Apply(r, events[0]), events[1..], n - 1);
    }
  }

  lemma {:induction false} HeldAfter(r: Router, events: seq<Event>, id: BundleId, n: nat)
    requires Held(r, events, id) && n <= |events|
    ensures Held(Run(r, events[..n]), events[n..], id)
    decreases n
  {
    hide Apply;
    if n == 0 {
      assert events[..0] == [] && events[0..] == events;
    } else {
      assert events[..n][1..] == events[1..][..n - 1] && events[1..][n - 1..] == events[n..];
      HeldAfter(Apply(r, events[0]), events[1..], id, n - 1);
    }
  }

  // ----- Delivered at most once -----

  /** How often on_receive hands the bundle to its own node. */
  function Deliveries(r: Router, events: seq<Event>, id: BundleId): nat
    decreases events
  {
    if events == [] then 0
    else
      var e := events[0];
      (if e.Receive? && e.id == id && e.destination == r.nodeId && IsNew(r, id) then 1 else 0) +
      Deliveries(Apply(r, e), events[1..], id)
  }

  lemma DeliveredStays(r: Router, e: Event, id: BundleId)
    ensures id in Apply(r, e).delivered <==>
      id in r.delivered || (e.Receive? && e.id == id && e.destination == r.nodeId && IsNew(r, id))
    ensures Apply(r, e).nodeId == r.nodeId
  {}

  lemma {:induction false} DeliveredAtMostOnce(r: Router, events: seq<Event>, id: BundleId)
    ensures Deliveries(r, events, id) <= if id in r.delivered then 0 else 1
    ensures id in Run(r, events).delivered <==> id in r.delivered || Deliveries(r, events, id) == 1
    decreases events
  {
    if events != [] {
      DeliveredStays(r, events[0], id);
      DeliveredAtMostOnce(Apply(r, events[0]), events[1..], id);
    }
  }
}
