/** What a router holds, sends and counts, told by the history of the calls alone. */
module ForwardingHistory {
  import opened Arithmetic
  import opened DtnRouter
  import opened RouterRuns

  /** The neighbours to which a run sends the bundle, in turn. */
  function Sendings(r: Router, events: seq<Event>, id: BundleId): seq<NodeId>
    decreases events
  {
    if events == [] then []
    else (if id in SentBy(r, events[0]) then [events[0].neighbor] else []) + Sendings(Apply(r, events[0]), events[1..], id)
  }

  /** The call that puts the bundle into the table: as an originated one, or as one that is new and for another node. */
  predicate PutsIn(r: Router, e: Event, id: BundleId) {
    match e
    case Originate(x, _, _, _, _) => x == id
    case Receive(x, _, destination, _) => x == id && id !in r.table && id !in r.delivered && destination != r.nodeId
    case Encounter(_, _, _) => false
    case Prune(_) => false
  }

  predicate Untouched(events: seq<Event>, id: BundleId) {
    forall i | 0 <= i < |events| :: (events[i].Originate? || events[i].Receive?) ==> events[i].id != id
  }

  /** Encounters and prunings, which drop what has expired. */
  predicate Looks(e: Event) { e.Encounter? || e.Prune? }

  // ----- An entry and the sendings since it was put in -----

  predicate Alive(e: RoutingEntry, now: real) { e.expiresAt == 0.0 || now <= e.expiresAt }

  predicate AllAlive(e: RoutingEntry, events: seq<Event>) {
    forall i | 0 <= i < |events| && Looks(events[i]) :: Alive(e, events[i].now)
  }

  ghost predicate Traces(first: RoutingEntry, e: RoutingEntry, sent: seq<NodeId>, strategy: Strategy) {
    && e.destination == first.destination && e.maxHops == first.maxHops && e.expiresAt == first.expiresAt && e.sourceNode == first.sourceNode
    && e.priority == first.priority && e.payloadSize == first.payloadSize
    && e.hopCount == first.hopCount + |sent|
    && (forall n :: n in e.forwardedTo <==> n in first.forwardedTo || n in sent)
    && (strategy == SprayAndWait ==> forall k: nat :: e.copies > PowerOfTwo(k) <==> first.copies > PowerOfTwo(k + |sent|))
  }

  lemma HalfAndMore(copies: int, k: nat)
    ensures (if copies > 1 then copies - copies / 2 else copies) > PowerOfTwo(k) <==> copies > PowerOfTwo(k + 1)
  {
    PowerIsPositive(k);
  }

  lemma OneMoreTrace(first: RoutingEntry, e: RoutingEntry, sent: seq<NodeId>, strategy: Strategy, neighbor: NodeId)
    requires Traces(ForwardedEntry(first, strategy, neighbor), e, sent, strategy)
    ensures Traces(first, e, [neighbor] + sent, strategy)
  {
    if strategy == SprayAndWait {
      forall k: nat
        ensures e.copies > PowerOfTwo(k) <==> first.copies > PowerOfTwo(k + |[neighbor] + sent|)
      {
        HalfAndMore(first.copies, k + |sent|);
      }
    }
  }

  lemma StepAt(r: Router, e: Event, id: BundleId)
    requires Untouched([e], id)
    ensures id in Apply(r, e).table <==> id in r.table && (Looks(e) ==> Alive(r.table[id], e.now))
    ensures id in Apply(r, e).table ==>
      Apply(r, e).table[id] == if id in SentBy(r, e) then ForwardedEntry(r.table[id], r.strategy, e.neighbor) else r.table[id]
    ensures id in SentBy(r, e) ==> id in Apply(r, e).table
    ensures Apply(r, e).strategy == r.strategy
  {
    assert [e][0] == e;
    hide ForwardedEntry;
  }

  lemma {:induction false} GoneForGood(r: Router, events: seq<Event>, id: BundleId)
    requires id !in r.table && Untouched(events, id)
    ensures id !in Run(r, events).table && Sendings(r, events, id) == []
    decreases events
  {
    hide Apply, SentBy;
    if events != [] {
      assert [events[0]][0] == events[0];
      assert forall i | 0 <= i < |events[1..]| :: events[1..][i] == events[i + 1];
      StepAt(r, events[0], id);
      GoneForGood(Apply(r, events[0]), events[1..], id);
    }
  }

  lemma {:induction false} StrategyStays(r: Router, events: seq<Event>)
    ensures Run(r, events).strategy == r.strategy
    decreases events
  {
    if events != [] {
      StrategyStays(Apply(r, events[0]), events[1..]);
    }
  }

  lemma UntouchedParts(events: seq<Event>, id: BundleId)
    requires events != [] && Untouched(events, id)
    ensures Untouched([events[0]], id) && Untouched(events[1..], id)
  {
    assert [events[0]][0] == events[0];
    assert forall i | 0 <= i < |events[1..]| :: events[1..][i] == events[i + 1];
  }

  lemma AllAliveParts(e: RoutingEntry, next: RoutingEntry, events: seq<Event>)
    requires events != [] && next.expiresAt == e.expiresAt
    ensures AllAlive(e, events) <==> (Looks(events[0]) ==> Alive(e, events[0].now)) && AllAlive(next, events[1..])
  {
    hide Looks;
    forall i | 0 <= i < |events|
      ensures AllAlive(next, events[1..]) && i > 0 && Looks(events[i]) ==> Alive(e, events[i].now)
    {
      if i > 0 { assert events[1..][i - 1] == events[i]; }
    }
    assert forall i | 0 <= i < |events[1..]| :: events[1..][i] == events[i + 1];
  }

  lemma NoTrace(e: RoutingEntry, strategy: Strategy)
    ensures Traces(e, e, [], strategy)
  {}

  lemma {:induction false} EntryOverRuns(r: Router, events: seq<Event>, id: BundleId)
    requires id in r.table && Untouched(events, id)
    ensures id in Run(r, events).table <==> AllAlive(r.table[id], events)
    ensures id in Run(r, events).table ==> Traces(r.table[id], Run(r, events).table[id], Sendings(r, events, id), r.strategy)
    decreases events
  {
    NoTrace(r.table[id], r.strategy);
    hide Apply, SentBy, Alive, Traces, Looks, Untouched;
    if events != [] {
      var e, next := events[0], Apply(r, events[0]);
      UntouchedParts(events, id);
      StepAt(r, e, id);
      if id in next.table {
        EntryOverRuns(next, events[1..], id);
        AllAliveParts(r.table[id], next.table[id], events);
        if id in SentBy(r, e) && id in Run(r, events).table {
          OneMoreTrace(r.table[id], Run(r, events).table[id], Sendings(next, events[1..], id), r.strategy, e.neighbor);
        } else {
          assert [] + Sendings(next, events[1..], id) == Sendings(next, events[1..], id);
        }
      } else {
        GoneForGood(next, events[1..], id);
        AllAliveParts(r.table[id], r.table[id], events);
      }
    }
  }

  // ----- What is held, and what is sent -----

  /** An expiry that comes out as 0.0 is taken for none. */
  predicate Lasts(r: Router, since: real, now: real) {
    r.bundleTtl <= 0.0 || since + r.bundleTtl == 0.0 || now <= since + r.bundleTtl
  }

  predicate AllLast(r: Router, since: real, events: seq<Event>) {
    forall i | 0 <= i < |events| && Looks(events[i]) :: Lasts(r, since, events[i].now)
  }

  lemma PutIn(r: Router, e: Event, id: BundleId)
    requires PutsIn(r, e, id)
    ensures var start := Apply(r, e);
      && id in start.table && start.strategy == r.strategy
      && var f := start.table[id];
         && f.destination == e.destination && f.maxHops == r.maxHops
         && (forall now :: Alive(f, now) <==> Lasts(r, e.now, now))
         && f.hopCount == (if e.Originate? then 0 else 1)
         && f.sourceNode == (if e.Originate? then r.nodeId else e.source)
         && f.forwardedTo == (if e.Originate? then {} else {e.source})
         && f.priority == (if e.Originate? then e.priority else 2) && f.payloadSize == (if e.Originate? then e.payloadSize else 0)
         && f.copies == (if e.Originate? && r.strategy == SprayAndWait then r.sprayCopies else 1)
  {}

  /** A bundle is held exactly until an encounter or a pruning comes after its time. */
  lemma HeldIff(r: Router, e: Event, id: BundleId, events: seq<Event>)
    requires PutsIn(r, e, id) && Untouched(events, id)
    ensures id in Run(Apply(r, e), events).table <==> AllLast(r, e.now, events)
  {
    hide Apply, Run, Looks;
    PutIn(r, e, id);
    EntryOverRuns(Apply(r, e), events, id);
    hide Lasts, Alive;
  }

  /** And for the order of sending it has the priority it was originated with, or that of a text. */
  lemma PriorityStays(r: Router, e: Event, id: BundleId, events: seq<Event>)
    requires PutsIn(r, e, id) && Untouched(events, id)
    ensures var after := Run(Apply(r, e), events);
      id in after.table ==>
        && after.table[id].priority == (if e.Originate? then e.priority else 2)
        && after.table[id].payloadSize == (if e.Originate? then e.payloadSize else 0)
        && after.table[id].destination == e.destination
  {
    hide Apply, Run, Looks;
    PutIn(r, e, id);
    EntryOverRuns(Apply(r, e), events, id);
    hide Lasts, Alive;
  }

  /**
   * An encounter sends a bundle exactly when it is still held and alive, the neighbour neither has it nor gave it nor got it,
   * the hops are not used up, and the strategy has a copy for this neighbour: the destination, any, or any while the
   * copies are more than were halved away.
   */
  lemma SendsIff(r: Router, e: Event, id: BundleId, events: seq<Event>, neighbor: NodeId, summary: set<BundleId>, now: real)
    requires PutsIn(r, e, id) && Untouched(events, id)
    ensures var sent := Sendings(Apply(r, e), events, id);
      id in Selected(Run(Apply(r, e), events), neighbor, summary, now) <==>
        && AllLast(r, e.now, events) && Lasts(r, e.now, now)
        && id !in summary && neighbor !in sent && neighbor != (if e.Originate? then r.nodeId else e.source)
        && |sent| < (if e.Originate? then r.maxHops else r.maxHops - 1)
        && match r.strategy
           case Direct => neighbor == e.destination
           case Epidemic => true
           case SprayAndWait => neighbor == e.destination || (e.Originate? && r.sprayCopies > PowerOfTwo(|sent|))
  {
    var start := Apply(r, e);
    var after := Run(start, events);
    HeldIff(r, e, id, events);
    PutIn(r, e, id);
    EntryOverRuns(start, events, id);
    StrategyStays(start, events);
    hide Apply, Run, Looks, Sendings, AllLast;
    PowerIsPositive(|Sendings(start, events, id)|);
    if id in after.table {
      var f := after.table[id];
      assert Alive(f, now) <==> Alive(start.table[id], now);
      assert r.strategy == SprayAndWait ==>
        (f.copies > PowerOfTwo(0) <==> start.table[id].copies > PowerOfTwo(0 + |Sendings(start, events, id)|));
      hide Lasts;
    }
  }

  // ----- Statistics and neighbours -----

  function Count(events: seq<Event>, p: Event -> bool): nat {
    if events == [] then 0 else (if p(events[0]) then 1 else 0) + Count(events[1..], p)
  }

  /** How many bundles the encounters of a run send. */
  function SentInAll(r: Router, events: seq<Event>): nat
    decreases events
  {
    if events == [] then 0 else |SentBy(r, events[0])| + SentInAll(Apply(r, events[0]), events[1..])
  }

  /** How many receptions are of bundles held or delivered before. */
  function Repeated(r: Router, events: seq<Event>): nat
    decreases events
  {
    if events == [] then 0
    else
      (if events[0].Receive? && events[0].id in r.table.Keys + r.delivered then 1 else 0) + Repeated(Apply(r, events[0]), events[1..])
  }

  /** With the size of the table, which InvariantRun gives, these are all the statistics. */
  lemma {:induction false} StatisticsOverRuns(r: Router, events: seq<Event>)
    ensures var after := Run(r, events);
      && after.stats.originated == r.stats.originated + Count(events, (e: Event) => e.Originate?)
      && after.stats.encounters == r.stats.encounters + Count(events, (e: Event) => e.Encounter?)
      && after.stats.forwarded == r.stats.forwarded + SentInAll(r, events)
      && after.stats.duplicates == r.stats.duplicates + Repeated(r, events)
      && after.stats.received + after.stats.duplicates == r.stats.received + r.stats.duplicates + Count(events, (e: Event) => e.Receive?)
      && after.stats.delivered - |after.delivered| == r.stats.delivered - |r.delivered|
    decreases events
  {
    if events != [] {
      StatisticsStep(r, events[0]);
      hide Apply, SentBy;
      StatisticsOverRuns(Apply(r, events[0]), events[1..]);
    }
  }

  predicate Counts(r: Router, e: Event, after: Router, sent: nat) {
    var s, t := r.stats, after.stats;
    && t.originated == s.originated + (if e.Originate? then 1 else 0)
    && t.encounters == s.encounters + (if e.Encounter? then 1 else 0)
    && t.forwarded == s.forwarded + sent
    && t.duplicates == s.duplicates + (if e.Receive? && e.id in r.table.Keys + r.delivered then 1 else 0)
    && t.received + t.duplicates == s.received + s.duplicates + (if e.Receive? then 1 else 0)
    && t.delivered - |after.delivered| == s.delivered - |r.delivered|
  }

  lemma OriginateCounts(r: Router, e: Event)
    requires e.Originate?
    ensures Counts(r, e, Apply(r, e), 0) && SentBy(r, e) == {}
  {}

  lemma ReceiveCounts(r: Router, e: Event)
    requires e.Receive?
    ensures Counts(r, e, Apply(r, e), 0) && SentBy(r, e) == {}
  {
    hide Expiry, Counts;
    if e.id in r.table.Keys + r.delivered {
      KnownCounts(r, e);
    } else if e.destination == r.nodeId {
      DeliveredCounts(r, e);
    } else {
      StoredCounts(r, e);
    }
  }

  lemma KnownCounts(r: Router, e: Event)
    requires e.Receive? && e.id in r.table.Keys + r.delivered
    ensures Counts(r, e, Received(r, e.id, e.source, e.destination, e.now), 0)
  {}

  lemma DeliveredCounts(r: Router, e: Event)
    requires e.Receive? && e.id !in r.table.Keys + r.delivered && e.destination == r.nodeId
    ensures Counts(r, e, Received(r, e.id, e.source, e.destination, e.now), 0)
  {
    assert |r.delivered + {e.id}| == |r.delivered| + 1;
  }

  lemma StoredCounts(r: Router, e: Event)
    requires e.Receive? && e.id !in r.table.Keys + r.delivered && e.destination != r.nodeId
    ensures Counts(r, e, Received(r, e.id, e.source, e.destination, e.now), 0)
  {
    hide Expiry;
  }

  lemma EncounterCounts(r: Router, e: Event)
    requires e.Encounter?
    ensures Counts(r, e, Apply(r, e), |SentBy(r, e)|)
  {
    hide EncounterTable, Selected, Expired, Met;
  }

  lemma PruneCounts(r: Router, e: Event)
    requires e.Prune?
    ensures Counts(r, e, Apply(r, e), 0) && SentBy(r, e) == {}
  {
    hide Expired;
  }

  lemma StatisticsStep(r: Router, e: Event)
    ensures Counts(r, e, Apply(r, e), |SentBy(r, e)|)
  {
    hide Counts, Apply, SentBy;
    match e
    case Originate(_, _, _, _, _) => OriginateCounts(r, e);
    case Receive(_, _, _, _) => ReceiveCounts(r, e);
    case Encounter(_, _, _) => EncounterCounts(r, e);
    case Prune(_) => PruneCounts(r, e);
  }

  predicate Meets(e: Event, neighbor: NodeId) { e.Encounter? && e.neighbor == neighbor }

  /** Every meeting is counted, and the last one gives the time. */
  lemma {:induction false} NeighborsOverRuns(r: Router, events: seq<Event>, neighbor: NodeId)
    ensures var met, after := Count(events, e => Meets(e, neighbor)), Run(r, events).neighbors;
      && (neighbor in after <==> neighbor in r.neighbors || met > 0)
      && (met == 0 && neighbor in after ==> after[neighbor] == r.neighbors[neighbor])
      && (neighbor in after ==>
            after[neighbor].encounterCount == met + if neighbor in r.neighbors then r.neighbors[neighbor].encounterCount else 0)
    ensures forall i | 0 <= i < |events| && Meets(events[i], neighbor) && forall j | i < j < |events| :: !Meets(events[j], neighbor) ::
      neighbor in Run(r, events).neighbors && Run(r, events).neighbors[neighbor].lastSeen == events[i].now
    decreases events
  {
    if events != [] {
      NeighborStep(r, events[0], neighbor);
      hide Apply, Meets;
      NeighborsOverRuns(Apply(r, events[0]), events[1..], neighbor);
      forall i | 0 <= i < |events| && Meets(events[i], neighbor) && forall j | i < j < |events| :: !Meets(events[j], neighbor)
        ensures neighbor in Run(r, events).neighbors && Run(r, events).neighbors[neighbor].lastSeen == events[i].now
      {
        if i == 0 {
          assert forall j | 0 <= j < |events[1..]| :: events[1..][j] == events[j + 1];
          NoneMeets(events[1..], neighbor);
        } else {
          assert events[1..][i - 1] == events[i];
          assert forall j | i - 1 < j < |events[1..]| :: events[1..][j] == events[j + 1];
        }
      }
    }
  }

  lemma NeighborStep(r: Router, e: Event, neighbor: NodeId)
    ensures var after := Apply(r, e).neighbors;
      if Meets(e, neighbor) then
        neighbor in after && after[neighbor] == Neighbor(e.now, 1 + if neighbor in r.neighbors then r.neighbors[neighbor].encounterCount else 0)
      else
        (neighbor in after <==> neighbor in r.neighbors) && (neighbor in after ==> after[neighbor] == r.neighbors[neighbor])
  {}

  lemma {:induction false} NoneMeets(events: seq<Event>, neighbor: NodeId)
    requires forall j | 0 <= j < |events| :: !Meets(events[j], neighbor)
    ensures Count(events, e => Meets(e, neighbor)) == 0
    decreases events
  {
    if events != [] {
      assert forall j | 0 <= j < |events[1..]| :: events[1..][j] == events[j + 1];
      NoneMeets(events[1..], neighbor);
    }
  }
}
