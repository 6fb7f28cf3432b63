/** One DTN router: routing table, forwarding decision, reception and expiry (protocol/dtn_routing.py). */
module DtnRouter {
  import opened Sorting

  type BundleId = string
  type NodeId = string

  datatype Strategy = Direct | Epidemic | SprayAndWait

  datatype RoutingEntry = RoutingEntry(
    destination: NodeId,
    copies: int,
    hopCount: int,
    maxHops: int,
    expiresAt: real,
    forwardedTo: set<NodeId>,
    sourceNode: NodeId,
    payloadSize: int,
    priority: int)
  {
    predicate IsExpired(now: real) { expiresAt != 0.0 && now > expiresAt }

    predicate CanForward(now: real) { !IsExpired(now) && hopCount < maxHops }
  }

  datatype Neighbor = Neighbor(lastSeen: real, encounterCount: int)

  datatype Stats = Stats(originated: int, received: int, forwarded: int, delivered: int, dropped: int, encounters: int, duplicates: int)

  function Counted(s: Stats, dropped: int, forwarded: int): Stats {
    s.(dropped := s.dropped + dropped, forwarded := s.forwarded + forwarded)
  }

  lemma CountedMore(s: Stats, a: int, b: int, c: int, d: int)
    ensures Counted(Counted(s, a, b), c, d) == Counted(s, a + c, b + d)
  {}

  /** The router as a value. */
  datatype Router = Router(
    nodeId: NodeId,
    strategy: Strategy,
    sprayCopies: int,
    maxHops: int,
    bundleTtl: real,
    table: map<BundleId, RoutingEntry>,
    neighbors: map<NodeId, Neighbor>,
    delivered: set<BundleId>,
    stats: Stats)

  // ----- The operations on values -----

  function Expiry(r: Router, now: real): real {
    if r.bundleTtl > 0.0 then now + r.bundleTtl else 0.0
  }

  function Originated(r: Router, id: BundleId, destination: NodeId, payloadSize: int, priority: int, now: real): Router {
    var copies := if r.strategy == SprayAndWait then r.sprayCopies else 1;
    var entry := RoutingEntry(destination, copies, 0, r.maxHops, Expiry(r, now), {}, r.nodeId, payloadSize, priority);
    r.(table := r.table[id := entry], stats := r.stats.(originated := r.stats.originated + 1))
  }

  predicate IsNew(r: Router, id: BundleId) { id !in r.delivered && id !in r.table }

  function Received(r: Router, id: BundleId, source: NodeId, destination: NodeId, now: real): Router {
    if !IsNew(r, id) then r.(stats := r.stats.(duplicates := r.stats.duplicates + 1))
    else if destination == r.nodeId then
      r.(delivered := r.delivered + {id},
         stats := r.stats.(received := r.stats.received + 1, delivered := r.stats.delivered + 1))
    else
      var entry := RoutingEntry(destination, 1, 1, r.maxHops, Expiry(r, now), {source}, source, 0, 2);
      r.(table := r.table[id := entry], stats := r.stats.(received := r.stats.received + 1))
  }

  /** should_forward, for an entry that is in the table. */
  predicate ShouldForward(e: RoutingEntry, strategy: Strategy, neighbor: NodeId, now: real) {
    && e.CanForward(now)
    && neighbor != e.sourceNode
    && neighbor !in e.forwardedTo
    && match strategy
       case Direct => neighbor == e.destination
       case Epidemic => true
       case SprayAndWait => e.copies > 1 || neighbor == e.destination
  }

  predicate Sends(e: RoutingEntry, strategy: Strategy, id: BundleId, neighbor: NodeId, summary: set<BundleId>, now: real) {
    id !in summary && ShouldForward(e, strategy, neighbor, now)
  }

  function ForwardedEntry(e: RoutingEntry, strategy: Strategy, neighbor: NodeId): RoutingEntry {
    e.(forwardedTo := e.forwardedTo + {neighbor},
       hopCount := e.hopCount + 1,
       copies := if strategy == SprayAndWait && e.copies > 1 then e.copies - e.copies / 2 else e.copies)
  }

  /** The bundles an encounter sends. */
  function Selected(r: Router, neighbor: NodeId, summary: set<BundleId>, now: real): set<BundleId> {
    set id | id in r.table && Sends(r.table[id], r.strategy, id, neighbor, summary, now)
  }

  function Expired(table: map<BundleId, RoutingEntry>, now: real): set<BundleId> {
    set id | id in table && table[id].IsExpired(now)
  }

  function EncounterTable(r: Router, neighbor: NodeId, summary: set<BundleId>, now: real): map<BundleId, RoutingEntry> {
    map id | id in r.table && !r.table[id].IsExpired(now) ::
      if id in Selected(r, neighbor, summary, now) then ForwardedEntry(r.table[id], r.strategy, neighbor)
      else r.table[id]
  }

  function Met(r: Router, neighbor: NodeId, now: real): map<NodeId, Neighbor> {
    r.neighbors[neighbor := Neighbor(now, if neighbor in r.neighbors then r.neighbors[neighbor].encounterCount + 1 else 1)]
  }

  function Encountered(r: Router, neighbor: NodeId, summary: set<BundleId>, now: real): Router {
    r.(table := EncounterTable(r, neighbor, summary, now),
       neighbors := Met(r, neighbor, now),
       stats := Counted(r.stats.(encounters := r.stats.encounters + 1), |Expired(r.table, now)|, |Selected(r, neighbor, summary, now)|))
  }

  function Pruned(r: Router, now: real): Router {
    r.(table := r.table - Expired(r.table, now), stats := Counted(r.stats, |Expired(r.table, now)|, 0))
  }

  // ----- The router as an object -----

  /** A list of exactly these bundles, each once. */
  ghost predicate Lists(ids: seq<BundleId>, bundles: set<BundleId>) {
    Distinct(ids) && forall id :: id in ids <==> id in bundles
  }

  lemma {:induction false} ListLength(ids: seq<BundleId>, bundles: set<BundleId>)
    requires Lists(ids, bundles)
    ensures |ids| == |bundles|
    decreases ids
  {
    if ids == [] {
      assert bundles == {};
    } else {
      assert forall x :: x in ids <==> x == ids[0] || x in ids[1..];
      assert forall i | 0 <= i < |ids[1..]| :: ids[1..][i] == ids[i + 1] != ids[0];
      assert Distinct(ids[1..]);
      ListLength(ids[1..], bundles - {ids[0]});
    }
  }

  ghost predicate MostUrgentFirst(ids: seq<BundleId>, table: map<BundleId, RoutingEntry>)
    requires forall i | 0 <= i < |ids| :: ids[i] in table
  {
    forall i, j | 0 <= i < j < |ids| :: table[ids[i]].priority <= table[ids[j]].priority
  }

  function PriorityOf(table: map<BundleId, RoutingEntry>, id: BundleId): int {
    if id in table then table[id].priority else 0
  }

  /** list.sort by priority. */
  method SortByPriority(ids: seq<BundleId>, table: map<BundleId, RoutingEntry>) returns (sorted: seq<BundleId>)
    requires forall i | 0 <= i < |ids| :: ids[i] in table
    ensures multiset(sorted) == multiset(ids)
    ensures forall i | 0 <= i < |sorted| :: sorted[i] in table
    ensures MostUrgentFirst(sorted, table)
  {
    var notAfter := (a: BundleId, b: BundleId) => PriorityOf(table, a) <= PriorityOf(table, b);
    sorted := Sorted(ids, notAfter);
    SortedIsPermutation(ids, notAfter);
    SortedIsOrdered(ids, notAfter);
    SameMembers(sorted, ids);
    assert forall i | 0 <= i < |sorted| :: sorted[i] in ids;
  }

  class DTNRouter {
    const nodeId: NodeId
    const strategy: Strategy
    const sprayCopies: int
    const maxHops: int
    const bundleTtl: real
    var routingTable: map<BundleId, RoutingEntry>
    var neighbors: map<NodeId, Neighbor>
    var delivered: set<BundleId>
    var stats: Stats

    ghost function Value(): Router
      reads this
    {
      Router(nodeId, strategy, sprayCopies, maxHops, bundleTtl, routingTable, neighbors, delivered, stats)
    }

    constructor (nodeId: NodeId, strategy: Strategy, sprayCopies: int, maxHops: int, bundleTtl: real)
      ensures Value() == Router(nodeId, strategy, sprayCopies, maxHops, bundleTtl, map[], map[], {}, Stats(0, 0, 0, 0, 0, 0, 0))
    {
      this.nodeId, this.strategy := nodeId, strategy;
      this.sprayCopies, this.maxHops, this.bundleTtl := sprayCopies, maxHops, bundleTtl;
      routingTable, neighbors, delivered := map[], map[], {};
      stats := Stats(0, 0, 0, 0, 0, 0, 0);
    }

    method Originate(id: BundleId, destination: NodeId, payloadSize: int, priority: int, now: real)
      modifies this
      ensures Value() == Originated(old(Value()), id, destination, payloadSize, priority, now)
    {
      var copies := if strategy == SprayAndWait then sprayCopies else 1;
      var expiresAt := if bundleTtl > 0.0 then now + bundleTtl else 0.0;
      var entry := RoutingEntry(destination, copies, 0, maxHops, expiresAt, {}, nodeId, payloadSize, priority);
      routingTable := routingTable[id := entry];
      stats := stats.(originated := stats.originated + 1);
    }

    method OnReceive(id: BundleId, source: NodeId, destination: NodeId, now: real) returns (isNew: bool)
      modifies this
      ensures isNew == IsNew(old(Value()), id)
      ensures Value() == Received(old(Value()), id, source, destination, now)
    {
      if id in delivered {
        stats := stats.(duplicates := stats.duplicates + 1);
        return false;
      }
      if id in routingTable {
        stats := stats.(duplicates := stats.duplicates + 1);
        return false;
      }
      stats := stats.(received := stats.received + 1);
      if destination == nodeId {
        delivered := delivered + {id};
        stats := stats.(delivered := stats.delivered + 1);
        return true;
      }
      var expiresAt := if bundleTtl > 0.0 then now + bundleTtl else 0.0;
      var entry := RoutingEntry(destination, 1, 1, maxHops, expiresAt, {source}, source, 0, 2);
      routingTable := routingTable[id := entry];
      return true;
    }

    /** Looks at the entries one by one, in whatever order the table yields them. */
    method OnEncounter(neighbor: NodeId, summary: set<BundleId>, now: real) returns (toForward: seq<BundleId>)
      modifies this
      ensures Value() == Encountered(old(Value()), neighbor, summary, now)
      ensures Lists(toForward, Selected(old(Value()), neighbor, summary, now))
      ensures (forall i | 0 <= i < |toForward| :: toForward[i] in routingTable) && MostUrgentFirst(toForward, routingTable)
    {
      ghost var start := Value();
      stats := stats.(encounters := stats.encounters + 1);
      if neighbor in neighbors {
        neighbors := neighbors[neighbor := Neighbor(now, neighbors[neighbor].encounterCount + 1)];
      } else {
        neighbors := neighbors[neighbor := Neighbor(now, 1)];
      }
      var collected := Sweep(neighbor, summary, now);
      toForward := SortByPriority(collected, routingTable);
      DistinctIfPermuted(toForward, collected);
    }

    /** The loop over the table. */
    method Sweep(neighbor: NodeId, summary: set<BundleId>, now: real) returns (toForward: seq<BundleId>)
      modifies this`routingTable, this`stats
      ensures routingTable == EncounterTable(old(Value()), neighbor, summary, now)
      ensures stats == Counted(old(stats), |Expired(old(routingTable), now)|, |Selected(old(Value()), neighbor, summary, now)|)
      ensures Lists(toForward, Selected(old(Value()), neighbor, summary, now))
      ensures forall i | 0 <= i < |toForward| :: toForward[i] in routingTable
    {
      ghost var start := Value();
      toForward := [];
      var todo := routingTable.Keys;
      SweepStart(start, neighbor, summary, now);
      hide SweepState, EncounterTable, Selected, Expired, Lists, Counted, ForwardedEntry, ShouldForward;
      while todo != {}
        invariant SweepState(start, routingTable, stats, todo, toForward, neighbor, summary, now)
      {
        var id :| id in todo;
        ghost var table, counts, list := routingTable, stats, toForward;
        NotYetSwept(start, table, counts, todo, list, neighbor, summary, now, id);
        var forward := Visit(id, neighbor, summary, now);
        if forward {
          toForward := toForward + [id];
        }
        SweepTurn(start, table, counts, todo, list, neighbor, summary, now, id, forward, routingTable, stats);
        todo := todo - {id};
      }
      SweepEnd(start, routingTable, stats, todo, toForward, neighbor, summary, now);
    }

    /** The table, the statistics and the list when the entries in `todo` are still to be looked at. */
    ghost predicate SweepState(start: Router, table: map<BundleId, RoutingEntry>, counts: Stats, todo: set<BundleId>, list: seq<BundleId>,
                               neighbor: NodeId, summary: set<BundleId>, now: real)
    {
      && start.strategy == strategy && todo <= start.table.Keys
      && TableState(start.table, table, todo, neighbor, summary, now)
      && ListState(start.table, list, todo, neighbor, summary, now)
      && counts == Counted(start.stats, |start.table| - |table|, |list|)
    }

    ghost predicate TableState(before: map<BundleId, RoutingEntry>, table: map<BundleId, RoutingEntry>, todo: set<BundleId>,
                               neighbor: NodeId, summary: set<BundleId>, now: real)
    {
      && (forall x :: x in table <==> x in before && (x in todo || !before[x].IsExpired(now)))
      && (forall x | x in table :: table[x] ==
            if x !in todo && Sends(before[x], strategy, x, neighbor, summary, now)
            then ForwardedEntry(before[x], strategy, neighbor) else before[x])
    }

    ghost predicate ListState(before: map<BundleId, RoutingEntry>, list: seq<BundleId>, todo: set<BundleId>,
                              neighbor: NodeId, summary: set<BundleId>, now: real)
    {
      && Distinct(list)
      && (forall x :: x in list <==> x in before && x !in todo && Sends(before[x], strategy, x, neighbor, summary, now))
    }

    lemma SweepStart(start: Router, neighbor: NodeId, summary: set<BundleId>, now: real)
      requires start.strategy == strategy
      ensures SweepState(start, start.table, start.stats, start.table.Keys, [], neighbor, summary, now)
    {}

    lemma NotYetSwept(start: Router, table: map<BundleId, RoutingEntry>, counts: Stats, todo: set<BundleId>, list: seq<BundleId>,
                      neighbor: NodeId, summary: set<BundleId>, now: real, id: BundleId)
      requires SweepState(start, table, counts, todo, list, neighbor, summary, now) && id in todo
      ensures id in start.table && id in table && table[id] == start.table[id]
    {}

    lemma SweepTurn(start: Router, table: map<BundleId, RoutingEntry>, counts: Stats, todo: set<BundleId>, list: seq<BundleId>,
                    neighbor: NodeId, summary: set<BundleId>, now: real,
                    id: BundleId, forward: bool, table': map<BundleId, RoutingEntry>, counts': Stats)
      requires SweepState(start, table, counts, todo, list, neighbor, summary, now) && id in todo && id in table
      requires VisitEffect(id, neighbor, summary, now, table, counts, forward, table', counts')
      ensures SweepState(start, table', counts', todo - {id}, if forward then list + [id] else list, neighbor, summary, now)
    {
      NotYetSwept(start, table, counts, todo, list, neighbor, summary, now, id);
      hide Sends, ForwardedEntry, Counted, TableState, ListState;
      CountedMore(start.stats, |start.table| - |table|, |list|, |table| - |table'|, if forward then 1 else 0);
      ListTurn(start.table, list, todo, neighbor, summary, now, id, forward);
      TableTurn(start.table, table, todo, neighbor, summary, now, id, forward, table');
    }

    lemma TableTurn(before: map<BundleId, RoutingEntry>, table: map<BundleId, RoutingEntry>, todo: set<BundleId>,
                    neighbor: NodeId, summary: set<BundleId>, now: real, id: BundleId, forward: bool, table': map<BundleId, RoutingEntry>)
      requires TableState(before, table, todo, neighbor, summary, now) && id in todo && id in before
      requires forward == Sends(before[id], strategy, id, neighbor, summary, now)
      requires table' == if before[id].IsExpired(now) then table - {id}
                         else if forward then table[id := ForwardedEntry(before[id], strategy, neighbor)]
                         else table
      ensures TableState(before, table', todo - {id}, neighbor, summary, now)
    {
      hide Sends, ForwardedEntry;
    }

    lemma ListTurn(before: map<BundleId, RoutingEntry>, list: seq<BundleId>, todo: set<BundleId>,
                   neighbor: NodeId, summary: set<BundleId>, now: real, id: BundleId, forward: bool)
      requires ListState(before, list, todo, neighbor, summary, now) && id in todo && id in before
      requires forward == Sends(before[id], strategy, id, neighbor, summary, now)
      ensures ListState(before, if forward then list + [id] else list, todo - {id}, neighbor, summary, now)
    {
      hide Sends;
      assert id !in list;
    }

    lemma SweepEnd(start: Router, table: map<BundleId, RoutingEntry>, counts: Stats, todo: set<BundleId>, list: seq<BundleId>,
                   neighbor: NodeId, summary: set<BundleId>, now: real)
      requires SweepState(start, table, counts, todo, list, neighbor, summary, now) && todo == {}
      ensures table == EncounterTable(start, neighbor, summary, now)
      ensures counts == Counted(start.stats, |Expired(start.table, now)|, |Selected(start, neighbor, summary, now)|)
      ensures Lists(list, Selected(start, neighbor, summary, now))
      ensures forall i | 0 <= i < |list| :: list[i] in table
    {
      TableEnd(start, table, neighbor, summary, now);
      ListEnd(start, list, neighbor, summary, now);
      hide TableState, ListState, Expired, Selected, EncounterTable, Counted;
    }

    lemma TableEnd(start: Router, table: map<BundleId, RoutingEntry>, neighbor: NodeId, summary: set<BundleId>, now: real)
      requires start.strategy == strategy && TableState(start.table, table, {}, neighbor, summary, now)
      ensures table == EncounterTable(start, neighbor, summary, now)
      ensures |start.table| - |table| == |Expired(start.table, now)|
    {
      hide Sends, ForwardedEntry;
      assert table.Keys == start.table.Keys - Expired(start.table, now);
    }

    lemma ListEnd(start: Router, list: seq<BundleId>, neighbor: NodeId, summary: set<BundleId>, now: real)
      requires start.strategy == strategy && ListState(start.table, list, {}, neighbor, summary, now)
      ensures Lists(list, Selected(start, neighbor, summary, now)) && |list| == |Selected(start, neighbor, summary, now)|
      ensures forall i | 0 <= i < |list| :: list[i] in EncounterTable(start, neighbor, summary, now)
    {
      ListLength(list, Selected(start, neighbor, summary, now));
      forall i | 0 <= i < |list|
        ensures list[i] in EncounterTable(start, neighbor, summary, now)
      {
        assert list[i] in list;
      }
    }

    /** What one turn does. */
    ghost predicate VisitEffect(id: BundleId, neighbor: NodeId, summary: set<BundleId>, now: real,
                                table: map<BundleId, RoutingEntry>, counts: Stats,
                                forward: bool, table': map<BundleId, RoutingEntry>, counts': Stats)
      requires id in table
    {
      var e := table[id];
      && forward == Sends(e, strategy, id, neighbor, summary, now)
      && !(forward && e.IsExpired(now))
      && table' == (if e.IsExpired(now) then table - {id}
                    else if forward then table[id := ForwardedEntry(e, strategy, neighbor)]
                    else table)
      && |table'| == |table| - (if e.IsExpired(now) then 1 else 0)
      && counts' == Counted(counts, |table| - |table'|, if forward then 1 else 0)
    }

    /** Drops, forwards or skips one entry. */
    method Visit(id: BundleId, neighbor: NodeId, summary: set<BundleId>, now: real) returns (forward: bool)
      requires id in routingTable
      modifies this`routingTable, this`stats
      ensures VisitEffect(id, neighbor, summary, now, old(routingTable), old(stats), forward, routingTable, stats)
    {
      var entry := routingTable[id];
      forward := false;
      if entry.IsExpired(now) {
        assert (routingTable - {id}).Keys == routingTable.Keys - {id};
        routingTable := routingTable - {id};
        stats := stats.(dropped := stats.dropped + 1);
      } else if id !in summary && ShouldForward(entry, strategy, neighbor, now) {
        forward := true;
        var next := entry.(forwardedTo := entry.forwardedTo + {neighbor}, hopCount := entry.hopCount + 1);
        if strategy == SprayAndWait && entry.copies > 1 {
          var give := entry.copies / 2;
          next := next.(copies := entry.copies - give);
        }
        assert routingTable[id := next].Keys == routingTable.Keys;
        routingTable := routingTable[id := next];
        stats := stats.(forwarded := stats.forwarded + 1);
      }
    }

    method PruneExpired(now: real) returns (removed: nat)
      modifies this
      ensures Value() == Pruned(old(Value()), now)
      ensures removed == |Expired(old(routingTable), now)|
    {
      var expired := set id | id in routingTable && routingTable[id].IsExpired(now);
      routingTable := routingTable - expired;
      stats := stats.(dropped := stats.dropped + |expired|);
      removed := |expired|;
    }
  }
}
