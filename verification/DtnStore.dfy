/** Bundles waiting for a satellite pass, and the store they wait in (protocol/dtn.py). */
module DtnStore {
  import opened Bytes
  import opened Sorting
  import Packet

  datatype BundleState = QUEUED | TRANSMITTING | AWAITING_ACK | DELIVERED | FAILED | EXPIRED

  /** "FS-<seconds>-<number>". */
  datatype BundleId = BundleId(seconds: int, number: nat)

  /** The columns that describe the packet, and its bytes. */
  datatype Content = Content(payloadType: Packet.PayloadType, band: Packet.Band, encrypted: bool, data: seq<byte>)

  datatype Row = Row(state: BundleState, priority: int, createdAt: real, expiresAt: real, retryCount: nat, lastAttempt: real,
                     destination: string, content: Content)

  const DEFAULT_TTL := 86400.0
  const PENDING_LIMIT := 50

  function Ttl(t: Packet.PayloadType): real {
    match t
    case Sos => 0.0
    case Voice => 3600.0
    case Text => 86400.0
    case Relay => 86400.0
    case Ack => 7200.0
    case Beacon => 600.0
    case VoiceChunk | VoiceMeta => DEFAULT_TTL
  }

  function Priority(t: Packet.PayloadType): int {
    match t
    case Sos => 0
    case Voice => 1
    case Text => 2
    case Relay => 3
    case Ack => 1
    case Beacon => 4
    case VoiceChunk | VoiceMeta => 2
  }

  /** A packet's bundle as queue_message creates it; expiry 0 means never. */
  function NewRow(p: Packet.Packet, data: seq<byte>, destination: string, createdAt: real): Row {
    var t := p.payloadType;
    Row(QUEUED, Priority(t), createdAt, if Ttl(t) > 0.0 then createdAt + Ttl(t) else 0.0, 0, 0.0,
        destination, Content(t, p.band, p.isEncrypted, data))
  }

  function WithState(r: Row, state: BundleState): Row {
    r.(state := state)
  }

  function Retried(r: Row, state: BundleState, at: real): Row {
    r.(state := state, retryCount := r.retryCount + 1, lastAttempt := at)
  }

  function Updated(rows: map<BundleId, Row>, id: BundleId, state: BundleState, retryAt: Option<real>): map<BundleId, Row> {
    if id !in rows then rows
    else rows[id := if retryAt.Some? then Retried(rows[id], state, retryAt.value) else WithState(rows[id], state)]
  }

  predicate Gone(r: Row, now: real) { r.expiresAt > 0.0 && r.expiresAt < now && r.state != DELIVERED }

  function Cleaned(rows: map<BundleId, Row>, now: real): map<BundleId, Row> {
    map id | id in rows && !Gone(rows[id], now) :: rows[id]
  }

  predicate Pending(r: Row) { r.state == QUEUED || r.state == AWAITING_ACK }

  /** ORDER BY priority, created_at. */
  predicate NotLater(rows: map<BundleId, Row>, a: BundleId, b: BundleId) {
    var (p, s), (q, t) := Urgency(rows, a), Urgency(rows, b);
    p < q || (p == q && s <= t)
  }

  function Urgency(rows: map<BundleId, Row>, id: BundleId): (int, real) {
    if id in rows then (rows[id].priority, rows[id].createdAt) else (0, 0.0)
  }

  predicate InOrder(rows: map<BundleId, Row>, ids: seq<BundleId>) {
    forall i, j | 0 <= i < j < |ids| :: NotLater(rows, ids[i], ids[j])
  }

  /** The `limit` most urgent pending bundles, most urgent first; ties in any order. */
  predicate MostUrgent(rows: map<BundleId, Row>, limit: nat, ids: seq<BundleId>) {
    && Distinct(ids) && InOrder(rows, ids) && |ids| <= limit
    && (forall i | 0 <= i < |ids| :: ids[i] in rows && Pending(rows[ids[i]]))
    && (forall id | id in rows && Pending(rows[id]) && id !in ids ::
          |ids| == limit && forall i | 0 <= i < |ids| :: NotLater(rows, ids[i], id))
  }

  class BundleStore {
    var rows: map<BundleId, Row>

    constructor ()
      ensures rows == map[]
    {
      rows := map[];
    }

    method Store(id: BundleId, row: Row)
      modifies this
      ensures rows == old(rows)[id := row]
    {
      rows := rows[id := row];
    }

    method UpdateState(id: BundleId, state: BundleState, retryAt: Option<real>)
      modifies this
      ensures rows == Updated(old(rows), id, state, retryAt)
    {
      if id in rows {
        if retryAt.Some? {
          rows := rows[id := Retried(rows[id], state, retryAt.value)];
        } else {
          rows := rows[id := WithState(rows[id], state)];
        }
      }
    }

    method CleanupExpired(now: real) returns (removed: nat)
      modifies this
      ensures rows == Cleaned(old(rows), now)
      ensures removed == |old(rows)| - |rows|
    {
      var before := |rows|;
      ghost var was := rows;
      rows := map id | id in rows && !Gone(rows[id], now) :: rows[id];
      FewerRows(was, now);
      removed := before - |rows|;
    }

    method GetPending(limit: nat) returns (ids: seq<BundleId>)
      ensures MostUrgent(rows, limit, ids)
    {
      var pending := AllPending();
      var table := rows;
      var notLater := (a: BundleId, b: BundleId) => NotLater(table, a, b);
      var sorted := Sorted(pending, notLater);
      SortedIsPermutation(pending, notLater);
      SortedIsOrdered(pending, notLater);
      ids := if |sorted| > limit then sorted[..limit] else sorted;
      FirstAreMostUrgent(rows, pending, sorted, limit);
    }

    method AllPending() returns (pending: seq<BundleId>)
      ensures Distinct(pending) && forall id :: id in pending <==> id in rows && Pending(rows[id])
    {
      pending := [];
      var left := rows.Keys;
      while left != {}
        invariant left <= rows.Keys && Distinct(pending)
        invariant forall id :: id in pending <==> id in rows && id !in left && Pending(rows[id])
      {
        var id :| id in left;
        if Pending(rows[id]) {
          assert forall i | 0 <= i < |pending| :: pending[i] in pending;
          pending := pending + [id];
        }
        left := left - {id};
      }
    }
  }

  lemma FewerRows(rows: map<BundleId, Row>, now: real)
    ensures |Cleaned(rows, now)| <= |rows|
  {
    var kept := Cleaned(rows, now).Keys;
    assert rows.Keys == kept + (rows.Keys - kept);
  }

  lemma FirstAreMostUrgent(rows: map<BundleId, Row>, pending: seq<BundleId>, sorted: seq<BundleId>, limit: nat)
    requires Distinct(pending) && multiset(sorted) == multiset(pending) && InOrder(rows, sorted)
    requires forall id :: id in pending <==> id in rows && Pending(rows[id])
    ensures MostUrgent(rows, limit, if |sorted| > limit then sorted[..limit] else sorted)
  {
    DistinctIfPermuted(sorted, pending);
    var ids := if |sorted| > limit then sorted[..limit] else sorted;
    forall i | 0 <= i < |ids|
      ensures ids[i] in rows && Pending(rows[ids[i]])
    {
      assert sorted[i] in sorted;
    }
    forall id | id in rows && Pending(rows[id])
      ensures id in ids || (|ids| == limit && forall i | 0 <= i < |ids| :: NotLater(rows, ids[i], id))
    {
      assert id in pending;
      var j :| 0 <= j < |sorted| && sorted[j] == id;
      if j < |ids| {
        assert ids[j] == id;
      }
    }
  }
}
