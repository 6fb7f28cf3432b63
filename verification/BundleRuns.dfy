/** The life of bundles over any sequence of queueing, windows and acknowledgements (protocol/dtn.py). */
module BundleRuns {
  import opened Bytes
  import opened DtnStore
  import opened Sorting
  import opened DtnEngine
  import Packet

  /** A send and whether it failed. */
  datatype Send = Send(id: BundleId, failed: bool)

  datatype State = State(rows: map<BundleId, Row>, counter: nat, sends: seq<Send>)

  datatype Event =
    | Queue(packet: Packet.Packet, destination: string, band: Option<Packet.Band>, seconds: int, createdAt: real)
    | Window(plan: Plan, pending: seq<BundleId>)
    | Acknowledge(id: BundleId)

  /** A window needs clock readings for its rounds, and a list the store could have given. */
  predicate Possible(s: State, e: Event) {
    e.Window? ==>
      |e.plan.slots| >= PENDING_LIMIT && MostUrgent(Cleaned(s.rows, e.plan.cleanupAt), PENDING_LIMIT, e.pending)
  }

  function SendsOf(plan: Plan, pending: seq<BundleId>, k: nat): seq<Send>
    requires k <= |pending| && k <= |plan.slots|
  {
    if k == 0 then [] else SendsOf(plan, pending, k - 1) + [Send(pending[k - 1], !Succeeds(plan, k - 1))]
  }

  function RoundsOf(plan: Plan, pending: seq<BundleId>): (n: nat)
    requires |pending| <= |plan.slots|
    ensures n <= |pending|
  {
    Rounds(plan, |pending|, 0)
  }

  function Queued(s: State, p: Packet.Packet, destination: string, seconds: int, createdAt: real): State {
    if !p.PolicyAllows() then s
    else if Packet.Serialize(p).Failure? then State(s.rows, s.counter + 1, s.sends)
    else State(s.rows[BundleId(seconds, s.counter + 1) := NewRow(p, Packet.Serialize(p).value, destination, createdAt)],
               s.counter + 1, s.sends)
  }

  /** The state after an event, as the engine's methods leave it. */
  function Apply(s: State, e: Event): State
    requires Possible(s, e)
  {
    match e
    case Queue(packet, destination, band, seconds, createdAt) =>
      Queued(s, OnBand(packet, band), destination, seconds, createdAt)
    case Window(plan, pending) =>
      AtMostLimit(Cleaned(s.rows, plan.cleanupAt), pending);
      var n := RoundsOf(plan, pending);
      State(Swept(Cleaned(s.rows, plan.cleanupAt), pending, plan, n), s.counter, s.sends + SendsOf(plan, pending, n))
    case Acknowledge(id) =>
      State(Updated(s.rows, id, DELIVERED, None), s.counter, s.sends)
  }

  function Failures(sends: seq<Send>, id: BundleId): nat {
    if sends == [] then 0
    else Failures(sends[..|sends| - 1], id) + if sends[|sends| - 1] == Send(id, true) then 1 else 0
  }

  lemma {:induction false} FailuresConcat(a: seq<Send>, b: seq<Send>, id: BundleId)
    ensures Failures(a + b, id) == Failures(a, id) + Failures(b, id)
    decreases b
  {
    if b == [] {
      assert a + b == a;
    } else {
      FailuresConcat(a, b[..|b| - 1], id);
      assert (a + b)[..|a + b| - 1] == a + b[..|b| - 1];
    }
  }

  // ----- The invariant -----

  /** Queued, waiting for an acknowledgement, or delivered: nothing is left transmitting, and nothing is ever marked failed or expired. */
  predicate Settled(r: Row) { r.state == QUEUED || r.state == AWAITING_ACK || r.state == DELIVERED }

  /** Retries are the failed sends. */
  predicate CountsFailures(s: State, id: BundleId)
    requires id in s.rows
  {
    s.rows[id].retryCount == Failures(s.sends, id)
  }

  /** What is stored is a packet that receivers accept, as the row describes it, and that its band allows. */
  predicate Sendable(c: Content) {
    match Packet.Deserialize(c.data)
    case None => false
    case Some(p) => p.payloadType == c.payloadType && p.band == c.band && p.isEncrypted == c.encrypted && p.PolicyAllows()
  }

  predicate Good(s: State, id: BundleId)
    requires id in s.rows
  {
    id.number <= s.counter && Settled(s.rows[id]) && Sendable(s.rows[id].content) && CountsFailures(s, id)
  }

  ghost predicate Invariant(s: State) {
    && (forall id | id in s.rows :: Good(s, id))
    && (forall i | 0 <= i < |s.sends| :: s.sends[i].id.number <= s.counter)
  }

  lemma {:induction false} NoFailures(sends: seq<Send>, id: BundleId)
    requires forall i | 0 <= i < |sends| :: sends[i].id != id
    ensures Failures(sends, id) == 0
    decreases sends
  {
    if sends != [] {
      NoFailures(sends[..|sends| - 1], id);
    }
  }

  lemma QueueKeeps(s: State, e: Event)
    requires Invariant(s) && e.Queue?
    ensures Invariant(Apply(s, e)) && Kept(s, Apply(s, e))
  {
    hide NewRow, Sendable, OnBand, Packet.Packet.PolicyAllows, Packet.Serialize, Sends;
    var p := OnBand(e.packet, e.band);
    var id := BundleId(e.seconds, s.counter + 1);
    NoFailures(s.sends, id);
    if Packet.Serialize(p).Success? {
      NewRowFacts(p, Packet.Serialize(p).value, e.destination, e.createdAt);
    }
    var after := Apply(s, e);
    forall other | other in after.rows
      ensures Good(after, other)
    {
      assert other != id ==> other in s.rows && Good(s, other);
    }
    assert forall other | other in s.rows :: Good(s, other) ==> other != id;
  }

  lemma NewRowFacts(p: Packet.Packet, data: seq<byte>, destination: string, createdAt: real)
    requires Packet.Serialize(p) == Success(data)
    ensures var r := NewRow(p, data, destination, createdAt); r.state == QUEUED && r.retryCount == 0 && Sendable(r.content)
  {
    hide Packet.Deserialize, Packet.Body;
    Packet.RoundTrip(p);
  }

  /** The sends of a window, one by one. */
  lemma {:induction false} SendsAt(plan: Plan, pending: seq<BundleId>, k: nat, id: BundleId)
    requires k <= |pending| && k <= |plan.slots| && Distinct(pending)
    ensures |SendsOf(plan, pending, k)| == k
    ensures forall i | 0 <= i < k :: SendsOf(plan, pending, k)[i] == Send(pending[i], !Succeeds(plan, i))
    ensures id !in pending[..k] ==> Failures(SendsOf(plan, pending, k), id) == 0
    ensures forall i | 0 <= i < k && pending[i] == id :: Failures(SendsOf(plan, pending, k), id) == if Succeeds(plan, i) then 0 else 1
    decreases k
  {
    hide Succeeds;
    if k > 0 {
      SendsAt(plan, pending, k - 1, id);
      var sends := SendsOf(plan, pending, k);
      assert sends[..k - 1] == SendsOf(plan, pending, k - 1);
      assert pending[..k] == pending[..k - 1] + [pending[k - 1]];
      assert forall i | 0 <= i < k - 1 :: pending[..k - 1][i] == pending[i] && pending[i] != pending[k - 1];
    }
  }

  lemma TriedFacts(r: Row, plan: Plan, k: nat)
    requires k < |plan.slots|
    ensures var t := Tried(r, plan, k);
            && (t.state == QUEUED || t.state == AWAITING_ACK)
            && t.content == r.content && t.expiresAt == r.expiresAt
            && t.retryCount - r.retryCount == if Succeeds(plan, k) then 0 else 1
  {}

  /** A window's effect on a bundle that is in the store behind the clean-up, by whether it is tried. */
  lemma WindowTries(s: State, e: Event, id: BundleId)
    requires Possible(s, e) && e.Window? && id in Cleaned(s.rows, e.plan.cleanupAt)
    ensures |e.pending| <= |e.plan.slots|
    ensures var n, after, row := RoundsOf(e.plan, e.pending), Apply(s, e), Cleaned(s.rows, e.plan.cleanupAt)[id];
            && id in after.rows
            && (id !in e.pending[..n] ==> after.rows[id] == row && Failures(after.sends, id) == Failures(s.sends, id))
            && forall i | 0 <= i < n && e.pending[i] == id ::
                 && after.rows[id] == Tried(row, e.plan, i)
                 && Failures(after.sends, id) - Failures(s.sends, id) == if Succeeds(e.plan, i) then 0 else 1
  {
    var rows := Cleaned(s.rows, e.plan.cleanupAt);
    AtMostLimit(rows, e.pending);
    var n := RoundsOf(e.plan, e.pending);
    SweptAt(rows, e.pending, e.plan, n, id);
    SendsAt(e.plan, e.pending, n, id);
    FailuresConcat(s.sends, SendsOf(e.plan, e.pending, n), id);
    hide Queued, Swept, SendsOf, Failures, Rounds, InOrder, Gone, Distinct, Tried, Succeeds, Cleaned;
  }

  /** What a window makes of one bundle. */
  lemma WindowAt(s: State, e: Event, id: BundleId)
    requires Possible(s, e) && e.Window? && id in s.rows
    ensures var after := Apply(s, e);
            if Gone(s.rows[id], e.plan.cleanupAt) then id !in after.rows
            else
              && id in after.rows
              && after.rows[id].content == s.rows[id].content
              && ((after.rows[id] == s.rows[id] && Failures(after.sends, id) == Failures(s.sends, id))
                  || (Pending(s.rows[id]) && (after.rows[id].state == QUEUED || after.rows[id].state == AWAITING_ACK)
                      && after.rows[id].expiresAt == s.rows[id].expiresAt
                      && after.rows[id].retryCount - s.rows[id].retryCount == Failures(after.sends, id) - Failures(s.sends, id)))
  {
    var rows := Cleaned(s.rows, e.plan.cleanupAt);
    AtMostLimit(rows, e.pending);
    var n := RoundsOf(e.plan, e.pending);
    if id !in rows {
      SweptAt(rows, e.pending, e.plan, n, id);
      hide Swept, SendsOf, Failures, Rounds, InOrder, Distinct, Tried, Succeeds;
    } else {
      WindowTries(s, e, id);
      hide Apply, Swept, SendsOf, Failures, Rounds, InOrder, Distinct, Tried, Succeeds;
      if id in e.pending[..n] {
        var i :| 0 <= i < n && e.pending[..n][i] == id;
        assert e.pending[i] == id;
        TriedFacts(rows[id], e.plan, i);
      }
    }
  }

  lemma WindowKeeps(s: State, e: Event)
    requires Invariant(s) && Possible(s, e) && e.Window?
    ensures Invariant(Apply(s, e))
  {
    hide Sendable, Queued, Swept, Cleaned, MostUrgent, Rounds, Failures, SendsOf, Gone;
    var after := Apply(s, e);
    WindowSends(s, e);
    forall id | id in after.rows
      ensures Good(after, id)
    {
      WindowMakesNone(s, e, id);
      WindowAt(s, e, id);
      assert Good(s, id);
    }
  }

  lemma WindowMakesNone(s: State, e: Event, id: BundleId)
    requires Possible(s, e) && e.Window? && id in Apply(s, e).rows
    ensures id in s.rows
  {
    var rows := Cleaned(s.rows, e.plan.cleanupAt);
    AtMostLimit(rows, e.pending);
    SweptAt(rows, e.pending, e.plan, RoundsOf(e.plan, e.pending), id);
    hide Queued, Swept, SendsOf, Gone, InOrder;
  }

  lemma WindowSends(s: State, e: Event)
    requires Invariant(s) && Possible(s, e) && e.Window?
    ensures forall i | 0 <= i < |Apply(s, e).sends| :: Apply(s, e).sends[i].id.number <= s.counter
  {
    var rows := Cleaned(s.rows, e.plan.cleanupAt);
    AtMostLimit(rows, e.pending);
    var n := RoundsOf(e.plan, e.pending);
    var sent := SendsOf(e.plan, e.pending, n);
    assert Apply(s, e).sends == s.sends + sent;
    hide Apply, SendsOf, Rounds, Succeeds, Swept, InOrder, Gone, Settled, Sendable, CountsFailures;
    forall i | 0 <= i < |sent|
      ensures sent[i].id.number <= s.counter
    {
      SendsAt(e.plan, e.pending, n, sent[i].id);
      assert e.pending[i] in rows;
    }
  }

  lemma AcknowledgeKeeps(s: State, e: Event)
    requires Invariant(s) && e.Acknowledge?
    ensures Invariant(Apply(s, e)) && Kept(s, Apply(s, e))
  {
    hide Sendable, Queued, Failures, Sends;
    var after := Apply(s, e);
    forall id | id in after.rows
      ensures Good(after, id)
    {
      assert Good(s, id);
    }
  }

  // ----- Runs -----

  ghost predicate PossibleRun(s: State, events: seq<Event>)
    decreases events
  {
    events == [] || (Possible(s, events[0]) && PossibleRun(Apply(s, events[0]), events[1..]))
  }

  ghost function Run(s: State, events: seq<Event>): State
    requires PossibleRun(s, events)
    decreases events
  {
    if events == [] then s else Run(Apply(s, events[0]), events[1..])
  }

  const EMPTY := State(map[], 0, [])

  /** What one event may not undo. */
  ghost predicate Kept(before: State, after: State) {
    && (forall id | id in before.rows && before.rows[id].state == DELIVERED ::
          id in after.rows && after.rows[id].state == DELIVERED && Sends(after.sends, id) == Sends(before.sends, id))
    && (forall id | id in before.rows && before.rows[id].expiresAt <= 0.0 ::
          id in after.rows && after.rows[id].expiresAt == before.rows[id].expiresAt)
  }

  /** How often a bundle was sent. */
  function Sends(sends: seq<Send>, id: BundleId): nat {
    if sends == [] then 0 else Sends(sends[..|sends| - 1], id) + if sends[|sends| - 1].id == id then 1 else 0
  }

  lemma {:induction false} SendsAre(sends: seq<Send>, id: BundleId)
    ensures Sends(sends, id) == |set i | 0 <= i < |sends| && sends[i].id == id|
    decreases sends
  {
    var places := set i | 0 <= i < |sends| && sends[i].id == id;
    if sends == [] {
      assert places == {};
    } else {
      var n := |sends| - 1;
      SendsAre(sends[..n], id);
      var before := set i | 0 <= i < |sends[..n]| && sends[..n][i].id == id;
      assert places == before + if sends[n].id == id then {n} else {};
    }
  }

  lemma {:induction false} SendsConcat(a: seq<Send>, b: seq<Send>, id: BundleId)
    ensures Sends(a + b, id) == Sends(a, id) + Sends(b, id)
    decreases b
  {
    if b == [] {
      assert a + b == a;
    } else {
      SendsConcat(a, b[..|b| - 1], id);
      assert (a + b)[..|a + b| - 1] == a + b[..|b| - 1];
    }
  }

  lemma {:induction false} NotSent(sends: seq<Send>, id: BundleId)
    requires forall i | 0 <= i < |sends| :: sends[i].id != id
    ensures Sends(sends, id) == 0
    decreases sends
  {
    if sends != [] {
      NotSent(sends[..|sends| - 1], id);
    }
  }

  lemma WindowKeepsDelivered(s: State, e: Event, id: BundleId)
    requires Possible(s, e) && e.Window? && id in s.rows && s.rows[id].state == DELIVERED
    ensures Sends(Apply(s, e).sends, id) == Sends(s.sends, id)
  {
    var rows := Cleaned(s.rows, e.plan.cleanupAt);
    AtMostLimit(rows, e.pending);
    var n := RoundsOf(e.plan, e.pending);
    SendsAt(e.plan, e.pending, n, id);
    var sends := SendsOf(e.plan, e.pending, n);
    assert Apply(s, e).sends == s.sends + sends;
    hide Apply, SendsOf, Rounds, Swept, Succeeds, Sends, InOrder, Distinct, Gone;
    forall i | 0 <= i < |sends|
      ensures sends[i].id != id
    {
      assert e.pending[i] in rows && Pending(rows[e.pending[i]]);
    }
    NotSent(sends, id);
    SendsConcat(s.sends, sends, id);
  }

  lemma StepKeeps(s: State, e: Event)
    requires Invariant(s) && Possible(s, e)
    ensures Invariant(Apply(s, e)) && Kept(s, Apply(s, e))
  {
    hide Queued, Sendable;
    match e
    case Queue(_, _, _, _, _) => QueueKeeps(s, e);
    case Acknowledge(_) => AcknowledgeKeeps(s, e);
    case Window(_, _) =>
      WindowKeeps(s, e);
      forall id | id in s.rows
        ensures s.rows[id].state == DELIVERED ==> id in Apply(s, e).rows && Apply(s, e).rows[id].state == DELIVERED
        ensures s.rows[id].state == DELIVERED ==> Sends(Apply(s, e).sends, id) == Sends(s.sends, id)
        ensures s.rows[id].expiresAt <= 0.0 ==> id in Apply(s, e).rows && Apply(s, e).rows[id].expiresAt == s.rows[id].expiresAt
      {
        WindowAt(s, e, id);
        if s.rows[id].state == DELIVERED {
          WindowKeepsDelivered(s, e, id);
        }
      }
  }

  /**
   * Over every run: nothing is left transmitting, retries are the failed sends, a delivered bundle
   * stays delivered and stored and is never sent again, one that never expires is never removed, and what is
   * stored is always a packet that receivers accept and its band allows.
   */
  lemma {:induction false} RunKeeps(s: State, events: seq<Event>)
    requires Invariant(s) && PossibleRun(s, events)
    ensures Invariant(Run(s, events)) && Kept(s, Run(s, events))
    decreases events
  {
    hide Invariant, Apply, Possible;
    if events != [] {
      StepKeeps(s, events[0]);
      RunKeeps(Apply(s, events[0]), events[1..]);
    }
  }

  /** From the empty store on, and for SOS bundles in particular: they are never removed. */
  lemma SosStays(before: seq<Event>, e: Event, events: seq<Event>)
    requires PossibleRun(EMPTY, before) && e.Queue? && e.packet.payloadType == Packet.Sos
    requires Packet.Serialize(OnBand(e.packet, e.band)).Success?
    requires var s := Run(EMPTY, before); PossibleRun(Apply(s, e), events)
    ensures var s := Run(EMPTY, before);
            BundleId(e.seconds, s.counter + 1) in Run(Apply(s, e), events).rows
  {
    hide Apply, Invariant, Run, PossibleRun, OnBand, Packet.Serialize;
    FromEmpty(before);
    var s := Run(EMPTY, before);
    SosNeverExpires(s, e);
    QueueKeeps(s, e);
    RunKeeps(Apply(s, e), events);
  }

  lemma FromEmpty(before: seq<Event>)
    requires PossibleRun(EMPTY, before)
    ensures Invariant(Run(EMPTY, before))
  {
    hide Apply, Run, PossibleRun;
    RunKeeps(EMPTY, before);
  }

  lemma SosNeverExpires(s: State, e: Event)
    requires e.Queue? && e.packet.payloadType == Packet.Sos && Packet.Serialize(OnBand(e.packet, e.band)).Success?
    ensures var id := BundleId(e.seconds, s.counter + 1);
            id in Apply(s, e).rows && Apply(s, e).rows[id].expiresAt == 0.0
  {
    hide Packet.Body;
  }
}
