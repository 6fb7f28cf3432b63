/** How long a queued bundle is stored, and which bundle a window tries first (protocol/dtn.py). */
module BundleLives {
  import opened Bytes
  import opened DtnStore
  import opened DtnEngine
  import opened BundleRuns
  import Packet

  /** The time of a bundle of this type is over: an SOS has no end, a beacon ten minutes, an acknowledgement two hours, and so on. */
  predicate Over(t: Packet.PayloadType, createdAt: real, now: real) {
    && !t.Sos?
    && var end := createdAt + (if t.Beacon? then 600.0 else if t.Voice? then 3600.0 else if t.Ack? then 7200.0 else 86400.0);
       0.0 < end < now
  }

  /** SOS, then what someone waits for, then texts and the parts of recordings, then what is relayed for others, beacons last. */
  predicate Earlier(t: Packet.PayloadType, u: Packet.PayloadType) {
    || (t.Sos? && !u.Sos?)
    || ((t.Voice? || t.Ack?) && !u.Sos? && !u.Voice? && !u.Ack?)
    || ((t.Text? || t.VoiceChunk? || t.VoiceMeta?) && (u.Relay? || u.Beacon?))
    || (t.Relay? && u.Beacon?)
  }

  // ----- What a row says of its bundle -----

  predicate SameBundle(a: Row, b: Row) {
    a.priority == b.priority && a.createdAt == b.createdAt && a.expiresAt == b.expiresAt && a.content == b.content && a.destination == b.destination
  }

  ghost predicate Described(r: Row) {
    && (forall now :: 0.0 < r.expiresAt < now <==> Over(r.content.payloadType, r.createdAt, now))
    && r.priority == Priority(r.content.payloadType)
  }

  ghost predicate AllDescribed(s: State) {
    forall id | id in s.rows :: Described(s.rows[id])
  }

  lemma NewIsDescribed(p: Packet.Packet, data: seq<byte>, destination: string, createdAt: real)
    ensures Described(NewRow(p, data, destination, createdAt))
  {
    var r := NewRow(p, data, destination, createdAt);
    forall now: real
      ensures 0.0 < r.expiresAt < now <==> Over(r.content.payloadType, r.createdAt, now)
    {}
  }

  /** What an event makes of one row. */
  lemma StepRow(s: State, e: Event, id: BundleId)
    requires Possible(s, e) && id in s.rows && (e.Queue? ==> id.number <= s.counter)
    ensures var r, after := s.rows[id], Apply(s, e).rows;
      && (id in after <==> !(e.Window? && 0.0 < r.expiresAt < e.plan.cleanupAt && r.state != DELIVERED))
      && (id in after ==> SameBundle(after[id], r) && (after[id].state == DELIVERED <==> r.state == DELIVERED || e == Acknowledge(id)))
  {
    match e
    case Queue(_, _, _, _, _) => hide OnBand, NewRow;
    case Acknowledge(_) => hide Queued;
    case Window(plan, pending) =>
      WindowAt(s, e, id);
      if id in Cleaned(s.rows, plan.cleanupAt) {
        WindowTries(s, e, id);
      }
      hide Queued;
  }

  // ----- How long a bundle is stored -----

  predicate AcknowledgedBy(events: seq<Event>, i: nat, id: BundleId)
    requires i <= |events|
  {
    exists j :: 0 <= j < i && events[j] == Acknowledge(id)
  }

  /** No window cleans up when the bundle's end is past, unless its acknowledgement came before. */
  predicate Survives(events: seq<Event>, id: BundleId, end: real) {
    forall i | 0 <= i < |events| && events[i].Window? && 0.0 < end < events[i].plan.cleanupAt :: AcknowledgedBy(events, i, id)
  }

  lemma SurvivesNext(events: seq<Event>, id: BundleId, end: real)
    requires events != []
    ensures events[0] == Acknowledge(id) ==> Survives(events, id, end)
    ensures events[0] != Acknowledge(id) ==>
      (Survives(events, id, end) <==> !(events[0].Window? && 0.0 < end < events[0].plan.cleanupAt) && Survives(events[1..], id, end))
  {
    var rest := events[1..];
    assert forall i | 0 <= i < |rest| :: rest[i] == events[i + 1];
    if events[0] != Acknowledge(id) {
      assert !AcknowledgedBy(events, 0, id);
      forall i | 0 <= i < |rest|
        ensures AcknowledgedBy(rest, i, id) <==> AcknowledgedBy(events, i + 1, id)
      {
        if j :| 0 <= j < i && rest[j] == Acknowledge(id) { assert events[j + 1] == Acknowledge(id); }
        if j :| 0 <= j < i + 1 && events[j] == Acknowledge(id) { assert rest[j - 1] == Acknowledge(id); }
      }
      if Survives(rest, id, end) && !(events[0].Window? && 0.0 < end < events[0].plan.cleanupAt) {
        forall i | 0 <= i < |events| && events[i].Window? && 0.0 < end < events[i].plan.cleanupAt
          ensures AcknowledgedBy(events, i, id)
        {
          assert rest[i - 1] == events[i];
        }
      }
    }
  }

  /** A number is used once. */
  lemma NotAgain(s: State, e: Event, id: BundleId)
    requires Possible(s, e) && id !in s.rows && id.number <= s.counter
    ensures id !in Apply(s, e).rows && id.number <= Apply(s, e).counter
  {
    match e
    case Queue(_, _, _, _, _) => hide OnBand, NewRow;
    case Acknowledge(_) => hide Queued;
    case Window(plan, pending) =>
      if id in Apply(s, e).rows {
        WindowMakesNone(s, e, id);
      }
      hide Queued;
  }

  lemma {:induction false} NeverAgain(s: State, events: seq<Event>, id: BundleId)
    requires PossibleRun(s, events) && id !in s.rows && id.number <= s.counter
    ensures id !in Run(s, events).rows
    decreases events
  {
    hide Apply, Possible;
    if events != [] {
      NotAgain(s, events[0], id);
      NeverAgain(Apply(s, events[0]), events[1..], id);
    }
  }

  lemma {:induction false} RowOverRuns(s: State, events: seq<Event>, id: BundleId)
    requires PossibleRun(s, events) && id in s.rows && id.number <= s.counter
    ensures var r, after := s.rows[id], Run(s, events).rows;
      && (id in after <==> r.state == DELIVERED || Survives(events, id, r.expiresAt))
      && (id in after ==> SameBundle(after[id], r))
    decreases events
  {
    hide Apply, Possible, Survives;
    if events == [] {
      assert Survives(events, id, s.rows[id].expiresAt) by { NothingToSurvive(id, s.rows[id].expiresAt); }
    } else {
      var next := Apply(s, events[0]);
      StepRow(s, events[0], id);
      NumberUsed(s, events[0]);
      SurvivesNext(events, id, s.rows[id].expiresAt);
      if id in next.rows {
        RowOverRuns(next, events[1..], id);
      } else {
        NeverAgain(next, events[1..], id);
      }
    }
  }

  lemma NothingToSurvive(id: BundleId, end: real)
    ensures Survives([], id, end)
  {}

  lemma DescribedOverRuns(s: State, events: seq<Event>, id: BundleId)
    requires PossibleRun(s, events) && id in s.rows && id.number <= s.counter
    requires Described(s.rows[id]) && s.rows[id].state != DELIVERED
    ensures var r := s.rows[id];
      id in Run(s, events).rows <==>
        forall i | 0 <= i < |events| && events[i].Window? && Over(r.content.payloadType, r.createdAt, events[i].plan.cleanupAt) ::
          AcknowledgedBy(events, i, id)
  {
    RowOverRuns(s, events, id);
    hide Run, PossibleRun, Over, AcknowledgedBy;
  }

  /**
   * A queued bundle is in the store at the end of a run exactly when no window cleaned up after the end of its type's
   * time without an acknowledgement before.
   */
  lemma StoredIff(before: seq<Event>, e: Event, events: seq<Event>)
    requires PossibleRun(EMPTY, before) && e.Queue? && Packet.Serialize(OnBand(e.packet, e.band)).Success?
    requires PossibleRun(Apply(Run(EMPTY, before), e), events)
    ensures var s := Run(EMPTY, before);
      var id := BundleId(e.seconds, s.counter + 1);
      id in Run(Apply(s, e), events).rows <==>
        forall i | 0 <= i < |events| && events[i].Window? && Over(e.packet.payloadType, e.createdAt, events[i].plan.cleanupAt) ::
          AcknowledgedBy(events, i, id)
  {
    hide Apply, Run, PossibleRun, Over, AcknowledgedBy, Described, OnBand, Packet.Serialize;
    var s := Run(EMPTY, before);
    QueuedRow(s, e);
    DescribedOverRuns(Apply(s, e), events, BundleId(e.seconds, s.counter + 1));
  }

  lemma QueuedRow(s: State, e: Event)
    requires e.Queue? && Packet.Serialize(OnBand(e.packet, e.band)).Success?
    ensures var id := BundleId(e.seconds, s.counter + 1); var after := Apply(s, e);
      && after.counter == s.counter + 1 && id in after.rows && Described(after.rows[id])
      && after.rows[id].content.payloadType == e.packet.payloadType && after.rows[id].createdAt == e.createdAt
      && after.rows[id].state == QUEUED && after.rows[id].destination == e.destination
      && after.rows[id].content.band == (match e.band case Some(b) => b case None => e.packet.band)
      && after.rows[id].content.encrypted == e.packet.isEncrypted
  {
    hide Packet.Body;
    var p := OnBand(e.packet, e.band);
    NewIsDescribed(p, Packet.Serialize(p).value, e.destination, e.createdAt);
    hide Described;
  }

  // ----- The order of a window -----

  lemma DescribedStep(s: State, e: Event)
    requires Invariant(s) && Possible(s, e) && AllDescribed(s)
    ensures AllDescribed(Apply(s, e))
  {
    hide Described, SameBundle;
    forall id | id in Apply(s, e).rows
      ensures Described(Apply(s, e).rows[id])
    {
      if id in s.rows {
        assert Good(s, id);
        hide Good;
        StepRow(s, e, id);
        SameIsDescribed(Apply(s, e).rows[id], s.rows[id]);
      } else {
        NewInStore(s, e, id);
      }
    }
  }

  lemma SameIsDescribed(a: Row, b: Row)
    requires SameBundle(a, b) && Described(b)
    ensures Described(a)
  {
    hide Over;
    forall now: real
      ensures 0.0 < a.expiresAt < now <==> Over(a.content.payloadType, a.createdAt, now)
    {
      assert 0.0 < b.expiresAt < now <==> Over(b.content.payloadType, b.createdAt, now);
    }
  }

  lemma NewInStore(s: State, e: Event, id: BundleId)
    requires Possible(s, e) && id !in s.rows && id in Apply(s, e).rows
    ensures Described(Apply(s, e).rows[id])
  {
    match e
    case Queue(packet, destination, band, seconds, createdAt) =>
      var p := OnBand(packet, band);
      hide Described, NewRow, OnBand;
      NewIsDescribed(p, Packet.Serialize(p).value, destination, createdAt);
    case Acknowledge(_) =>
      hide Queued;
      assert false;
    case Window(_, _) =>
      WindowMakesNone(s, e, id);
      assert false;
  }

  lemma {:induction false} DescribedRun(s: State, events: seq<Event>)
    requires Invariant(s) && AllDescribed(s) && PossibleRun(s, events)
    ensures AllDescribed(Run(s, events))
    decreases events
  {
    hide Invariant, Apply, Possible, AllDescribed;
    if events != [] {
      StepKeeps(s, events[0]);
      DescribedStep(s, events[0]);
      DescribedRun(Apply(s, events[0]), events[1..]);
    }
  }

  lemma EarlierIsUrgent(a: Row, b: Row)
    requires Described(a) && Described(b)
    ensures Earlier(a.content.payloadType, b.content.payloadType) ==> a.priority < b.priority
    ensures !Earlier(b.content.payloadType, a.content.payloadType) ==> a.priority <= b.priority
  {}

  /** Of two pending bundles this one goes first, if its time is not over. */
  predicate GoesFirst(w: Row, t: Row, now: real) {
    && !Over(w.content.payloadType, w.createdAt, now)
    && (|| Earlier(w.content.payloadType, t.content.payloadType)
        || (!Earlier(t.content.payloadType, w.content.payloadType) && w.createdAt < t.createdAt))
  }

  lemma FirstIsUrgent(w: Row, t: Row, now: real)
    requires Described(w) && Described(t) && GoesFirst(w, t, now)
    ensures !Gone(w, now) && (w.priority < t.priority || (w.priority == t.priority && w.createdAt < t.createdAt))
  {
    EarlierIsUrgent(w, t);
    hide Earlier;
  }

  lemma DescribedFirst(s: State, plan: Plan, pending: seq<BundleId>, j: nat, waiting: BundleId)
    requires AllDescribed(s) && Possible(s, Window(plan, pending)) && j < |pending|
    requires waiting in s.rows && Pending(s.rows[waiting])
    ensures pending[j] in s.rows && Pending(s.rows[pending[j]])
    ensures GoesFirst(s.rows[waiting], s.rows[pending[j]], plan.cleanupAt) ==> waiting in pending[..j]
  {
    hide Described, GoesFirst, Gone;
    if GoesFirst(s.rows[waiting], s.rows[pending[j]], plan.cleanupAt) {
      FirstIsUrgent(s.rows[waiting], s.rows[pending[j]], plan.cleanupAt);
      ListedBefore(Cleaned(s.rows, plan.cleanupAt), pending, j, waiting);
    }
  }

  /**
   * In every reachable store: before a window tries a bundle, it has tried every pending one of an earlier type, and
   * every older pending one that is not of a later type, unless their time is over.
   */
  lemma UrgentFirst(events: seq<Event>, plan: Plan, pending: seq<BundleId>, j: nat, waiting: BundleId)
    requires PossibleRun(EMPTY, events) && Possible(Run(EMPTY, events), Window(plan, pending)) && j < |pending|
    requires waiting in Run(EMPTY, events).rows && Run(EMPTY, events).rows[waiting].state != DELIVERED
    ensures pending[j] in Run(EMPTY, events).rows && Run(EMPTY, events).rows[pending[j]].state != DELIVERED
    ensures var rows := Run(EMPTY, events).rows;
      GoesFirst(rows[waiting], rows[pending[j]], plan.cleanupAt) ==> waiting in pending[..j]
  {
    hide Invariant, Run, PossibleRun, Possible, AllDescribed, GoesFirst;
    FromEmpty(events);
    NoneStored();
    DescribedRun(EMPTY, events);
    PendingIff(Run(EMPTY, events), waiting);
    DescribedFirst(Run(EMPTY, events), plan, pending, j, waiting);
    PendingIff(Run(EMPTY, events), pending[j]);
  }

  /** What is stored and not delivered waits for a window. */
  lemma PendingIff(s: State, id: BundleId)
    requires Invariant(s) && id in s.rows
    ensures Pending(s.rows[id]) <==> s.rows[id].state != DELIVERED
  {
    assert Good(s, id);
    hide Sendable, CountsFailures;
  }

  lemma NoneStored()
    ensures AllDescribed(EMPTY) && Invariant(EMPTY)
  {}

  lemma ListedBefore(rows: map<BundleId, Row>, pending: seq<BundleId>, j: nat, waiting: BundleId)
    requires MostUrgent(rows, PENDING_LIMIT, pending) && j < |pending|
    requires waiting in rows && Pending(rows[waiting]) && !NotLater(rows, pending[j], waiting)
    ensures waiting in pending[..j]
  {
    MostUrgentFirst(rows, pending, j + 1, pending[j], waiting);
  }

  // ----- What a window does with the bundles it tries -----

  /**
   * In every reachable store: the j-th bundle a window tries waits for its acknowledgement if there is no transmitter or it
   * accepts, and is queued with one more retry otherwise.
   */
  lemma TriedBundle(events: seq<Event>, plan: Plan, pending: seq<BundleId>, j: nat)
    requires PossibleRun(EMPTY, events) && Possible(Run(EMPTY, events), Window(plan, pending))
    requires |pending| <= |plan.slots| && j < RoundsOf(plan, pending)
    ensures var s := Run(EMPTY, events);
      var after := Apply(s, Window(plan, pending)).rows;
      && pending[j] in s.rows && pending[j] in after
      && var r, t := s.rows[pending[j]], after[pending[j]];
         if !plan.hasTransmitter || plan.slots[j].answer.Accepted?
         then t.state == AWAITING_ACK && t.retryCount == r.retryCount && t.lastAttempt == r.lastAttempt
         else t.state == QUEUED && t.retryCount == r.retryCount + 1 && t.lastAttempt == plan.slots[j].notedAt
  {
    var s, e := Run(EMPTY, events), Window(plan, pending);
    hide Run, PossibleRun, Apply;
    assert pending[j] in Cleaned(s.rows, plan.cleanupAt);
    WindowTries(s, e, pending[j]);
    hide MostUrgent, Cleaned, Gone;
  }

  /** The rounds in which the bundle is taken. */
  function TakenRounds(plan: Plan, n: nat): set<nat>
    requires n <= |plan.slots|
  {
    set i | 0 <= i < n && (!plan.hasTransmitter || plan.slots[i].answer.Accepted?)
  }

  /** The number of bundles transmitted that a window reports. */
  lemma {:induction false} TransmittedCount(plan: Plan, n: nat)
    requires n <= |plan.slots|
    ensures Successes(plan, n) == |TakenRounds(plan, n)|
    decreases n
  {
    if n > 0 {
      TransmittedCount(plan, n - 1);
      var before := TakenRounds(plan, n - 1);
      if !plan.hasTransmitter || plan.slots[n - 1].answer.Accepted? {
        assert TakenRounds(plan, n) == before + {n - 1};
      } else {
        assert TakenRounds(plan, n) == before;
      }
    }
  }

  // ----- Numbers -----

  /** How many packets were given that the policy of their band allows. */
  function AllowedQueues(events: seq<Event>): nat {
    if events == [] then 0
    else (if events[0].Queue? && OnBand(events[0].packet, events[0].band).PolicyAllows() then 1 else 0) + AllowedQueues(events[1..])
  }

  /** Each of them uses up one number, whether it is then stored or cannot be serialized, and nothing else does. */
  lemma {:induction false} NumbersUsed(s: State, events: seq<Event>)
    requires PossibleRun(s, events)
    ensures Run(s, events).counter == s.counter + AllowedQueues(events)
    decreases events
  {
    if events != [] {
      NumberUsed(s, events[0]);
      hide Apply, Possible, OnBand, Packet.Packet.PolicyAllows;
      NumbersUsed(Apply(s, events[0]), events[1..]);
    }
  }

  lemma NumberUsed(s: State, e: Event)
    requires Possible(s, e)
    ensures Apply(s, e).counter == s.counter + if e.Queue? && OnBand(e.packet, e.band).PolicyAllows() then 1 else 0
  {
    hide OnBand, NewRow, Swept, SendsOf, Cleaned, Packet.Packet.PolicyAllows, Packet.Serialize;
  }
}
