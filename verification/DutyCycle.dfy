/** The sliding-window duty-cycle limiter (backend/rate_limiter.py) and the worker that drives it (backend/tx_queue.py). */
module DutyCycle {
  import opened Airtime
  import opened Bytes

  const WINDOW_SECONDS := 3600.0

  /** The records a prune at `now` keeps. */
  function Kept(records: seq<TxRecord>, now: real): seq<TxRecord> {
    if records == [] then []
    else if records[0].timestamp >= now - WINDOW_SECONDS then [records[0]] + Kept(records[1..], now)
    else Kept(records[1..], now)
  }

  function Used(records: seq<TxRecord>): real { SumIf(records, r => true) }

  function UsedBy(records: seq<TxRecord>, user: int): real { SumIf(records, (r: TxRecord) => r.userId == user) }

  function ActiveUsers(records: seq<TxRecord>): nat {
    var users := set i | 0 <= i < |records| :: records[i].userId;
    if |users| > 1 then |users| else 1
  }

  function Max(a: real, b: real): real { if a >= b then a else b }

  function Min(a: real, b: real): real { if a <= b then a else b }

  function UserBudget(records: seq<TxRecord>, maxTx: real, minPerUser: real): real {
    Max(maxTx / (ActiveUsers(records) as real), minPerUser)
  }

  /** can_transmit, on records already pruned. */
  predicate Allowed(records: seq<TxRecord>, user: int, estimate: real, maxTx: real, minPerUser: real) {
    && Used(records) + estimate <= maxTx
    && UsedBy(records, user) + estimate <= UserBudget(records, maxTx, minPerUser)
  }

  datatype Budget = Budget(total: real, used: real, remaining: real, windowStart: real, windowEnd: real, canTransmit: bool, nextAvailableIn: real)

  function Oldest(records: seq<TxRecord>): (t: real)
    requires records != []
    ensures forall i | 0 <= i < |records| :: t <= records[i].timestamp
    ensures exists i :: 0 <= i < |records| && t == records[i].timestamp
  {
    if |records| == 1 then records[0].timestamp
    else Min(records[0].timestamp, Oldest(records[1..]))
  }

  /** get_budget, on records already pruned. */
  function BudgetOf(records: seq<TxRecord>, user: int, now: real, maxTx: real, minPerUser: real): Budget {
    var budget := UserBudget(records, maxTx, minPerUser);
    var remaining := Min(Max(0.0, maxTx - Used(records)), Max(0.0, budget - UsedBy(records, user)));
    var next := if remaining <= 0.0 && records != [] then Max(0.0, (Oldest(records) + WINDOW_SECONDS) - now) else 0.0;
    Budget(Min(budget, maxTx), UsedBy(records, user), remaining, now - WINDOW_SECONDS, now, remaining > 0.0, next)
  }

  class DutyCycleTracker {
    const maxTx: real
    const minPerUser: real
    var records: seq<TxRecord>

    constructor (maxTx: real, minPerUser: real)
      ensures this.maxTx == maxTx && this.minPerUser == minPerUser && records == []
    {
      this.maxTx, this.minPerUser, records := maxTx, minPerUser, [];
    }

    method PruneExpired(now: real)
      modifies this
      ensures records == Kept(old(records), now)
    {
      var cutoff := now - WINDOW_SECONDS;
      var kept := [];
      for i := 0 to |records|
        invariant kept + Kept(records[i..], now) == Kept(records, now)
        invariant records == old(records)
      {
        assert records[i..][1..] == records[i + 1..];
        if records[i].timestamp >= cutoff {
          kept := kept + [records[i]];
        }
      }
      records := kept;
    }

    method CanTransmit(user: int, estimate: real, now: real) returns (ok: bool)
      modifies this
      ensures records == Kept(old(records), now)
      ensures ok == Allowed(records, user, estimate, maxTx, minPerUser)
    {
      PruneExpired(now);
      if Used(records) + estimate > maxTx {
        return false;
      }
      if UsedBy(records, user) + estimate > UserBudget(records, maxTx, minPerUser) {
        return false;
      }
      return true;
    }

    method RecordTransmission(user: int, duration: real, now: real)
      modifies this
      ensures records == old(records) + [TxRecord(user, now, duration)]
    {
      records := records + [TxRecord(user, now, duration)];
    }

    method GetBudget(user: int, now: real) returns (b: Budget)
      modifies this
      ensures records == Kept(old(records), now)
      ensures b == BudgetOf(records, user, now, maxTx, minPerUser)
    {
      PruneExpired(now);
      var budget := UserBudget(records, maxTx, minPerUser);
      var globalRemaining := Max(0.0, maxTx - Used(records));
      var userRemaining := Max(0.0, budget - UsedBy(records, user));
      var remaining := Min(globalRemaining, userRemaining);
      var next := 0.0;
      if remaining <= 0.0 && records != [] {
        next := Max(0.0, (Oldest(records) + WINDOW_SECONDS) - now);
      }
      b := Budget(Min(budget, maxTx), UsedBy(records, user), remaining, now - WINDOW_SECONDS, now, remaining > 0.0, next);
    }
  }

  // ----- The worker -----

  const OVERHEAD_BYTES := 55   // 21 header, 32 FEC, 2 CRC

  function EstimatedDuration(payloadBytes: nat): (d: real)
    ensures d > 0.0
  {
    (((payloadBytes + OVERHEAD_BYTES) * 8) as real) / 700.0
  }

  /**
   * Where an exception interrupts an attempt, if anywhere. What the try block raises is handled, unless the handler's
   * own commit raises in turn; what comes before the try block (the encoding, the first commit) escapes.
   */
  datatype Fault = NoFault | BeforeCheck | BeforeRecord(handled: bool) | AfterRecord(handled: bool)

  /** What touches the tracker: one message tried by the worker, or a budget query. The times are clock readings. */
  datatype Action =
    | Attempt(user: int, payloadBytes: nat, checkedAt: real, sentAt: real, recordedAt: real, loggedAt: real, fault: Fault)
    | Query(at: real)

  datatype Outcome = Deferred | Sent | Failed | Escaped

  predicate Passes(records: seq<TxRecord>, a: Action, maxTx: real, minPerUser: real)
    requires a.Attempt?
  {
    Allowed(Kept(records, a.checkedAt), a.user, EstimatedDuration(a.payloadBytes), maxTx, minPerUser)
  }

  function OutcomeOf(records: seq<TxRecord>, a: Action, maxTx: real, minPerUser: real): Outcome
    requires a.Attempt?
  {
    if a.fault == BeforeCheck then Escaped
    else if !Passes(records, a, maxTx, minPerUser) then Deferred
    else if a.fault == NoFault then Sent
    else if a.fault.handled then Failed
    else Escaped
  }

  function Record(a: Action): TxRecord
    requires a.Attempt?
  {
    TxRecord(a.user, a.recordedAt, EstimatedDuration(a.payloadBytes))
  }

  /** The records after one action. */
  function After(records: seq<TxRecord>, a: Action, maxTx: real, minPerUser: real): seq<TxRecord> {
    if a.Query? then Kept(records, a.at)
    else if a.fault == BeforeCheck then records
    else
      var checked := Kept(records, a.checkedAt);
      if !Passes(records, a, maxTx, minPerUser) then Kept(checked, a.loggedAt)
      else if a.fault.BeforeRecord? then checked
      else Kept(checked + [Record(a)], a.loggedAt)
  }

  function AfterAll(records: seq<TxRecord>, actions: seq<Action>, maxTx: real, minPerUser: real): seq<TxRecord> {
    if actions == [] then records
    else After(AfterAll(records, actions[..|actions| - 1], maxTx, minPerUser), actions[|actions| - 1], maxTx, minPerUser)
  }

  /** How many messages a poll tries: all of them, or up to the first whose exception escapes. */
  function Tried(records: seq<TxRecord>, messages: seq<Action>, maxTx: real, minPerUser: real): (n: nat)
    requires forall i | 0 <= i < |messages| :: messages[i].Attempt?
    ensures n <= |messages|
  {
    if messages == [] then 0
    else
      var n := Tried(records, messages[..|messages| - 1], maxTx, minPerUser);
      if n < |messages| - 1 || Escapes(records, messages[..n], maxTx, minPerUser) then n else n + 1
  }

  /** The last of these messages ends the poll. */
  predicate Escapes(records: seq<TxRecord>, messages: seq<Action>, maxTx: real, minPerUser: real)
    requires forall i | 0 <= i < |messages| :: messages[i].Attempt?
  {
    messages != [] && OutcomeAt(records, messages, |messages| - 1, maxTx, minPerUser) == Escaped
  }

  function OutcomeAt(records: seq<TxRecord>, messages: seq<Action>, i: nat, maxTx: real, minPerUser: real): Outcome
    requires i < |messages| && messages[i].Attempt?
  {
    OutcomeOf(AfterAll(records, messages[..i], maxTx, minPerUser), messages[i], maxTx, minPerUser)
  }

  /** How many of these messages end so. */
  function Count(records: seq<TxRecord>, messages: seq<Action>, outcome: Outcome, maxTx: real, minPerUser: real): nat
    requires forall i | 0 <= i < |messages| :: messages[i].Attempt?
  {
    if messages == [] then 0
    else
      var n := |messages| - 1;
      Count(records, messages[..n], outcome, maxTx, minPerUser)
        + (if OutcomeAt(records, messages, n, maxTx, minPerUser) == outcome then 1 else 0)
  }

  class TransmitQueue {
    const tracker: DutyCycleTracker
    var processed: nat
    var errors: nat
    var lastTxTime: Option<real>

    constructor (tracker: DutyCycleTracker)
      ensures this.tracker == tracker && processed == 0 && errors == 0 && lastTxTime == None
    {
      this.tracker := tracker;
      processed, errors, lastTxTime := 0, 0, None;
    }

    /** One message: check, transmit, record, log. */
    method TransmitMessage(a: Action) returns (outcome: Outcome)
      requires a.Attempt?
      modifies this, tracker
      ensures outcome == OutcomeOf(old(tracker.records), a, tracker.maxTx, tracker.minPerUser)
      ensures tracker.records == After(old(tracker.records), a, tracker.maxTx, tracker.minPerUser)
      ensures processed == old(processed) + (if outcome == Sent then 1 else 0)
      ensures errors == old(errors) + (if outcome == Failed then 1 else 0)
      ensures lastTxTime == if outcome == Sent then Some(a.sentAt) else old(lastTxTime)
    {
      if a.fault == BeforeCheck {
        return Escaped;
      }
      var estimate := EstimatedDuration(a.payloadBytes);
      var ok := tracker.CanTransmit(a.user, estimate, a.checkedAt);
      if !ok {
        var _ := tracker.GetBudget(a.user, a.loggedAt);
        return Deferred;
      }
      if a.fault.BeforeRecord? {
        outcome := Fail(a.fault.handled);
        return;
      }
      tracker.RecordTransmission(a.user, estimate, a.recordedAt);
      var _ := tracker.GetBudget(a.user, a.loggedAt);
      if a.fault.AfterRecord? {
        outcome := Fail(a.fault.handled);
        return;
      }
      processed := processed + 1;
      lastTxTime := Some(a.sentAt);
      return Sent;
    }

    /** The exception handler, whose own commit may raise before it counts. */
    method Fail(handled: bool) returns (outcome: Outcome)
      modifies `errors
      ensures outcome == if handled then Failed else Escaped
      ensures errors == old(errors) + (if handled then 1 else 0)
    {
      if !handled {
        return Escaped;
      }
      errors := errors + 1;
      return Failed;
    }

    /** One round over the fetched messages: tried in turn until one's exception escapes. */
    method ProcessPending(messages: seq<Action>) returns (escaped: bool)
      requires forall i | 0 <= i < |messages| :: messages[i].Attempt?
      modifies this, tracker
      ensures var tried := messages[..Tried(old(tracker.records), messages, tracker.maxTx, tracker.minPerUser)];
        && tracker.records == AfterAll(old(tracker.records), tried, tracker.maxTx, tracker.minPerUser)
        && processed == old(processed) + Count(old(tracker.records), tried, Sent, tracker.maxTx, tracker.minPerUser)
        && errors == old(errors) + Count(old(tracker.records), tried, Failed, tracker.maxTx, tracker.minPerUser)
        && escaped == Escapes(old(tracker.records), tried, tracker.maxTx, tracker.minPerUser)
    {
      hide OutcomeOf, After;
      ghost var was := tracker.records;
      for i := 0 to |messages|
        invariant Tried(was, messages[..i], tracker.maxTx, tracker.minPerUser) == i
        invariant !Escapes(was, messages[..i], tracker.maxTx, tracker.minPerUser)
        invariant tracker.records == AfterAll(was, messages[..i], tracker.maxTx, tracker.minPerUser)
        invariant processed == old(processed) + Count(was, messages[..i], Sent, tracker.maxTx, tracker.minPerUser)
        invariant errors == old(errors) + Count(was, messages[..i], Failed, tracker.maxTx, tracker.minPerUser)
      {
        assert messages[..i + 1][..i] == messages[..i];
        var outcome := TransmitMessage(messages[i]);
        if outcome == Escaped {
          TriedUpTo(was, messages, i + 1, tracker.maxTx, tracker.minPerUser);
          return true;
        }
      }
      assert messages[..|messages|] == messages;
      return false;
    }

    /** The worker loop's round: an escaped exception is counted, and the rest waits for the next one. */
    method Poll(messages: seq<Action>)
      requires forall i | 0 <= i < |messages| :: messages[i].Attempt?
      modifies this, tracker
      ensures var tried := messages[..Tried(old(tracker.records), messages, tracker.maxTx, tracker.minPerUser)];
        && tracker.records == AfterAll(old(tracker.records), tried, tracker.maxTx, tracker.minPerUser)
        && processed == old(processed) + Count(old(tracker.records), tried, Sent, tracker.maxTx, tracker.minPerUser)
        && errors == old(errors) + Count(old(tracker.records), tried, Failed, tracker.maxTx, tracker.minPerUser)
                                 + Count(old(tracker.records), tried, Escaped, tracker.maxTx, tracker.minPerUser)
    {
      hide OutcomeOf, After;
      ghost var was := tracker.records;
      var escaped := ProcessPending(messages);
      OneEscape(was, messages, tracker.maxTx, tracker.minPerUser);
      if escaped {
        errors := errors + 1;
      }
    }
  }

  /** A poll that an exception ends has tried no more. */
  lemma {:induction false} TriedUpTo(records: seq<TxRecord>, messages: seq<Action>, n: nat, maxTx: real, minPerUser: real)
    requires forall i | 0 <= i < |messages| :: messages[i].Attempt?
    requires n <= |messages| && Tried(records, messages[..n], maxTx, minPerUser) == n
    requires Escapes(records, messages[..n], maxTx, minPerUser)
    ensures Tried(records, messages, maxTx, minPerUser) == n
    decreases messages
  {
    hide Escapes;
    if n == |messages| {
      assert messages[..n] == messages;
    } else {
      var earlier := messages[..|messages| - 1];
      assert earlier[..n] == messages[..n];
      TriedUpTo(records, earlier, n, maxTx, minPerUser);
    }
  }

  /** What ends a poll early is the first escape, and nothing else does. */
  lemma {:induction false} EscapeIsLast(records: seq<TxRecord>, messages: seq<Action>, maxTx: real, minPerUser: real)
    requires forall i | 0 <= i < |messages| :: messages[i].Attempt?
    ensures var n := Tried(records, messages, maxTx, minPerUser);
      && (n < |messages| ==> n > 0 && OutcomeAt(records, messages, n - 1, maxTx, minPerUser) == Escaped)
      && forall i | 0 <= i < n - 1 :: OutcomeAt(records, messages, i, maxTx, minPerUser) != Escaped
    decreases messages
  {
    hide OutcomeOf, AfterAll;
    if messages != [] {
      var last := |messages| - 1;
      var earlier := messages[..last];
      EscapeIsLast(records, earlier, maxTx, minPerUser);
      forall i | 0 <= i < last
        ensures OutcomeAt(records, messages, i, maxTx, minPerUser) == OutcomeAt(records, earlier, i, maxTx, minPerUser)
      {
        assert earlier[..i] == messages[..i];
      }
      var n := Tried(records, earlier, maxTx, minPerUser);
      if n > 0 {
        assert earlier[..n][..n - 1] == messages[..n - 1];
      }
    }
  }

  /** At most the last message tried ends in an escape. */
  lemma {:induction false} OneEscape(records: seq<TxRecord>, messages: seq<Action>, maxTx: real, minPerUser: real)
    requires forall i | 0 <= i < |messages| :: messages[i].Attempt?
    ensures var tried := messages[..Tried(records, messages, maxTx, minPerUser)];
      Count(records, tried, Escaped, maxTx, minPerUser) == if Escapes(records, tried, maxTx, minPerUser) then 1 else 0
    decreases messages
  {
    hide OutcomeOf, AfterAll;
    if messages != [] {
      var earlier := messages[..|messages| - 1];
      var n := Tried(records, earlier, maxTx, minPerUser);
      OneEscape(records, earlier, maxTx, minPerUser);
      assert earlier[..n] == messages[..n];
      if n == |messages| - 1 && !Escapes(records, earlier[..n], maxTx, minPerUser) {
        assert messages[..n + 1] == messages && messages[..n] == earlier;
      }
    }
  }

  // ----- Pruning loses nothing that a later check could see -----

  lemma {:induction false} KeptKept(records: seq<TxRecord>, p: real, t: real)
    requires p <= t
    ensures Kept(Kept(records, p), t) == Kept(records, t)
    decreases records
  {
    if records != [] {
      KeptKept(records[1..], p, t);
      if records[0].timestamp >= p - WINDOW_SECONDS {
        assert ([records[0]] + Kept(records[1..], p))[1..] == Kept(records[1..], p);
      }
    }
  }

  lemma {:induction false} KeptAppend(records: seq<TxRecord>, r: TxRecord, t: real)
    ensures Kept(records + [r], t) == Kept(records, t) + (if r.timestamp >= t - WINDOW_SECONDS then [r] else [])
    decreases records
  {
    if records == [] {
      assert [] + [r] == [r] && [r][1..] == [];
    } else {
      assert (records + [r])[1..] == records[1..] + [r];
      KeptAppend(records[1..], r, t);
    }
  }

  lemma {:induction false} UsedKept(records: seq<TxRecord>, t: real)
    ensures Used(Kept(records, t)) == Since(records, t - WINDOW_SECONDS)
    decreases records
  {
    if records != [] {
      UsedKept(records[1..], t);
      if records[0].timestamp >= t - WINDOW_SECONDS {
        assert ([records[0]] + Kept(records[1..], t))[1..] == Kept(records[1..], t);
      }
    }
  }

  // ----- Safety over runs -----

  /** The tracker, everything ever recorded, and the latest clock reading. */
  datatype State = State(records: seq<TxRecord>, history: seq<TxRecord>, clock: real)

  predicate Recorded(records: seq<TxRecord>, a: Action, maxTx: real, minPerUser: real) {
    a.Attempt? && (a.fault == NoFault || a.fault.AfterRecord?) && Passes(records, a, maxTx, minPerUser)
  }

  function EndOf(a: Action): real { if a.Query? then a.at else a.loggedAt }

  function Next(s: State, a: Action, maxTx: real, minPerUser: real): State {
    State(After(s.records, a, maxTx, minPerUser),
          if Recorded(s.records, a, maxTx, minPerUser) then s.history + [Record(a)] else s.history,
          EndOf(a))
  }

  function Run(s: State, actions: seq<Action>, maxTx: real, minPerUser: real): State {
    if actions == [] then s
    else Next(Run(s, actions[..|actions| - 1], maxTx, minPerUser), actions[|actions| - 1], maxTx, minPerUser)
  }

  /** One worker and a clock that never runs backwards, within an action or between two. */
  predicate Follows(clock: real, a: Action) {
    if a.Query? then clock <= a.at else clock <= a.checkedAt <= a.sentAt <= a.recordedAt <= a.loggedAt
  }

  function ClockAfter(start: real, actions: seq<Action>): real {
    if actions == [] then start else EndOf(actions[|actions| - 1])
  }

  predicate Monotone(start: real, actions: seq<Action>) {
    actions == [] || (
      var earlier := actions[..|actions| - 1];
      Monotone(start, earlier) && Follows(ClockAfter(start, earlier), actions[|actions| - 1]))
  }

  /** Airtime of the closed hour that starts at `from`. */
  function HourFrom(history: seq<TxRecord>, from: real): real { Between(history, from, from + WINDOW_SECONDS) }

  /** Every closed hour carries at most the limit. */
  ghost predicate Safe(history: seq<TxRecord>, maxTx: real) {
    forall from: real :: HourFrom(history, from) <= maxTx
  }

  /** From the clock on, pruned list and full history show a check the same records. */
  ghost predicate Agree(s: State) {
    forall t: real | t >= s.clock :: Kept(s.records, t) == Kept(s.history, t)
  }

  predicate Past(s: State) {
    NoNegative(s.history) && forall i | 0 <= i < |s.history| :: s.history[i].timestamp <= s.clock
  }

  lemma NextAgrees(s: State, a: Action, maxTx: real, minPerUser: real)
    requires Agree(s) && Follows(s.clock, a)
    ensures Agree(Next(s, a, maxTx, minPerUser))
  {
    hide Passes, Record;
    var next := Next(s, a, maxTx, minPerUser);
    forall t: real | t >= next.clock
      ensures Kept(next.records, t) == Kept(next.history, t)
    {
      assert Kept(s.records, t) == Kept(s.history, t);
      if a.Query? {
        KeptKept(s.records, a.at, t);
      } else {
        var checked := Kept(s.records, a.checkedAt);
        KeptKept(s.records, a.checkedAt, t);
        KeptKept(checked, a.loggedAt, t);
        KeptKept(checked + [Record(a)], a.loggedAt, t);
        KeptAppend(checked, Record(a), t);
        KeptAppend(s.history, Record(a), t);
      }
    }
  }

  /** The decisive step: what a check lets through fits into every hour it can fall in, however late it is stamped. */
  lemma RecordIsSafe(s: State, a: Action, maxTx: real, minPerUser: real)
    requires Agree(s) && Past(s) && Safe(s.history, maxTx)
    requires Recorded(s.records, a, maxTx, minPerUser) && Follows(s.clock, a)
    ensures Safe(s.history + [Record(a)], maxTx)
  {
    var r := Record(a);
    forall from: real
      ensures HourFrom(s.history + [r], from) <= maxTx
    {
      var inHour := (x: TxRecord) => from <= x.timestamp <= from + WINDOW_SECONDS;
      SumIfAppend(s.history, r, inHour);
      assert HourFrom(s.history, from) <= maxTx;
      if inHour(r) {
        assert Kept(s.records, a.checkedAt) == Kept(s.history, a.checkedAt);
        UsedKept(s.history, a.checkedAt);
        SumIfMonotone(s.history, inHour, (x: TxRecord) => x.timestamp >= a.checkedAt - WINDOW_SECONDS);
      }
    }
  }

  lemma NextIsSafe(s: State, a: Action, maxTx: real, minPerUser: real)
    requires Agree(s) && Past(s) && Safe(s.history, maxTx) && Follows(s.clock, a)
    ensures var next := Next(s, a, maxTx, minPerUser); Agree(next) && Past(next) && Safe(next.history, maxTx)
  {
    NextAgrees(s, a, maxTx, minPerUser);
    if Recorded(s.records, a, maxTx, minPerUser) {
      RecordIsSafe(s, a, maxTx, minPerUser);
    }
  }

  /**
   * With one worker and a monotone clock, whatever is sent, deferred, failed or queried:
   * no closed hour of the full history exceeds the limit, and the pruned list decides
   * every later check as the full history would.
   */
  lemma {:induction false} RunIsSafe(start: real, actions: seq<Action>, maxTx: real, minPerUser: real)
    requires maxTx >= 0.0 && Monotone(start, actions)
    ensures var s := Run(State([], [], start), actions, maxTx, minPerUser);
            Safe(s.history, maxTx) && Agree(s) && Past(s)
    ensures Run(State([], [], start), actions, maxTx, minPerUser).clock == ClockAfter(start, actions)
    ensures Run(State([], [], start), actions, maxTx, minPerUser).records == AfterAll([], actions, maxTx, minPerUser)
    decreases actions
  {
    if actions == [] {
      assert forall from: real :: HourFrom([], from) == 0.0;
    } else {
      var n := |actions| - 1;
      var s := Run(State([], [], start), actions[..n], maxTx, minPerUser);
      RunIsSafe(start, actions[..n], maxTx, minPerUser);
      NextIsSafe(s, actions[n], maxTx, minPerUser);
    }
  }

  // ----- When budget frees up -----

  lemma {:induction false} KeptAll(records: seq<TxRecord>, t: real)
    ensures Kept(records, t) == records <==> forall i | 0 <= i < |records| :: records[i].timestamp >= t - WINDOW_SECONDS
    decreases records
  {
    if records != [] {
      KeptAll(records[1..], t);
      KeptLength(records[1..], t);
      assert forall i | 0 <= i < |records[1..]| :: records[1..][i] == records[i + 1];
      assert records == [records[0]] + records[1..];
      if records[0].timestamp >= t - WINDOW_SECONDS {
        assert Kept(records, t)[1..] == Kept(records[1..], t);
      }
    }
  }

  lemma {:induction false} KeptLength(records: seq<TxRecord>, t: real)
    ensures |Kept(records, t)| <= |records|
    decreases records
  {
    if records != [] {
      KeptLength(records[1..], t);
    }
  }

  /**
   * The wait that get_budget announces is the first instant after which a record leaves the window,
   * and at that instant itself nothing has left: a retry exactly then is still refused.
   */
  lemma WaitIsShort(records: seq<TxRecord>, user: int, now: real, maxTx: real, minPerUser: real, t: real)
    requires Kept(records, now) == records && records != []
    requires !BudgetOf(records, user, now, maxTx, minPerUser).canTransmit
    ensures var b := BudgetOf(records, user, now, maxTx, minPerUser);
            Kept(records, t) == records <==> t <= now + b.nextAvailableIn
    ensures var b := BudgetOf(records, user, now, maxTx, minPerUser);
            var retry := now + b.nextAvailableIn;
            !BudgetOf(Kept(records, retry), user, retry, maxTx, minPerUser).canTransmit
  {
    var b := BudgetOf(records, user, now, maxTx, minPerUser);
    KeptAll(records, now);
    KeptAll(records, t);
    KeptAll(records, now + b.nextAvailableIn);
  }
}
