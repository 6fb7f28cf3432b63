/** The per-user half of the duty-cycle limiter, told by the full history (backend/rate_limiter.py). */
module FairShare {
  import opened Airtime
  import opened DutyCycle

  /** One user's airtime since an instant. */
  function UserSince(history: seq<TxRecord>, user: int, from: real): real {
    SumIf(history, (r: TxRecord) => r.userId == user && r.timestamp >= from)
  }

  /** Who transmitted since an instant. */
  function UsersSince(history: seq<TxRecord>, from: real): set<int> {
    set i | 0 <= i < |history| && history[i].timestamp >= from :: history[i].userId
  }

  /** An equal part of the limit for everyone who transmitted, at least the minimum. */
  function ShareSince(history: seq<TxRecord>, from: real, maxTx: real, minPerUser: real): real {
    var users := |UsersSince(history, from)|;
    var part := if users <= 1 then maxTx else maxTx / (users as real);
    if part < minPerUser then minPerUser else part
  }

  // ----- Pruned records and full history -----

  lemma {:induction false} UserKept(history: seq<TxRecord>, user: int, t: real)
    ensures UsedBy(Kept(history, t), user) == UserSince(history, user, t - 3600.0)
    decreases history
  {
    if history != [] {
      UserKept(history[1..], user, t);
      if history[0].timestamp >= t - WINDOW_SECONDS {
        assert ([history[0]] + Kept(history[1..], t))[1..] == Kept(history[1..], t);
      }
    }
  }

  lemma {:induction false} KeptIn(history: seq<TxRecord>, t: real, r: TxRecord)
    ensures r in Kept(history, t) <==> r in history && r.timestamp >= t - 3600.0
    decreases history
  {
    if history != [] {
      KeptIn(history[1..], t, r);
      assert r in history <==> r == history[0] || r in history[1..];
    }
  }

  lemma UsersKept(history: seq<TxRecord>, t: real)
    ensures (set i | 0 <= i < |Kept(history, t)| :: Kept(history, t)[i].userId) == UsersSince(history, t - 3600.0)
  {
    var kept := Kept(history, t);
    var users := set i | 0 <= i < |kept| :: kept[i].userId;
    forall u
      ensures u in users <==> u in UsersSince(history, t - 3600.0)
    {
      if u in users {
        var i :| 0 <= i < |kept| && kept[i].userId == u;
        KeptIn(history, t, kept[i]);
        assert kept[i] in history;
      }
      if u in UsersSince(history, t - 3600.0) {
        var i :| 0 <= i < |history| && history[i].timestamp >= t - 3600.0 && history[i].userId == u;
        KeptIn(history, t, history[i]);
        assert history[i] in kept;
      }
    }
  }

  lemma ShareKept(history: seq<TxRecord>, t: real, maxTx: real, minPerUser: real)
    ensures UserBudget(Kept(history, t), maxTx, minPerUser) == ShareSince(history, t - 3600.0, maxTx, minPerUser)
  {
    UsersKept(history, t);
    hide Kept, UsersSince;
    assert maxTx / 1.0 == maxTx;
  }

  // ----- Over runs -----

  function StateAfter(start: real, actions: seq<Action>, maxTx: real, minPerUser: real): State {
    Run(State([], [], start), actions, maxTx, minPerUser)
  }

  lemma {:induction false} RunAgrees(start: real, actions: seq<Action>, maxTx: real, minPerUser: real)
    requires Monotone(start, actions)
    ensures Agree(StateAfter(start, actions, maxTx, minPerUser))
    ensures StateAfter(start, actions, maxTx, minPerUser).clock == ClockAfter(start, actions)
    decreases actions
  {
    hide After;
    if actions != [] {
      var n := |actions| - 1;
      RunAgrees(start, actions[..n], maxTx, minPerUser);
      NextAgrees(StateAfter(start, actions[..n], maxTx, minPerUser), actions[n], maxTx, minPerUser);
    }
  }

  /** Both limits, from the full history: that of the station and the user's share of it. */
  predicate Fits(history: seq<TxRecord>, user: int, duration: real, at: real, maxTx: real, minPerUser: real) {
    && Since(history, at - 3600.0) + duration <= maxTx
    && UserSince(history, user, at - 3600.0) + duration <= ShareSince(history, at - 3600.0, maxTx, minPerUser)
  }

  lemma AllowedIffFits(history: seq<TxRecord>, user: int, duration: real, at: real, maxTx: real, minPerUser: real)
    ensures Allowed(Kept(history, at), user, duration, maxTx, minPerUser) <==> Fits(history, user, duration, at, maxTx, minPerUser)
  {
    UsedKept(history, at);
    UserKept(history, user, at);
    ShareKept(history, at, maxTx, minPerUser);
    hide Kept, Used, UsedBy, UserBudget, UserSince, ShareSince, Since;
  }

  /**
   * On every run, an attempt passes the check exactly when its airtime fits the station's limit and the user's
   * fair share, both counted on everything recorded in the hour before the check; what does not pass waits.
   */
  lemma PassesIff(start: real, actions: seq<Action>, a: Action, maxTx: real, minPerUser: real)
    requires Monotone(start, actions) && a.Attempt? && Follows(ClockAfter(start, actions), a)
    ensures var s := StateAfter(start, actions, maxTx, minPerUser);
      Passes(s.records, a, maxTx, minPerUser) <==>
        Fits(s.history, a.user, ((a.payloadBytes + 55) * 8) as real / 700.0, a.checkedAt, maxTx, minPerUser)
    ensures var s := StateAfter(start, actions, maxTx, minPerUser);
      var fits := Fits(s.history, a.user, ((a.payloadBytes + 55) * 8) as real / 700.0, a.checkedAt, maxTx, minPerUser);
      OutcomeOf(s.records, a, maxTx, minPerUser) ==
        (match a.fault
         case NoFault => if fits then Sent else Deferred
         case BeforeCheck => Escaped
         case BeforeRecord(handled) => if !fits then Deferred else if handled then Failed else Escaped
         case AfterRecord(handled) => if !fits then Deferred else if handled then Failed else Escaped)
  {
    RunAgrees(start, actions, maxTx, minPerUser);
    var s := StateAfter(start, actions, maxTx, minPerUser);
    assert Kept(s.records, a.checkedAt) == Kept(s.history, a.checkedAt);
    AllowedIffFits(s.history, a.user, EstimatedDuration(a.payloadBytes), a.checkedAt, maxTx, minPerUser);
    hide StateAfter, Allowed, Fits, Kept;
  }

  lemma {:induction false} MonotonePrefix(start: real, actions: seq<Action>, i: nat)
    requires Monotone(start, actions) && i < |actions|
    ensures Monotone(start, actions[..i]) && Follows(ClockAfter(start, actions[..i]), actions[i])
    decreases actions
  {
    if i < |actions| - 1 {
      MonotonePrefix(start, actions[..|actions| - 1], i);
      assert actions[..|actions| - 1][..i] == actions[..i];
    }
  }

  lemma Estimate(payloadBytes: nat)
    ensures EstimatedDuration(payloadBytes) == ((payloadBytes + 55) * 8) as real / 700.0
  {}

  lemma RunNext(start: real, actions: seq<Action>, i: nat, maxTx: real, minPerUser: real)
    requires i < |actions|
    ensures StateAfter(start, actions[..i + 1], maxTx, minPerUser) ==
      Next(StateAfter(start, actions[..i], maxTx, minPerUser), actions[i], maxTx, minPerUser)
  {
    assert actions[..i + 1][..i] == actions[..i];
    hide Next;
  }

  /** What enters the history is exactly what fits and is neither interrupted before its record nor before its check. */
  lemma RecordedIff(start: real, actions: seq<Action>, i: nat, maxTx: real, minPerUser: real)
    requires Monotone(start, actions) && i < |actions| && actions[i].Attempt?
    ensures var s, a, d := StateAfter(start, actions[..i], maxTx, minPerUser), actions[i], ((actions[i].payloadBytes + 55) * 8) as real / 700.0;
      StateAfter(start, actions[..i + 1], maxTx, minPerUser).history ==
        if (a.fault == NoFault || a.fault.AfterRecord?) && Fits(s.history, a.user, d, a.checkedAt, maxTx, minPerUser)
        then s.history + [TxRecord(a.user, a.recordedAt, d)] else s.history
  {
    hide Fits, Passes, After, Monotone, StateAfter, OutcomeOf, ClockAfter, Follows, EstimatedDuration;
    MonotonePrefix(start, actions, i);
    PassesIff(start, actions[..i], actions[i], maxTx, minPerUser);
    RunNext(start, actions, i, maxTx, minPerUser);
    Estimate(actions[i].payloadBytes);
  }

  // ----- What get_budget announces -----

  /** The budget is what the check allows: an attempt passes exactly when its airtime is within what remains. */
  lemma RemainingIsExact(records: seq<TxRecord>, user: int, now: real, duration: real, maxTx: real, minPerUser: real)
    requires duration > 0.0
    ensures var b := BudgetOf(records, user, now, maxTx, minPerUser);
      && b.remaining >= 0.0 && (b.canTransmit <==> b.remaining > 0.0)
      && (Allowed(records, user, duration, maxTx, minPerUser) <==> duration <= b.remaining)
  {}

  /** The other fields, on every run. */
  lemma BudgetOverRuns(start: real, actions: seq<Action>, user: int, now: real, maxTx: real, minPerUser: real)
    requires Monotone(start, actions) && ClockAfter(start, actions) <= now
    ensures var s := StateAfter(start, actions, maxTx, minPerUser);
      var b, share := BudgetOf(Kept(s.records, now), user, now, maxTx, minPerUser), ShareSince(s.history, now - 3600.0, maxTx, minPerUser);
      && b.used == UserSince(s.history, user, now - 3600.0)
      && b.total <= share && b.total <= maxTx && (b.total == share || b.total == maxTx)
      && b.windowEnd == now && b.windowStart == now - 3600.0
      && (b.canTransmit || Kept(s.records, now) == [] ==> b.nextAvailableIn == 0.0)
  {
    RunAgrees(start, actions, maxTx, minPerUser);
    var s := StateAfter(start, actions, maxTx, minPerUser);
    assert Kept(s.records, now) == Kept(s.history, now);
    UserKept(s.history, user, now);
    ShareKept(s.history, now, maxTx, minPerUser);
    hide StateAfter, Kept, UsedBy, UserBudget, UserSince, ShareSince;
  }
}
