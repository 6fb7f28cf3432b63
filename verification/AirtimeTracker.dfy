/** The tumbling-window duty-cycle tracker (native/include/airtime_calculator.h). */
module AirtimeTracker {
  import opened Airtime

  const EPOCHS := 0x1_0000_0000   // uint32_t
  const WINDOW_SECONDS := 3600

  datatype Window = Window(start: nat, used: real, last: nat, count: nat)

  /** Unsigned subtraction of two epochs. */
  function Elapsed(now: nat, start: nat): nat
    requires now < EPOCHS && start < EPOCHS
  {
    if now >= start then now - start else now + EPOCHS - start
  }

  function Rolled(w: Window, now: nat): Window
    requires now < EPOCHS && w.start < EPOCHS
  {
    if Elapsed(now, w.start) >= WINDOW_SECONDS then Window(now, 0.0, w.last, w.count) else w
  }

  function Charged(w: Window, seconds: real, now: nat): Window {
    Window(w.start, w.used + seconds, now, w.count + 1)
  }

  class OolDutyCycleTracker {
    const maxTx: real
    var used: real
    var windowStart: nat
    var lastTx: nat
    var txCount: nat

    function View(): Window
      reads this
    {
      Window(windowStart, used, lastTx, txCount)
    }

    constructor (dutyPercent: int, now: nat)
      requires now < EPOCHS
      ensures maxTx == dutyPercent as real * 36.0
      ensures View() == Window(now, 0.0, 0, 0)
    {
      maxTx := (dutyPercent as real / 100.0) * (WINDOW_SECONDS as real);
      used, windowStart, lastTx, txCount := 0.0, now, 0, 0;
    }

    method CanTransmit(seconds: real, now: nat) returns (ok: bool)
      requires now < EPOCHS && windowStart < EPOCHS
      modifies this
      ensures View() == Rolled(old(View()), now)
      ensures ok <==> View().used + seconds <= maxTx
    {
      if Elapsed(now, windowStart) >= WINDOW_SECONDS {
        windowStart := now;
        used := 0.0;
      }
      return used + seconds <= maxTx;
    }

    method RecordTx(seconds: real, now: nat)
      modifies this
      ensures View() == Charged(old(View()), seconds, now)
    {
      used := used + seconds;
      lastTx := now;
      txCount := txCount + 1;
    }

    /** The gate: check, then record at the same time if allowed. */
    method Transmit(seconds: real, now: nat) returns (ok: bool)
      requires now < EPOCHS && windowStart < EPOCHS
      modifies this
      ensures ok <==> Rolled(old(View()), now).used + seconds <= maxTx
      ensures View() == Gated(old(View()), seconds, now, maxTx)
    {
      ok := CanTransmit(seconds, now);
      if ok {
        RecordTx(seconds, now);
      }
    }
  }

  function Gated(w: Window, seconds: real, now: nat, maxTx: real): Window
    requires now < EPOCHS && w.start < EPOCHS
  {
    var rolled := Rolled(w, now);
    if rolled.used + seconds <= maxTx then Charged(rolled, seconds, now) else rolled
  }

  // ----- Runs -----

  /** A gated transmission at a time that does not wrap; the tracker sees it as an epoch. */
  datatype Request = Request(seconds: real, at: nat)

  /** The tracker, every transmission made, and the unwrapped times of the window's start and of the last call. */
  datatype State = State(window: Window, history: seq<TxRecord>, startedAt: nat, clock: nat)

  function Start(at: nat): State { State(Window(at % EPOCHS, 0.0, 0, 0), [], at, at) }

  predicate Rolls(w: Window, at: nat)
    requires w.start < EPOCHS
  {
    Elapsed(at % EPOCHS, w.start) >= WINDOW_SECONDS
  }

  function Next(s: State, r: Request, maxTx: real): State
    requires s.window.start < EPOCHS
  {
    State(Gated(s.window, r.seconds, r.at % EPOCHS, maxTx),
          if Rolled(s.window, r.at % EPOCHS).used + r.seconds <= maxTx
          then s.history + [TxRecord(0, r.at as real, r.seconds)] else s.history,
          if Rolls(s.window, r.at) then r.at else s.startedAt,
          r.at)
  }

  function Run(s: State, requests: seq<Request>, maxTx: real): (end: State)
    requires s.window.start < EPOCHS
    ensures end.window.start < EPOCHS
  {
    if requests == [] then s else Next(Run(s, requests[..|requests| - 1], maxTx), requests[|requests| - 1], maxTx)
  }

  predicate Ordered(clock: nat, requests: seq<Request>) {
    && (forall i | 0 <= i < |requests| :: clock <= requests[i].at && requests[i].seconds >= 0.0)
    && (forall i, j | 0 <= i < j < |requests| :: requests[i].at <= requests[j].at)
  }

  /** Airtime of the closed window's length that starts at `from`. */
  function SpanFrom(history: seq<TxRecord>, from: real): real {
    Between(history, from, from + WINDOW_SECONDS as real)
  }

  /** Airtime of the last WINDOW_SECONDS before an instant, that instant excluded. */
  function JustBefore(history: seq<TxRecord>, t: real): real {
    SumIf(history, (r: TxRecord) => t - WINDOW_SECONDS as real <= r.timestamp < t)
  }

  predicate Timed(s: State) {
    && s.window.start == s.startedAt % EPOCHS
    && s.startedAt <= s.clock
    && !Rolls(s.window, s.clock)
    && NoNegative(s.history)
    && forall i | 0 <= i < |s.history| :: s.history[i].timestamp <= s.clock as real
  }

  predicate Charges(s: State, maxTx: real) {
    && s.window.used == Since(s.history, s.startedAt as real) <= maxTx
    && JustBefore(s.history, s.startedAt as real) <= maxTx
  }

  ghost predicate Bounded(history: seq<TxRecord>, limit: real) {
    forall from: real :: SpanFrom(history, from) <= limit
  }

  ghost predicate Invariant(s: State, maxTx: real) {
    Timed(s) && Charges(s, maxTx) && Bounded(s.history, 2.0 * maxTx)
  }

  /** Wrapped subtraction never exceeds the true distance. */
  lemma ElapsedIsShort(at: nat, start: nat)
    requires start <= at
    ensures Elapsed(at % EPOCHS, start % EPOCHS) <= at - start
  {
    assert at == EPOCHS * (at / EPOCHS) + at % EPOCHS;
    assert start == EPOCHS * (start / EPOCHS) + start % EPOCHS;
  }

  lemma NoneSince(history: seq<TxRecord>, t: real)
    requires NoNegative(history) && forall i | 0 <= i < |history| :: history[i].timestamp < t
    ensures Since(history, t) == 0.0
    decreases history
  {
    if history != [] {
      assert forall i | 0 <= i < |history[1..]| :: history[1..][i] == history[i + 1];
      NoneSince(history[1..], t);
    }
  }

  /** Opening a new window: it is empty, and what the hour before it holds was charged to the old one. */
  lemma RollKeeps(s: State, at: nat, maxTx: real)
    requires Timed(s) && Charges(s, maxTx) && s.clock <= at && Rolls(s.window, at)
    ensures Since(s.history, at as real) == 0.0 && JustBefore(s.history, at as real) <= maxTx
  {
    assert at != s.clock;
    NoneSince(s.history, at as real);
    ElapsedIsShort(at, s.startedAt);
    assert at as real - WINDOW_SECONDS as real >= s.startedAt as real;
    SumIfMonotone(s.history, (r: TxRecord) => at as real - WINDOW_SECONDS as real <= r.timestamp < at as real,
                  (r: TxRecord) => r.timestamp >= s.startedAt as real);
  }

  /** A charge fits the open window, and every span it falls in reaches back over one more window at most. */
  lemma ChargeKeeps(history: seq<TxRecord>, r: TxRecord, startedAt: real, maxTx: real)
    requires NoNegative(history) && r.duration >= 0.0 && startedAt <= r.timestamp
    requires forall i | 0 <= i < |history| :: history[i].timestamp <= r.timestamp
    requires Since(history, startedAt) + r.duration <= maxTx && JustBefore(history, startedAt) <= maxTx
    requires Bounded(history, 2.0 * maxTx)
    ensures Since(history + [r], startedAt) == Since(history, startedAt) + r.duration
    ensures JustBefore(history + [r], startedAt) == JustBefore(history, startedAt)
    ensures Bounded(history + [r], 2.0 * maxTx)
  {
    var open := (x: TxRecord) => x.timestamp >= startedAt;
    var before := (x: TxRecord) => startedAt - WINDOW_SECONDS as real <= x.timestamp < startedAt;
    SumIfAppend(history, r, open);
    SumIfAppend(history, r, before);
    forall from: real
      ensures SpanFrom(history + [r], from) <= 2.0 * maxTx
    {
      var span := (x: TxRecord) => from <= x.timestamp <= from + WINDOW_SECONDS as real;
      SumIfAppend(history, r, span);
      assert SpanFrom(history, from) <= 2.0 * maxTx;
      if span(r) {
        SumIfSplit(history, open, before, span);
      }
    }
  }

  lemma NextKeeps(s: State, r: Request, maxTx: real)
    requires Invariant(s, maxTx) && maxTx >= 0.0
    requires s.clock <= r.at && r.seconds >= 0.0
    ensures Invariant(Next(s, r, maxTx), maxTx)
  {
    var startedAt := if Rolls(s.window, r.at) then r.at else s.startedAt;
    if Rolls(s.window, r.at) {
      RollKeeps(s, r.at, maxTx);
    }
    if Rolled(s.window, r.at % EPOCHS).used + r.seconds <= maxTx {
      ChargeKeeps(s.history, TxRecord(0, r.at as real, r.seconds), startedAt as real, maxTx);
    }
  }

  /**
   * Gated use with a monotone time, the 32-bit epoch wrapping as often as it likes:
   * any closed span as long as the window, wherever it lies, carries at most twice the limit.
   */
  lemma {:induction false} AtMostTwice(start: nat, requests: seq<Request>, maxTx: real)
    requires maxTx >= 0.0 && Ordered(start, requests)
    ensures Invariant(Run(Start(start), requests, maxTx), maxTx)
    ensures Bounded(Run(Start(start), requests, maxTx).history, 2.0 * maxTx)
    ensures Run(Start(start), requests, maxTx).clock == if requests == [] then start else requests[|requests| - 1].at
    decreases requests
  {
    if requests == [] {
      assert forall from: real :: SpanFrom([], from) == 0.0;
    } else {
      var n := |requests| - 1;
      AtMostTwice(start, requests[..n], maxTx);
      NextKeeps(Run(Start(start), requests[..n], maxTx), requests[n], maxTx);
    }
  }

  lemma TwoSteps(s: State, first: Request, second: Request, maxTx: real)
    requires s.window.start < EPOCHS
    ensures Next(s, first, maxTx).window.start < EPOCHS
    ensures Run(s, [first, second], maxTx) == Next(Next(s, first, maxTx), second, maxTx)
  {
    hide Next;
    assert [first, second][..1] == [first] && [first][..0] == [];
    assert Run(s, [first], maxTx) == Next(Run(s, [], maxTx), first, maxTx);
  }

  /** Twice the limit is reached: a full budget in a window's last second and another in the next window's first. */
  lemma TwiceIsReached(maxTx: real)
    requires maxTx > 0.0
    ensures var requests := [Request(maxTx, 3599), Request(maxTx, 3600)];
            Ordered(0, requests) && Between(Run(Start(0), requests, maxTx).history, 3599.0, 3600.0) == 2.0 * maxTx
  {
    var first, second := Request(maxTx, 3599), Request(maxTx, 3600);
    var record, again := TxRecord(0, 3599.0, maxTx), TxRecord(0, 3600.0, maxTx);
    TwoSteps(Start(0), first, second, maxTx);
    assert Next(Start(0), first, maxTx) == State(Window(0, maxTx, 3599, 1), [record], 0, 3599);
    assert Run(Start(0), [first, second], maxTx).history == [record, again];
    var inSecond := (r: TxRecord) => 3599.0 <= r.timestamp <= 3600.0;
    SumIfAppend([], record, inSecond);
    SumIfAppend([record], again, inSecond);
    assert [] + [record] == [record] && [record] + [again] == [record, again];
  }

  // ----- What is let through -----

  /** Wrapped subtraction is the true distance, less whole turns of the counter. */
  lemma ElapsedIs(at: nat, start: nat)
    requires start <= at
    ensures Elapsed(at % EPOCHS, start % EPOCHS) == (at - start) % EPOCHS
  {
    var a, b := at / EPOCHS, start / EPOCHS;
    assert at - start == EPOCHS * (a - b) + (at % EPOCHS - start % EPOCHS);
    if at % EPOCHS >= start % EPOCHS {
      Turns(at - start, a - b, at % EPOCHS - start % EPOCHS);
    } else {
      Turns(at - start, a - b - 1, at % EPOCHS - start % EPOCHS + EPOCHS);
    }
  }

  lemma Turns(n: nat, turns: int, rest: nat)
    requires n == EPOCHS * turns + rest && rest < EPOCHS
    ensures n % EPOCHS == rest
  {}

  /**
   * On every run: the window moves to a request that comes an hour or more after its start, and a request is let through
   * exactly when its airtime fits the limit together with what was sent in its window.
   */
  lemma LetThroughIff(start: nat, requests: seq<Request>, r: Request, maxTx: real)
    requires maxTx >= 0.0 && Ordered(start, requests + [r])
    ensures var s, next := Run(Start(start), requests, maxTx), Run(Start(start), requests + [r], maxTx);
      && s.startedAt <= r.at
      && next.startedAt == (if (r.at - s.startedAt) % 0x1_0000_0000 >= 3600 then r.at else s.startedAt)
      && next.history ==
           if (if next.startedAt != s.startedAt then 0.0 else Since(s.history, s.startedAt as real)) + r.seconds <= maxTx
           then s.history + [TxRecord(0, r.at as real, r.seconds)] else s.history
  {
    assert (requests + [r])[..|requests|] == requests && (requests + [r])[|requests|] == r;
    OrderedPrefix(start, requests, r);
    AtMostTwice(start, requests, maxTx);
    ElapsedIs(r.at, Run(Start(start), requests, maxTx).startedAt);
  }

  lemma OrderedPrefix(start: nat, requests: seq<Request>, r: Request)
    requires Ordered(start, requests + [r])
    ensures Ordered(start, requests) && start <= r.at && (requests != [] ==> requests[|requests| - 1].at <= r.at)
  {
    var all := requests + [r];
    assert forall i | 0 <= i < |requests| :: all[i] == requests[i];
    assert all[|requests|] == r;
  }

  predicate LastSent(s: State, r: Request)
    requires s.history != []
  {
    s.history[|s.history| - 1] == TxRecord(0, r.at as real, r.seconds) && s.window.last == r.at % 0x1_0000_0000
  }

  /** The statistics: transmissions made, and the epoch of the last one. */
  lemma {:induction false} StatisticsOverRuns(start: nat, requests: seq<Request>, maxTx: real)
    ensures var s := Run(Start(start), requests, maxTx);
      && s.window.count == |s.history|
      && (s.history == [] ==> s.window.last == 0)
      && (s.history != [] ==> exists i :: 0 <= i < |requests| && LastSent(s, requests[i]))
    decreases requests
  {
    if requests != [] {
      var n := |requests| - 1;
      StatisticsOverRuns(start, requests[..n], maxTx);
      var before, s := Run(Start(start), requests[..n], maxTx), Run(Start(start), requests, maxTx);
      if s.history == before.history {
        if s.history != [] {
          var i :| 0 <= i < n && LastSent(before, requests[..n][i]);
          assert LastSent(s, requests[i]);
        }
      } else {
        assert LastSent(s, requests[n]);
      }
    }
  }
}
