/** What any mix of good and lost frames leaves in the concealment state (native/include/packet_loss_recovery.h). */
module ConcealmentRuns {
  import opened Concealment
  import opened Noise

  datatype Event = Good(pcm: seq<int>) | Lost

  function Apply(dsp: Dsp, s: Plc, e: Event): (after: Plc)
    requires WellFormed(s)
    ensures WellFormed(after)
  {
    match e
    case Good(pcm) => AfterGood(dsp, s, pcm)
    case Lost => AfterLoss(s)
  }

  function Run(dsp: Dsp, s: Plc, events: seq<Event>): (after: Plc)
    requires WellFormed(s)
    ensures WellFormed(after)
  {
    if events == [] then s else Apply(dsp, Run(dsp, s, events[..|events| - 1]), events[|events| - 1])
  }

  // ----- What happened, read off the events -----

  /** The good frames, clipped as they are stored; an empty one is not a frame. */
  function GoodFrames(events: seq<Event>): seq<seq<int>> {
    if events == [] then []
    else
      var earlier, last := GoodFrames(events[..|events| - 1]), events[|events| - 1];
      if last.Good? && last.pcm != [] then earlier + [Clipped(last.pcm)] else earlier
  }

  function Losses(events: seq<Event>): nat {
    if events == [] then 0 else Losses(events[..|events| - 1]) + if events[|events| - 1].Lost? then 1 else 0
  }

  /** Whether the latest frame was lost. */
  predicate InBurst(events: seq<Event>) {
    events != [] &&
    var last := events[|events| - 1];
    last.Lost? || (last.pcm == [] && InBurst(events[..|events| - 1]))
  }

  /** Runs of consecutive losses. */
  function Bursts(events: seq<Event>): nat {
    if events == [] then 0
    else
      var earlier := events[..|events| - 1];
      Bursts(earlier) + if events[|events| - 1].Lost? && !InBurst(earlier) then 1 else 0
  }

  /** Whether a frame was lost before two good ones had come. */
  predicate LostEarly(events: seq<Event>) {
    events != [] &&
    var earlier := events[..|events| - 1];
    LostEarly(earlier) || (events[|events| - 1].Lost? && |GoodFrames(earlier)| < 2)
  }

  /** Losses counted that did not happen. */
  function Phantom(strategy: Strategy, events: seq<Event>): nat {
    match strategy
    case NEURAL_REPAIR => MAX_REPEAT * Bursts(events)
    case INTERPOLATE => if LostEarly(events) then 1 else 0
    case SILENCE | REPEAT_DECAY | COMFORT_NOISE => 0
  }

  // ----- The invariants -----

  /** The ring holds the last four good frames, or as many as there were, latest first behind the head. */
  predicate HoldsLast(s: Plc, frames: seq<seq<int>>)
    requires WellFormed(s)
  {
    && s.count == (if |frames| < HISTORY_FRAMES then |frames| else HISTORY_FRAMES)
    && s.head == |frames| % HISTORY_FRAMES
    && forall back | 1 <= back <= s.count :: Recent(s, back) == frames[|frames| - back]
  }

  lemma NextHead(n: nat)
    ensures (n + 1) % HISTORY_FRAMES == (n % HISTORY_FRAMES + 1) % HISTORY_FRAMES
  {}

  /** After a write, what was one place nearer is now `back` places behind. */
  lemma Behind(head: nat, back: nat)
    requires head < HISTORY_FRAMES && 1 <= back <= HISTORY_FRAMES
    ensures var next := (head + 1) % HISTORY_FRAMES;
            var place := (next + HISTORY_FRAMES - back) % HISTORY_FRAMES;
            if back == 1 then place == head else place != head && place == (head + HISTORY_FRAMES - (back - 1)) % HISTORY_FRAMES
  {}

  lemma GoodHoldsLast(dsp: Dsp, s: Plc, pcm: seq<int>, frames: seq<seq<int>>)
    requires WellFormed(s) && HoldsLast(s, frames) && pcm != []
    ensures HoldsLast(AfterGood(dsp, s, pcm), frames + [Clipped(pcm)])
  {
    var after := AfterGood(dsp, s, pcm);
    NextHead(|frames|);
    forall back | 1 <= back <= after.count
      ensures Recent(after, back) == (frames + [Clipped(pcm)])[|frames| + 1 - back]
    {
      Behind(s.head, back);
      hide Clipped;
      if back > 1 {
        assert Recent(s, back - 1) == frames[|frames| - (back - 1)];
      }
    }
  }

  lemma LossHoldsLast(s: Plc, frames: seq<seq<int>>)
    requires WellFormed(s) && HoldsLast(s, frames)
    ensures HoldsLast(AfterLoss(s), frames)
  {
    forall back | 1 <= back <= s.count
      ensures Recent(AfterLoss(s), back) == Recent(s, back)
    {}
  }

  /** The history: for every run, the last frames in order. */
  lemma {:induction false} RingHoldsLastFrames(dsp: Dsp, frameSamples: nat, strategy: Strategy, lfsr: Lfsr, events: seq<Event>)
    ensures HoldsLast(Run(dsp, Start(frameSamples, strategy, lfsr), events), GoodFrames(events))
    decreases events
  {
    hide HoldsLast, AfterGood, AfterLoss, Clipped;
    if events == [] {
      NothingHeld(frameSamples, strategy, lfsr);
    } else {
      var earlier, last := events[..|events| - 1], events[|events| - 1];
      var s := Run(dsp, Start(frameSamples, strategy, lfsr), earlier);
      RingHoldsLastFrames(dsp, frameSamples, strategy, lfsr, earlier);
      if last.Lost? {
        LossHoldsLast(s, GoodFrames(earlier));
      } else if last.pcm != [] {
        GoodHoldsLast(dsp, s, last.pcm, GoodFrames(earlier));
      } else {
        EmptyIsIgnored(dsp, s);
      }
    }
  }

  lemma NothingHeld(frameSamples: nat, strategy: Strategy, lfsr: Lfsr)
    ensures HoldsLast(Start(frameSamples, strategy, lfsr), [])
  {}

  lemma EmptyIsIgnored(dsp: Dsp, s: Plc)
    requires WellFormed(s)
    ensures AfterGood(dsp, s, []) == s
  {}

  /** The counters, the strategy and the loss count for given numbers of good, lost and phantom frames. */
  predicate Accounts(s: Plc, strategy: Strategy, good: nat, losses: nat, phantom: nat, burst: bool, early: bool) {
    && s.concealed == losses % COUNTERS
    && s.lost == (losses + phantom) % COUNTERS
    && s.total == (good + losses + phantom) % COUNTERS
    && s.preferred == (if strategy == INTERPOLATE && early then REPEAT_DECAY else strategy)
    && (s.losses > 0 <==> burst)
    && (strategy == NEURAL_REPAIR && burst ==> s.losses > MAX_REPEAT)
    && s.count == (if good < HISTORY_FRAMES then good else HISTORY_FRAMES)
    && (burst && good < 2 ==> early)
  }

  lemma Wraps(n: nat, k: nat)
    ensures (n % COUNTERS + k) % COUNTERS == (n + k) % COUNTERS
  {}

  lemma GoodAccounts(dsp: Dsp, s: Plc, pcm: seq<int>, strategy: Strategy, good: nat, losses: nat, phantom: nat, burst: bool, early: bool)
    requires WellFormed(s) && Accounts(s, strategy, good, losses, phantom, burst, early) && pcm != []
    ensures Accounts(AfterGood(dsp, s, pcm), strategy, good + 1, losses, phantom, false, early)
  {
    Wraps(good + losses + phantom, 1);
  }

  /** The phantom losses that one lost frame adds. */
  function PhantomStep(strategy: Strategy, burst: bool, early: bool, good: nat): nat {
    match strategy
    case NEURAL_REPAIR => if burst then 0 else MAX_REPEAT
    case INTERPOLATE => if !early && good < 2 then 1 else 0
    case SILENCE | REPEAT_DECAY | COMFORT_NOISE => 0
  }

  lemma LossAccounts(s: Plc, strategy: Strategy, good: nat, losses: nat, phantom: nat, burst: bool, early: bool)
    requires WellFormed(s) && Accounts(s, strategy, good, losses, phantom, burst, early)
    ensures Accounts(AfterLoss(s), strategy, good, losses + 1, phantom + PhantomStep(strategy, burst, early, good), true, early || good < 2)
  {
    assert Calls(s) == 1 + PhantomStep(strategy, burst, early, good);
    Wraps(losses, 1);
    Wraps(losses + phantom, Calls(s));
    Wraps(good + losses + phantom, Calls(s));
  }

  /**
   * For every run: one concealed frame is counted per lost frame, but the loss counters exceed the
   * losses, by five for each burst under neural repair and by one for an early loss under
   * interpolation, which then is given up for good.
   */
  lemma {:induction false} CountersOverRuns(dsp: Dsp, frameSamples: nat, strategy: Strategy, lfsr: Lfsr, events: seq<Event>)
    ensures Accounts(Run(dsp, Start(frameSamples, strategy, lfsr), events), strategy, |GoodFrames(events)|, Losses(events),
                     Phantom(strategy, events), InBurst(events), LostEarly(events))
    decreases events
  {
    hide Accounts, AfterGood, AfterLoss, Clipped;
    if events == [] {
      NothingCounted(frameSamples, strategy, lfsr);
    } else {
      var earlier, last := events[..|events| - 1], events[|events| - 1];
      var s := Run(dsp, Start(frameSamples, strategy, lfsr), earlier);
      var good, losses := |GoodFrames(earlier)|, Losses(earlier);
      CountersOverRuns(dsp, frameSamples, strategy, lfsr, earlier);
      if last.Lost? {
        LossAccounts(s, strategy, good, losses, Phantom(strategy, earlier), InBurst(earlier), LostEarly(earlier));
        assert Phantom(strategy, events) == Phantom(strategy, earlier) + PhantomStep(strategy, InBurst(earlier), LostEarly(earlier), good);
      } else if last.pcm != [] {
        GoodAccounts(dsp, s, last.pcm, strategy, good, losses, Phantom(strategy, earlier), InBurst(earlier), LostEarly(earlier));
      } else {
        EmptyIsIgnored(dsp, s);
      }
    }
  }

  lemma NothingCounted(frameSamples: nat, strategy: Strategy, lfsr: Lfsr)
    ensures Accounts(Start(frameSamples, strategy, lfsr), strategy, 0, 0, Phantom(strategy, []), false, false)
  {}

  /** How far the generator has come when every lost frame has been noise. */
  predicate NoiseOnly(s: Plc, start: Lfsr, frameSamples: nat, losses: nat) {
    && s.preferred == NEURAL_REPAIR && s.frameSamples == frameSamples
    && s.lfsr == ShiftedBy(start, losses * frameSamples)
  }

  lemma LossIsNoise(s: Plc, start: Lfsr, frameSamples: nat, losses: nat)
    requires WellFormed(s) && NoiseOnly(s, start, frameSamples, losses)
    ensures NoiseOnly(AfterLoss(s), start, frameSamples, losses + 1)
  {
    hide ShiftedBy;
    ShiftedByMore(start, losses * frameSamples, frameSamples);
    assert (losses + 1) * frameSamples == losses * frameSamples + frameSamples;
  }

  /** The noise written for a frame, wherever the generator is. */
  lemma NoiseFrame(dsp: Dsp, s: Plc, i: nat)
    requires WellFormed(s) && s.preferred == NEURAL_REPAIR && i < s.frameSamples
    ensures |Frame(dsp, s)| == s.frameSamples && Frame(dsp, s)[i] == dsp.noise(s.lastEnergy, Low(ShiftedBy(s.lfsr, i + 1)))
  {
    hide ShiftedBy, Low;
  }

  lemma {:induction false} NoiseOverRuns(dsp: Dsp, frameSamples: nat, lfsr: Lfsr, events: seq<Event>)
    ensures NoiseOnly(Run(dsp, Start(frameSamples, NEURAL_REPAIR, lfsr), events), lfsr, frameSamples, Losses(events))
    decreases events
  {
    hide AfterLoss, ShiftedBy;
    if events == [] {
      FirstStep(lfsr, frameSamples);
    } else {
      var earlier := events[..|events| - 1];
      NoiseOverRuns(dsp, frameSamples, lfsr, earlier);
      if events[|events| - 1].Lost? {
        LossIsNoise(Run(dsp, Start(frameSamples, NEURAL_REPAIR, lfsr), earlier), lfsr, frameSamples, Losses(earlier));
      }
    }
  }

  lemma FirstStep(lfsr: Lfsr, frameSamples: nat)
    ensures ShiftedBy(lfsr, 0 * frameSamples) == lfsr
  {}

  /**
   * Under neural repair the last good frame is never repeated: every lost frame comes out as comfort noise, and each
   * takes the generator up where the lost frame before it left it.
   */
  lemma NeuralRepairIsNoise(dsp: Dsp, frameSamples: nat, lfsr: Lfsr, events: seq<Event>, i: nat)
    requires i < frameSamples
    ensures var s := Run(dsp, Start(frameSamples, NEURAL_REPAIR, lfsr), events);
            && |Frame(dsp, s)| == s.frameSamples == frameSamples
            && Frame(dsp, s)[i] == dsp.noise(s.lastEnergy, Low(ShiftedBy(lfsr, Losses(events) * frameSamples + i + 1)))
  {
    hide ShiftedBy, Low, Frame, Run;
    NoiseOverRuns(dsp, frameSamples, lfsr, events);
    NoiseFrame(dsp, Run(dsp, Start(frameSamples, NEURAL_REPAIR, lfsr), events), i);
    ShiftedByMore(lfsr, Losses(events) * frameSamples, i + 1);
  }

  /** Every frame written has the configured length. */
  lemma {:induction false} SameLength(dsp: Dsp, frameSamples: nat, strategy: Strategy, lfsr: Lfsr, events: seq<Event>)
    ensures var s := Run(dsp, Start(frameSamples, strategy, lfsr), events); s.frameSamples == frameSamples == |Frame(dsp, s)|
    decreases events
  {
    if events != [] {
      SameLength(dsp, frameSamples, strategy, lfsr, events[..|events| - 1]);
    }
  }
}
