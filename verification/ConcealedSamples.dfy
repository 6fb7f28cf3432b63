/** What is played for a lost frame, told by the frames received (native/include/packet_loss_recovery.h). */
module ConcealedSamples {
  import opened Noise
  import opened Concealment
  import opened ConcealmentRuns

  /** How many frames in a row were lost up to now. */
  function LostInARow(events: seq<Event>): nat {
    if events == [] then 0
    else
      var earlier, last := LostInARow(events[..|events| - 1]), events[|events| - 1];
      match last
      case Lost => earlier + 1
      case Good(pcm) => if pcm == [] then earlier else 0
  }

  /** Of a frame that is too long the first 960 samples are kept. */
  lemma KeptSamples(pcm: seq<int>)
    ensures Clipped(pcm) <= pcm && |Clipped(pcm)| == if |pcm| < 960 then |pcm| else 960
  {}

  /** The strategy in force: interpolation is given up for repetition when a frame is lost before two have come. */
  function Now(strategy: Strategy, events: seq<Event>): Strategy {
    if strategy == INTERPOLATE && LostEarly(events) then REPEAT_DECAY else strategy
  }

  /** Giving it up counts as one more loss, until a frame comes. */
  function Extra(strategy: Strategy, events: seq<Event>): nat {
    if events == [] then 0
    else
      var earlier, last := events[..|events| - 1], events[|events| - 1];
      match last
      case Lost => if Now(strategy, events) != Now(strategy, earlier) then 1 else Extra(strategy, earlier)
      case Good(pcm) => if pcm == [] then Extra(strategy, earlier) else 0
  }

  /** 0.85 to the k. */
  function Decay(k: nat): real { if k == 0 then 1.0 else Decay(k - 1) * 0.85 }

  /** Whether a loss is met by what was received last, and fades. */
  predicate Fades(strategy: Strategy, good: nat) {
    (strategy == REPEAT_DECAY && good > 0) || strategy == INTERPOLATE
  }

  predicate Tracks(dsp: Dsp, s: Plc, strategy: Strategy, good: seq<seq<int>>, lost: nat, extra: nat) {
    && s.preferred == strategy && s.losses == lost + extra && extra <= 1 && (extra == 1 ==> lost >= 1)
    && s.gain == (if Fades(strategy, |good|) then Decay(if lost + extra < 5 then lost else 5 - extra) else 1.0)
    && s.lastEnergy == (if good == [] then -55.0 else dsp.energy(good[|good| - 1]))
    && (strategy == INTERPOLATE && lost > 0 ==> |good| >= 2)
  }

  /** The ring is as full as it can be. */
  predicate Counts(s: Plc, good: seq<seq<int>>) {
    s.count == if |good| < HISTORY_FRAMES then |good| else HISTORY_FRAMES
  }

  lemma LossTracks(dsp: Dsp, s: Plc, strategy: Strategy, good: seq<seq<int>>, lost: nat, extra: nat)
    requires WellFormed(s) && Tracks(dsp, s, strategy, good, lost, extra) && Counts(s, good) && strategy != NEURAL_REPAIR
    ensures if strategy == INTERPOLATE && |good| < 2 then Tracks(dsp, AfterLoss(s), REPEAT_DECAY, good, 1, 1)
            else Tracks(dsp, AfterLoss(s), strategy, good, lost + 1, extra)
  {}

  lemma GoodTracks(dsp: Dsp, s: Plc, strategy: Strategy, good: seq<seq<int>>, lost: nat, extra: nat, pcm: seq<int>)
    requires WellFormed(s) && Tracks(dsp, s, strategy, good, lost, extra) && pcm != []
    ensures Tracks(dsp, AfterGood(dsp, s, pcm), strategy, good + [Clipped(pcm)], 0, 0)
  {}

  lemma StartTracks(dsp: Dsp, frameSamples: nat, strategy: Strategy, lfsr: Lfsr)
    ensures Tracks(dsp, Start(frameSamples, strategy, lfsr), strategy, [], 0, 0)
  {}

  lemma EarlyIsFirst(dsp: Dsp, s: Plc, good: seq<seq<int>>, lost: nat, extra: nat)
    requires Tracks(dsp, s, INTERPOLATE, good, lost, extra) && |good| < 2
    ensures lost == 0
  {}

  lemma {:induction false} TracksOverRuns(dsp: Dsp, frameSamples: nat, strategy: Strategy, lfsr: Lfsr, events: seq<Event>)
    requires strategy != NEURAL_REPAIR
    ensures Tracks(dsp, Run(dsp, Start(frameSamples, strategy, lfsr), events), Now(strategy, events), GoodFrames(events),
                   LostInARow(events), Extra(strategy, events))
    decreases events
  {
    hide Tracks, AfterGood, AfterLoss, Clipped, HoldsLast;
    if events == [] {
      StartTracks(dsp, frameSamples, strategy, lfsr);
    } else {
      var earlier, last := events[..|events| - 1], events[|events| - 1];
      var s, now := Run(dsp, Start(frameSamples, strategy, lfsr), earlier), Now(strategy, earlier);
      var good, lost, extra := GoodFrames(earlier), LostInARow(earlier), Extra(strategy, earlier);
      TracksOverRuns(dsp, frameSamples, strategy, lfsr, earlier);
      if last.Lost? {
        RingHoldsLastFrames(dsp, frameSamples, strategy, lfsr, earlier);
        HeldCount(s, good);
        LossTracks(dsp, s, now, good, lost, extra);
        if now == INTERPOLATE && |good| < 2 {
          EarlyIsFirst(dsp, s, good, lost, extra);
        }
      } else if last.pcm != [] {
        GoodTracks(dsp, s, now, good, lost, extra, last.pcm);
      } else {
        EmptyIsIgnored(dsp, s);
      }
    }
  }

  lemma HeldCount(s: Plc, frames: seq<seq<int>>)
    requires WellFormed(s) && HoldsLast(s, frames)
    ensures Counts(s, frames)
    ensures |frames| >= 1 ==> Recent(s, 1) == frames[|frames| - 1]
    ensures |frames| >= 2 ==> Recent(s, 2) == frames[|frames| - 2]
  {}

  /** Whether noise meets the next loss. */
  predicate MetByNoise(strategy: Strategy, events: seq<Event>) {
    strategy == COMFORT_NOISE || LostInARow(events) + Extra(strategy, events) >= 5
  }

  /** How many of the lost frames were. */
  function Noisy(strategy: Strategy, events: seq<Event>): nat {
    if events == [] then 0
    else
      var earlier := events[..|events| - 1];
      Noisy(strategy, earlier) + if events[|events| - 1].Lost? && MetByNoise(strategy, earlier) then 1 else 0
  }

  /** The generator goes on by a frame's samples for each of them, and for nothing else. */
  lemma {:induction false} GeneratorOverRuns(dsp: Dsp, frameSamples: nat, strategy: Strategy, lfsr: Lfsr, events: seq<Event>)
    requires strategy != NEURAL_REPAIR
    ensures Run(dsp, Start(frameSamples, strategy, lfsr), events).lfsr == ShiftedBy(lfsr, Noisy(strategy, events) * frameSamples)
    decreases events
  {
    hide AfterGood, AfterLoss, Clipped, HoldsLast, ShiftedBy, Tracks, Extra, LostInARow;
    if events == [] {
      FirstStep(lfsr, frameSamples);
    } else {
      var earlier, last := events[..|events| - 1], events[|events| - 1];
      var s := Run(dsp, Start(frameSamples, strategy, lfsr), earlier);
      GeneratorOverRuns(dsp, frameSamples, strategy, lfsr, earlier);
      if last.Lost? {
        TracksOverRuns(dsp, frameSamples, strategy, lfsr, earlier);
        RingHoldsLastFrames(dsp, frameSamples, strategy, lfsr, earlier);
        SameLength(dsp, frameSamples, strategy, lfsr, earlier);
        HeldCount(s, GoodFrames(earlier));
        LossMoves(dsp, s, Now(strategy, earlier), GoodFrames(earlier), LostInARow(earlier), Extra(strategy, earlier));
        ShiftedByMore(lfsr, Noisy(strategy, earlier) * frameSamples, frameSamples);
        assert (Noisy(strategy, earlier) + 1) * frameSamples == Noisy(strategy, earlier) * frameSamples + frameSamples;
      } else if last.pcm == [] {
        EmptyIsIgnored(dsp, s);
      } else {
        GoodKeepsGenerator(dsp, s, last.pcm);
      }
    }
  }

  lemma LossMoves(dsp: Dsp, s: Plc, strategy: Strategy, good: seq<seq<int>>, lost: nat, extra: nat)
    requires WellFormed(s) && Tracks(dsp, s, strategy, good, lost, extra) && Counts(s, good) && strategy != NEURAL_REPAIR
    ensures AfterLoss(s).lfsr == if strategy == COMFORT_NOISE || lost + extra >= 5 then ShiftedBy(s.lfsr, s.frameSamples) else s.lfsr
  {
    hide ShiftedBy;
  }

  lemma GoodKeepsGenerator(dsp: Dsp, s: Plc, pcm: seq<int>)
    requires WellFormed(s)
    ensures AfterGood(dsp, s, pcm).lfsr == s.lfsr
  {}

  function SampleOf(frame: seq<int>, i: nat): int { if i < |frame| then frame[i] else 0 }

  /** Noise of the last frame's energy. */
  function NoiseSample(dsp: Dsp, good: seq<seq<int>>, generator: Lfsr, i: nat): int {
    dsp.noise(if good == [] then -55.0 else dsp.energy(good[|good| - 1]), Low(ShiftedBy(generator, i + 1)))
  }

  /** What meets a loss otherwise, after so many others in a row. */
  function FadingSample(dsp: Dsp, strategy: Strategy, good: seq<seq<int>>, lost: nat, i: nat): int {
    if strategy == INTERPOLATE && |good| >= 2 then
      dsp.extrapolate(SampleOf(good[|good| - 1], i), SampleOf(good[|good| - 2], i), Decay(lost + 1))
    else if strategy != SILENCE && good != [] && i < |good[|good| - 1]| then dsp.scale(good[|good| - 1][i], Decay(lost + 1))
    else 0
  }

  lemma SampleIn(dsp: Dsp, s: Plc, strategy: Strategy, good: seq<seq<int>>, lost: nat, extra: nat, i: nat)
    requires WellFormed(s) && Tracks(dsp, s, strategy, good, lost, extra) && HoldsLast(s, good) && strategy != NEURAL_REPAIR
    requires i < s.frameSamples
    ensures |Frame(dsp, s)| == s.frameSamples
    ensures Frame(dsp, s)[i] ==
      if strategy == COMFORT_NOISE || lost + extra >= 5 then NoiseSample(dsp, good, s.lfsr, i) else FadingSample(dsp, strategy, good, lost, i)
  {
    HeldCount(s, good);
    hide HoldsLast, Recent, ShiftedBy, Low;
  }

  /**
   * The sample for the next lost frame, on every run: the last frame received, decayed once more for each loss in a row, or the
   * line through the last two, or silence; and noise, where the generator was left, from the sixth loss that is counted on.
   */
  lemma LostSample(dsp: Dsp, frameSamples: nat, strategy: Strategy, lfsr: Lfsr, events: seq<Event>, i: nat)
    requires i < frameSamples && strategy != NEURAL_REPAIR
    ensures var frame := Frame(dsp, Run(dsp, Start(frameSamples, strategy, lfsr), events));
      && |frame| == frameSamples
      && frame[i] ==
           if MetByNoise(strategy, events)
           then NoiseSample(dsp, GoodFrames(events), ShiftedBy(lfsr, Noisy(strategy, events) * frameSamples), i)
           else FadingSample(dsp, Now(strategy, events), GoodFrames(events), LostInARow(events), i)
  {
    hide Run, HoldsLast, Tracks, NoiseSample, FadingSample, Frame, ShiftedBy;
    TracksOverRuns(dsp, frameSamples, strategy, lfsr, events);
    RingHoldsLastFrames(dsp, frameSamples, strategy, lfsr, events);
    SameLength(dsp, frameSamples, strategy, lfsr, events);
    GeneratorOverRuns(dsp, frameSamples, strategy, lfsr, events);
    SampleIn(dsp, Run(dsp, Start(frameSamples, strategy, lfsr), events), Now(strategy, events), GoodFrames(events),
             LostInARow(events), Extra(strategy, events), i);
  }
}
