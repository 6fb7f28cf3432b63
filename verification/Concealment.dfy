/** Packet-loss concealment (native/include/packet_loss_recovery.h): control, history and counters. */
module Concealment {
  import opened Noise

  const MAX_REPEAT := 5
  const HISTORY_FRAMES := 4
  const MAX_PCM_FRAME := 960
  const DECAY_RATE := 0.85
  const COMFORT_NOISE_DB := -55.0
  const COUNTERS := 0x1_0000_0000   // uint32_t

  datatype Strategy = SILENCE | REPEAT_DECAY | INTERPOLATE | COMFORT_NOISE | NEURAL_REPAIR

  /** The sample arithmetic, of which nothing is assumed; noise scales the generator's low sixteen bits by the energy. */
  datatype Dsp = Dsp(scale: (int, real) -> int, extrapolate: (int, int, real) -> int, noise: (real, bv32) -> int, energy: seq<int> -> real)

  datatype Plc = Plc(history: seq<seq<int>>, energies: seq<real>, head: nat, count: nat, losses: int, lastEnergy: real, gain: real,
                     preferred: Strategy, frameSamples: nat, total: nat, lost: nat, concealed: nat, lfsr: Lfsr)

  function Start(frameSamples: nat, strategy: Strategy, lfsr: Lfsr): Plc {
    Plc([[], [], [], []], [0.0, 0.0, 0.0, 0.0], 0, 0, 0, COMFORT_NOISE_DB, 1.0, strategy, frameSamples, 0, 0, 0, lfsr)
  }

  predicate WellFormed(s: Plc) {
    |s.history| == |s.energies| == HISTORY_FRAMES && s.head < HISTORY_FRAMES && s.count <= HISTORY_FRAMES && s.losses >= 0
  }

  // ----- A good frame -----

  function Clipped(pcm: seq<int>): seq<int> { if |pcm| > MAX_PCM_FRAME then pcm[..MAX_PCM_FRAME] else pcm }

  function AfterGood(dsp: Dsp, s: Plc, pcm: seq<int>): Plc
    requires WellFormed(s)
  {
    if pcm == [] then s
    else
      var energy := dsp.energy(Clipped(pcm));
      Plc(s.history[s.head := Clipped(pcm)], s.energies[s.head := energy], (s.head + 1) % HISTORY_FRAMES,
          if s.count < HISTORY_FRAMES then s.count + 1 else s.count, 0, energy, 1.0, s.preferred, s.frameSamples,
          (s.total + 1) % COUNTERS, s.lost, s.concealed, s.lfsr)
  }

  // ----- A lost frame -----

  /** The frame `back` places behind the write position. */
  function Recent(s: Plc, back: nat): seq<int>
    requires WellFormed(s) && 1 <= back <= HISTORY_FRAMES
  {
    s.history[(s.head + HISTORY_FRAMES - back) % HISTORY_FRAMES]
  }

  /** Neural repair is not done here, interpolation needs two frames; and five losses in a row are the limit of either. */
  function Effective(s: Plc): Strategy {
    if s.losses >= MAX_REPEAT || s.preferred == NEURAL_REPAIR then COMFORT_NOISE
    else if s.preferred == INTERPOLATE && s.count < 2 then (if s.losses + 1 >= MAX_REPEAT then COMFORT_NOISE else REPEAT_DECAY)
    else s.preferred
  }

  /** How many nested calls it takes. */
  function Calls(s: Plc): (n: nat)
    requires s.losses >= 0
    ensures 1 <= n <= MAX_REPEAT + 1
  {
    if s.losses >= MAX_REPEAT then 1
    else if s.preferred == NEURAL_REPAIR then MAX_REPEAT + 1 - s.losses
    else if s.preferred == INTERPOLATE && s.count < 2 then 2
    else 1
  }

  /** The decay applies where a frame is repeated or extrapolated. */
  function GainBy(s: Plc, strategy: Strategy): real {
    if (strategy == REPEAT_DECAY && s.count > 0) || strategy == INTERPOLATE then s.gain * DECAY_RATE else s.gain
  }

  /** One step of the generator for each sample of noise. */
  function LfsrBy(s: Plc, strategy: Strategy): Lfsr {
    if strategy == COMFORT_NOISE then ShiftedBy(s.lfsr, s.frameSamples) else s.lfsr
  }

  function At(frame: seq<int>, i: nat): int { if i < |frame| then frame[i] else 0 }

  function SampleBy(dsp: Dsp, s: Plc, strategy: Strategy, i: nat): int
    requires WellFormed(s)
  {
    match strategy
    case REPEAT_DECAY => if s.count > 0 && i < |Recent(s, 1)| then dsp.scale(Recent(s, 1)[i], GainBy(s, strategy)) else 0
    case INTERPOLATE => dsp.extrapolate(At(Recent(s, 1), i), At(Recent(s, 2), i), GainBy(s, strategy))
    case COMFORT_NOISE => dsp.noise(s.lastEnergy, Low(ShiftedBy(s.lfsr, i + 1)))
    case SILENCE | NEURAL_REPAIR => 0
  }

  function FrameBy(dsp: Dsp, s: Plc, strategy: Strategy): (frame: seq<int>)
    requires WellFormed(s)
    ensures |frame| == s.frameSamples
  {
    seq(s.frameSamples, i requires i >= 0 => SampleBy(dsp, s, strategy, i))
  }

  /** The samples written. */
  function Frame(dsp: Dsp, s: Plc): seq<int>
    requires WellFormed(s)
  {
    FrameBy(dsp, s, Effective(s))
  }

  /** One call's bookkeeping, before it decides what to do. */
  function Bumped(s: Plc): Plc {
    Plc(s.history, s.energies, s.head, s.count, s.losses + 1, s.lastEnergy, s.gain, s.preferred, s.frameSamples,
        (s.total + 1) % COUNTERS, (s.lost + 1) % COUNTERS, s.concealed, s.lfsr)
  }

  function Preferring(s: Plc, strategy: Strategy): Plc {
    Plc(s.history, s.energies, s.head, s.count, s.losses, s.lastEnergy, s.gain, strategy, s.frameSamples, s.total, s.lost, s.concealed,
        s.lfsr)
  }

  function Concealed(s: Plc, strategy: Strategy): Plc {
    Plc(s.history, s.energies, s.head, s.count, s.losses, s.lastEnergy, GainBy(s, strategy), s.preferred, s.frameSamples,
        s.total, s.lost, (s.concealed + 1) % COUNTERS, LfsrBy(s, strategy))
  }

  function AfterLoss(s: Plc): Plc
    requires WellFormed(s)
  {
    Plc(s.history, s.energies, s.head, s.count, s.losses + Calls(s), s.lastEnergy, GainBy(s, Effective(s)),
        if s.preferred == INTERPOLATE && s.count < 2 && s.losses < MAX_REPEAT then REPEAT_DECAY else s.preferred,
        s.frameSamples, (s.total + Calls(s)) % COUNTERS, (s.lost + Calls(s)) % COUNTERS, (s.concealed + 1) % COUNTERS,
        LfsrBy(s, Effective(s)))
  }

  lemma WrapsOnce(n: nat, k: nat)
    ensures ((n + 1) % COUNTERS + k) % COUNTERS == (n + 1 + k) % COUNTERS
  {}

  /** A call that falls back on another: the outer call's effect is the bookkeeping and then the inner call's. */
  lemma FallsBack(dsp: Dsp, s: Plc)
    requires WellFormed(s) && s.losses < MAX_REPEAT
    ensures s.preferred == NEURAL_REPAIR ==> AfterLoss(s) == AfterLoss(Bumped(s)) && Frame(dsp, s) == Frame(dsp, Bumped(s))
    ensures s.preferred == INTERPOLATE && s.count < 2 ==>
              var inner := Preferring(Bumped(s), REPEAT_DECAY); AfterLoss(s) == AfterLoss(inner) && Frame(dsp, s) == Frame(dsp, inner)
  {
    WrapsOnce(s.total, Calls(s) - 1);
    WrapsOnce(s.lost, Calls(s) - 1);
  }

  /** A call that does not. */
  lemma GoesThrough(dsp: Dsp, s: Plc, strategy: Strategy)
    requires WellFormed(s) && strategy == (if s.losses >= MAX_REPEAT then COMFORT_NOISE else s.preferred)
    requires strategy != NEURAL_REPAIR && (strategy == INTERPOLATE ==> s.count >= 2)
    ensures AfterLoss(s) == Concealed(Bumped(s), strategy) && Frame(dsp, s) == FrameBy(dsp, Bumped(s), strategy)
  {}

  class OolPlcState {
    const dsp: Dsp
    const generator: NoiseGenerator   // one for all states
    const history: array<seq<int>>
    const energies: array<real>
    var head: nat
    var count: nat
    var losses: int
    var lastEnergy: real
    var gain: real
    var preferred: Strategy
    var frameSamples: nat
    var total: nat
    var lost: nat
    var concealed: nat

    ghost predicate Valid()
      reads this, history, energies, generator
    {
      history.Length == energies.Length == HISTORY_FRAMES && WellFormed(View())
    }

    ghost function View(): Plc
      reads this, history, energies, generator
    {
      Plc(history[..], energies[..], head, count, losses, lastEnergy, gain, preferred, frameSamples, total, lost, concealed,
          generator.lfsr)
    }

    constructor (dsp: Dsp, generator: NoiseGenerator, frameSamples: nat, strategy: Strategy)
      ensures Valid() && View() == Start(frameSamples, strategy, generator.lfsr)
      ensures this.dsp == dsp && this.generator == generator
      ensures fresh(history) && fresh(energies)
    {
      this.dsp, this.generator := dsp, generator;
      history := new seq<int>[HISTORY_FRAMES](_ => []);
      energies := new real[HISTORY_FRAMES](_ => 0.0);
      head, count, losses, lastEnergy, gain, preferred := 0, 0, 0, COMFORT_NOISE_DB, 1.0, strategy;
      this.frameSamples, total, lost, concealed := frameSamples, 0, 0, 0;
    }

    method GoodFrame(pcm: seq<int>)
      requires Valid()
      modifies this, history, energies
      ensures Valid() && View() == AfterGood(dsp, old(View()), pcm)
    {
      if |pcm| <= 0 {
        return;
      }
      var idx := head;
      var copyLen := |pcm|;
      if copyLen > MAX_PCM_FRAME {
        copyLen := MAX_PCM_FRAME;
      }
      var kept := pcm[..copyLen];
      assert kept == Clipped(pcm);
      hide Clipped;
      history[idx] := kept;
      energies[idx] := dsp.energy(kept);
      head := (idx + 1) % HISTORY_FRAMES;
      if count < HISTORY_FRAMES {
        count := count + 1;
      }
      losses := 0;
      gain := 1.0;
      lastEnergy := energies[idx];
      total := (total + 1) % COUNTERS;
    }

    method ConcealFrame(pcmOut: array<int>) returns (numSamples: nat)
      requires Valid() && frameSamples <= pcmOut.Length
      modifies this, generator, pcmOut
      ensures Valid() && View() == AfterLoss(old(View()))
      ensures numSamples == frameSamples && pcmOut[..numSamples] == Frame(dsp, old(View()))
      ensures pcmOut[numSamples..] == old(pcmOut[numSamples..])
      decreases MAX_REPEAT + 1 - losses
    {
      ghost var before := View();
      if losses < MAX_REPEAT {
        FallsBack(dsp, before);
      }
      hide AfterLoss, Frame, FrameBy, Recent, Effective, Calls, GainBy, LfsrBy, SampleBy, ShiftedBy;
      lost := (lost + 1) % COUNTERS;
      total := (total + 1) % COUNTERS;
      losses := losses + 1;
      assert View() == Bumped(before);
      hide Bumped;
      var strategy := preferred;
      if losses > MAX_REPEAT {
        strategy := COMFORT_NOISE;
      }
      if strategy == NEURAL_REPAIR {
        numSamples := ConcealFrame(pcmOut);
        return;
      }
      if strategy == INTERPOLATE && count < 2 {
        preferred := REPEAT_DECAY;
        assert View() == Preferring(Bumped(before), REPEAT_DECAY);
        numSamples := ConcealFrame(pcmOut);
        return;
      }
      GoesThrough(dsp, before, strategy);
      numSamples := Generate(strategy, pcmOut);
      concealed := (concealed + 1) % COUNTERS;
    }

    /** The cases of the switch that write samples. */
    method Generate(strategy: Strategy, pcmOut: array<int>) returns (n: nat)
      requires Valid() && frameSamples <= pcmOut.Length
      requires strategy != NEURAL_REPAIR && (strategy == INTERPOLATE ==> count >= 2)
      modifies `gain, generator, pcmOut
      ensures View() == old(View()).(gain := GainBy(old(View()), strategy), lfsr := LfsrBy(old(View()), strategy))
      ensures n == frameSamples && pcmOut[..n] == FrameBy(dsp, old(View()), strategy)
      ensures pcmOut[n..] == old(pcmOut[n..])
    {
      n := frameSamples;
      ghost var before := View();
      match strategy {
        case SILENCE =>
          Fill(pcmOut, n, i => 0);
        case REPEAT_DECAY =>
          if count > 0 {
            var last := history[(head - 1 + HISTORY_FRAMES) % HISTORY_FRAMES];
            gain := gain * DECAY_RATE;
            var g, scale := gain, dsp.scale;
            Fill(pcmOut, n, i requires i >= 0 => if i < |last| then scale(last[i], g) else 0);
          } else {
            Fill(pcmOut, n, i => 0);
          }
        case INTERPOLATE =>
          var first := history[(head - 1 + HISTORY_FRAMES) % HISTORY_FRAMES];
          var second := history[(head - 2 + HISTORY_FRAMES) % HISTORY_FRAMES];
          gain := gain * DECAY_RATE;
          var g, extrapolate := gain, dsp.extrapolate;
          Fill(pcmOut, n, i requires i >= 0 => extrapolate(At(first, i), At(second, i), g));
        case COMFORT_NOISE =>
          FillNoise(pcmOut, n);
      }
      assert forall i | 0 <= i < n :: pcmOut[i] == SampleBy(dsp, before, strategy, i);
    }

    method FillNoise(out: array<int>, n: nat)
      requires n <= out.Length
      modifies out, generator
      ensures forall i: nat | i < n :: out[i] == dsp.noise(lastEnergy, Low(ShiftedBy(old(generator.lfsr), i + 1)))
      ensures generator.lfsr == ShiftedBy(old(generator.lfsr), n)
      ensures out[n..] == old(out[n..])
    {
      hide Shifted, Low;
      ghost var start := generator.lfsr;
      for i := 0 to n
        invariant forall k: nat | k < i :: out[k] == dsp.noise(lastEnergy, Low(ShiftedBy(start, k + 1)))
        invariant generator.lfsr == ShiftedBy(start, i)
        invariant out[n..] == old(out[n..])
      {
        var low := generator.Next();
        out[i] := dsp.noise(lastEnergy, low);
      }
    }
  }

  /** The other sample loops: the first n samples are written, the rest of the buffer is not. */
  method Fill(out: array<int>, n: nat, sample: nat --> int)
    requires n <= out.Length && forall i: nat | i < n :: sample.requires(i)
    modifies out
    ensures forall i: nat | i < n :: out[i] == sample(i)
    ensures out[n..] == old(out[n..])
  {
    for i := 0 to n
      invariant forall k: nat | k < i :: out[k] == sample(k)
      invariant out[n..] == old(out[n..])
    {
      out[i] := sample(i);
    }
  }
}
