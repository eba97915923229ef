/** When a channel is declared calibrated, and that it always is on a steady load. */
module Calibration {
  import opened Supervision
  import opened SupervisionInvariant

  // ---- soundness over runs --------------------------------------------------------------------

  datatype Progress = Unaffected | Stable | Unstable | Completed | Restarted

  /** A sample is stable when load and reading differ by at most the calibration share of the level. */
  predicate IsStable(load: nat, reading: nat, cfg: Config) {
    (load - reading) * cfg.calDiv <= cfg.level && (reading - load) * cfg.calDiv <= cfg.level
  }

  lemma WithinShare(x: nat, level: nat, d: nat)
    requires d > 0
    ensures x <= level / d <==> x * d <= level
  {
    var q := level / d;
    assert q * d <= level < (q + 1) * d;
    if x <= q { assert x * d <= q * d; } else { assert (q + 1) * d <= x * d; }
  }

  /** The stability test of the calibration, in terms of the readings. */
  lemma StabilityIsShown(d: ChData, cfg: Config)
    requires cfg.calDiv > 0
    ensures Variation(d) <= cfg.level / cfg.calDiv <==> IsStable(d.pmax, d.prms, cfg)
  {
    var v := Variation(d);
    WithinShare(v, cfg.level, cfg.calDiv);
    assert -v * cfg.calDiv <= 0 <= cfg.level;
  }

  /** What one event means for the calibration of one channel. A channel whose S stable samples are in
      is completed by its next sample, whatever that shows. */
  function ProgressOf(s: State, e: Event, ch: Channel, stable: nat): Progress
    requires |s.data| == MAX_CHANNELS && s.cfg.calDiv > 0
  {
    match e
    case Loop(active, discard, reading) =>
      if Sample(s, active, discard, reading).1 != Sampled(ch) || ch !in s.calib then Unaffected
      else if stable == s.cfg.samples then Completed
      else if IsStable(s.data[ch].pmax, reading, s.cfg) then Stable
      else Unstable
    case Tick => if Decr32(s.recalCountdown) == 0 && ch in s.enabled then Restarted else Unaffected
    case ForceCalibration => if ch in s.enabled then Restarted else Unaffected
    case SetEnabled(mask) => if ch in mask && ch !in s.enabled then Restarted else Unaffected
    case _ => Unaffected
  }

  /** Consecutive stable samples since the calibration began or a sample was unstable. */
  function StableCount(stable: nat, o: Progress): nat {
    match o
    case Stable => stable + 1
    case Unstable => 0
    case Restarted => 0
    case Completed => 0
    case Unaffected => stable
  }

  /** While a channel is uncalibrated, its sample counter is what is left of S. */
  ghost predicate Left(s: State, ch: Channel, stable: nat)
    requires |s.data| == MAX_CHANNELS
  {
    ch in s.calib ==> stable + s.data[ch].calSamples == s.cfg.samples
  }

  /** A channel in calibration leaves it in the loop exactly on completion; a fault starts it anew. */
  ghost predicate Advances(s: State, e: Event, r: State, ch: Channel, stable: nat)
    requires Inv(s)
  {
    var o := ProgressOf(s, e, ch, stable);
    && |r.data| == MAX_CHANNELS
    && Left(r, ch, if ch in s.calib then StableCount(stable, o) else 0)
    && (o == Completed ==> ch !in r.calib)
    && (ch in s.calib && ch !in r.calib ==> o == Completed || (e.SetEnabled? && ch !in e.mask))
  }

  lemma LoopAdvances(s: State, active: Mask, discard: nat, reading: nat, ch: Channel, stable: nat)
    requires Inv(s) && discard < 0x1_0000_0000 && reading < 0x1_0000_0000 && Left(s, ch, stable)
    ensures Advances(s, Loop(active, discard, reading), ControlLoop(s, active, discard, reading), ch, stable)
  {
    hide IsStable;
    SampleInv(s, active, discard, reading);
    SampleEligible(s, active, discard, reading);
    SampleFrame(s, active, discard, reading);
    var (s1, sampled) := Sample(s, active, discard, reading);
    if sampled.Sampled? {
      if NeedCalibration(s1, sampled.ch) {
        CalibrateLeft(s1, sampled.ch, ch, stable);
      } else if s1.monitoring {
        MonitorLeft(s1, sampled.ch, ch, stable);
      }
    }
  }

  /** Calibrating one channel: the others keep what is left, it takes one off or starts again. */
  lemma CalibrateLeft(s: State, on: Channel, ch: Channel, stable: nat)
    requires Inv(s) && on in s.calib && Left(s, ch, stable)
    ensures var r := Calibrate(s, on);
            && (on != ch ==> Left(r, ch, stable) && (ch in r.calib <==> ch in s.calib))
            && (on == ch && stable == s.cfg.samples ==> ch !in r.calib)
            && (on == ch && stable != s.cfg.samples ==>
                  && ch in r.calib
                  && Left(r, ch, if IsStable(s.data[ch].pmax, s.data[ch].prms, s.cfg) then stable + 1 else 0))
  {
    hide IsStable;
    StabilityIsShown(s.data[ch], s.cfg);
  }

  lemma MonitorLeft(s: State, on: Channel, ch: Channel, stable: nat)
    requires Inv(s) && on in s.enabled && on !in s.calib && Left(s, ch, stable)
    ensures var r := Monitor(s, on);
            && (ch in s.calib ==> ch in r.calib && Left(r, ch, stable))
            && (ch !in s.calib ==> Left(r, ch, 0))
  {
    hide ShowsLoss, Monitor;
    MonitorCases(s, on);
  }

  lemma StepAdvances(s: State, e: Event, ch: Channel, stable: nat)
    requires Inv(s) && ValidEvent(e) && Left(s, ch, stable)
    requires e.Configure? ==> e.cfg.samples == s.cfg.samples
    ensures Advances(s, e, Step(s, e), ch, stable)
  {
    match e {
      case Loop(active, discard, reading) => LoopAdvances(s, active, discard, reading, ch, stable);
      case Tick =>
      case _ =>
    }
  }

  /** Stable samples in a row after a run; outside calibration there are none. */
  ghost function StableStreak(s: State, es: seq<Event>, ch: Channel, stable: nat): nat
    requires Inv(s) && ValidEvents(es)
    decreases |es|
  {
    if es == [] then stable
    else
      StepInv(s, es[0]);
      StableStreak(Step(s, es[0]), es[1..], ch,
                   if ch in s.calib then StableCount(stable, ProgressOf(s, es[0], ch, stable)) else 0)
  }

  ghost predicate SamplesKept(s: State, es: seq<Event>) {
    forall i :: 0 <= i < |es| && es[i].Configure? ==> es[i].cfg.samples == s.cfg.samples
  }

  lemma {:induction false} LeftOverRun(s: State, es: seq<Event>, ch: Channel, stable: nat)
    requires Inv(s) && ValidEvents(es) && SamplesKept(s, es) && Left(s, ch, stable)
    ensures Left(Run(s, es), ch, StableStreak(s, es, ch, stable))
    ensures Run(s, es).cfg.samples == s.cfg.samples
    decreases |es|
  {
    if es == [] {
    } else {
      StepInv(s, es[0]);
      StepAdvances(s, es[0], ch, stable);
      LeftOverRun(Step(s, es[0]), es[1..], ch,
                  if ch in s.calib then StableCount(stable, ProgressOf(s, es[0], ch, stable)) else 0);
    }
  }

  /** From set-up on, with S kept: a channel that an event marks calibrated, and does not disable, had
      exactly S consecutive stable samples before it. */
  lemma CalibratedOnlyAfterStable(cfg: Config, enabled: Mask, critical: Mask, discard: nat,
                                  es: seq<Event>, e: Event, ch: Channel)
    requires cfg.Valid() && discard < 0x1_0000_0000
    requires ValidEvents(es) && ValidEvent(e)
    requires var s := Start(cfg, enabled, critical, discard); SamplesKept(s, es + [e])
    ensures var s := Start(cfg, enabled, critical, discard);
            var before, after := Run(s, es), Step(Run(s, es), e);
            (ch in before.calib && ch !in after.calib && ch in after.enabled) ==>
              StableStreak(s, es, ch, 0) == cfg.samples
  {
    var s := Start(cfg, enabled, critical, discard);
    assert (es + [e])[|es|] == e;
    assert forall i :: 0 <= i < |es| ==> (es + [e])[i] == es[i];
    LeftOverRun(s, es, ch, 0);
    StepAdvances(Run(s, es), e, ch, StableStreak(s, es, ch, 0));
  }

  // ---- termination on a steady load -----------------------------------------------------------

  /** A sample of the same reading for a channel, as long as it is uncalibrated. */
  ghost function SteadySampling(s: State, ch: Channel, reading: nat, n: nat): (r: State)
    requires |s.data| == MAX_CHANNELS && s.cfg.calDiv > 0
    ensures |r.data| == MAX_CHANNELS && r.cfg == s.cfg
    decreases n
  {
    if n == 0 || ch !in s.calib then s
    else SteadySampling(Calibrate(StoreReading(s, ch, reading), ch), ch, reading, n - 1)
  }

  function Pow2(n: nat): (p: nat)
    ensures p >= 1
  {
    if n == 0 then 1 else 2 * Pow2(n - 1)
  }

  /** How far apart load and reading are. */
  function Apart(load: nat, reading: nat): nat {
    if load < reading then reading - load else load - reading
  }

  /** The distance between load and reading goes to its half, rounded up, and the load stays on its side. */
  lemma DistanceHalves(d: ChData, cfg: Config)
    requires cfg.calDiv > 0
    ensures var load := CalibrateData(d, cfg).pmax; var v := Apart(d.pmax, d.prms);
            Apart(load, d.prms) == v - v / 2 && (load < d.prms <==> d.pmax < d.prms)
  {
  }

  lemma {:induction false} SamplingSplit(s: State, ch: Channel, reading: nat, m: nat, n: nat)
    requires |s.data| == MAX_CHANNELS && s.cfg.calDiv > 0
    ensures SteadySampling(s, ch, reading, m + n) == SteadySampling(SteadySampling(s, ch, reading, m), ch, reading, n)
    decreases m
  {
    if m > 0 && ch in s.calib {
      SamplingSplit(Calibrate(StoreReading(s, ch, reading), ch), ch, reading, m - 1, n);
    }
  }

  /** How far the channel's load still is from the reading. */
  function Gap(s: State, ch: Channel, reading: nat): nat
    requires |s.data| == MAX_CHANNELS
  {
    Apart(s.data[ch].pmax, reading)
  }

  lemma OneSample(s: State, ch: Channel, reading: nat)
    requires |s.data| == MAX_CHANNELS && s.cfg.calDiv > 0 && ch in s.calib
    requires s.data[ch].calSamples <= s.cfg.samples < 0x100
    ensures var r := Calibrate(StoreReading(s, ch, reading), ch); var v := Gap(s, ch, reading);
            ch in r.calib ==>
              && Gap(r, ch, reading) == v - v / 2 && r.data[ch].calSamples <= s.cfg.samples
              && (v <= s.cfg.level / s.cfg.calDiv ==> r.data[ch].calSamples + 1 == s.data[ch].calSamples)
  {
    var s1 := StoreReading(s, ch, reading);
    DistanceHalves(s1.data[ch], s.cfg);
  }

  lemma {:induction false} GapCloses(s: State, ch: Channel, reading: nat, n: nat)
    requires |s.data| == MAX_CHANNELS && s.cfg.calDiv > 0
    requires s.data[ch].calSamples <= s.cfg.samples < 0x100
    requires Gap(s, ch, reading) <= Pow2(n)
    ensures var r := SteadySampling(s, ch, reading, n);
            ch in r.calib ==> Gap(r, ch, reading) <= 1 && r.data[ch].calSamples <= s.cfg.samples
    decreases n
  {
    if n > 0 && ch in s.calib {
      OneSample(s, ch, reading);
      var r := Calibrate(StoreReading(s, ch, reading), ch);
      if ch in r.calib { GapCloses(r, ch, reading, n - 1); }
    }
  }

  lemma {:induction false} SteadyCompletes(s: State, ch: Channel, reading: nat, n: nat)
    requires |s.data| == MAX_CHANNELS && s.cfg.calDiv > 0 && Gap(s, ch, reading) <= s.cfg.level / s.cfg.calDiv
    requires s.data[ch].calSamples <= s.cfg.samples < 0x100
    requires Gap(s, ch, reading) <= 1 && s.data[ch].calSamples < n
    ensures ch !in SteadySampling(s, ch, reading, n).calib
    decreases n
  {
    if ch in s.calib {
      OneSample(s, ch, reading);
      var r := Calibrate(StoreReading(s, ch, reading), ch);
      if ch in r.calib { SteadyCompletes(r, ch, reading, n - 1); }
    }
  }

  /** On a constant reading a channel is calibrated within 33 + S samples, from any load. */
  lemma CalibrationTerminates(s: State, ch: Channel, reading: nat)
    requires Inv(s) && reading < 0x1_0000_0000
    requires s.cfg.level / s.cfg.calDiv >= 1
    requires s.data[ch].calSamples <= s.cfg.samples
    ensures ch !in SteadySampling(s, ch, reading, 33 + s.cfg.samples).calib
  {
    Pow2Of32();
    GapCloses(s, ch, reading, 32);
    var r := SteadySampling(s, ch, reading, 32);
    SamplingSplit(s, ch, reading, 32, 1 + s.cfg.samples);
    if ch in r.calib { SteadyCompletes(r, ch, reading, 1 + s.cfg.samples); }
  }

  lemma Pow2Of32()
    ensures Pow2(32) == 0x1_0000_0000
  {
    assert Pow2(8) == 0x100;
    assert Pow2(12) == 0x1000;
    assert Pow2(16) == 0x1_0000;
    assert Pow2(20) == 0x10_0000;
    assert Pow2(24) == 0x100_0000;
    assert Pow2(28) == 0x1000_0000;
  }

  /** A level below its divisor leaves no tolerance, and a load one off the reading never settles. */
  lemma {:induction false} NoToleranceNeverCalibrates(s: State, ch: Channel, reading: nat, n: nat)
    requires |s.data| == MAX_CHANNELS && s.cfg.calDiv > 0 && s.cfg.level / s.cfg.calDiv == 0
    requires ch in s.calib && 0 < s.data[ch].calSamples <= s.cfg.samples < 0x100
    requires Gap(s, ch, reading) >= 1
    ensures ch in SteadySampling(s, ch, reading, n).calib
    decreases n
  {
    if n == 0 {
    } else {
      OneSample(s, ch, reading);
      NoToleranceNeverCalibrates(Calibrate(StoreReading(s, ch, reading), ch), ch, reading, n - 1);
    }
  }

  /** Exactly when a constant reading calibrates a channel: there is tolerance, or the load is the reading
      already, or no sample is left to take. When it does not within 33 + S samples, it never does. */
  lemma CalibratesIff(s: State, ch: Channel, reading: nat)
    requires Inv(s) && reading < 0x1_0000_0000 && ch in s.calib
    requires s.data[ch].calSamples <= s.cfg.samples
    ensures ch !in SteadySampling(s, ch, reading, 33 + s.cfg.samples).calib <==>
            s.cfg.level / s.cfg.calDiv >= 1 || Gap(s, ch, reading) == 0 || s.data[ch].calSamples == 0
    ensures ch in SteadySampling(s, ch, reading, 33 + s.cfg.samples).calib ==>
              forall n: nat :: ch in SteadySampling(s, ch, reading, n).calib
  {
    if s.cfg.level / s.cfg.calDiv >= 1 {
      CalibrationTerminates(s, ch, reading);
    } else if s.data[ch].calSamples == 0 {
    } else if Gap(s, ch, reading) == 0 {
      SteadyCompletes(s, ch, reading, 33 + s.cfg.samples);
    } else {
      forall n: nat ensures ch in SteadySampling(s, ch, reading, n).calib {
        NoToleranceNeverCalibrates(s, ch, reading, n);
      }
    }
  }

  // ---- the same over runs ---------------------------------------------------------------------

  predicate Samples(s: State, e: Event, ch: Channel)
    requires |s.data| == MAX_CHANNELS
  {
    e.Loop? && Sample(s, e.active, e.discard, e.reading).1 == Sampled(ch)
  }

  /** The event gives the channel the steady reading, or does not concern its calibration. */
  predicate Undisturbed(s: State, e: Event, ch: Channel, reading: nat)
    requires |s.data| == MAX_CHANNELS
  {
    match e
    case Loop(_, _, r) => Samples(s, e, ch) ==> r == reading
    case Tick => Decr32(s.recalCountdown) != 0
    case ForceCalibration => false
    case SetEnabled(mask) => ch in mask
    case Configure(cfg) => cfg.samples == s.cfg.samples && cfg.level == s.cfg.level && cfg.calDiv == s.cfg.calDiv
    case _ => true
  }

  lemma LoopUndisturbed(s: State, e: Event, ch: Channel, reading: nat)
    requires Inv(s) && ValidEvent(e) && e.Loop? && ch in s.calib && Undisturbed(s, e, ch, reading)
    ensures var r := Step(s, e); var d := s.data[ch].(prms := reading);
            if !Samples(s, e, ch) then ch in r.calib && r.data[ch] == s.data[ch]
            else if d.calSamples == 0 then ch !in r.calib
            else ch in r.calib && r.data[ch] == CalibrateData(d, s.cfg)
  {
    SampleInv(s, e.active, e.discard, e.reading);
    SampleEligible(s, e.active, e.discard, e.reading);
    SampleFrame(s, e.active, e.discard, e.reading);
    var (s1, sampled) := Sample(s, e.active, e.discard, e.reading);
    if sampled.Sampled? && sampled.ch != ch && !NeedCalibration(s1, sampled.ch) && s1.monitoring {
      MonitorCases(s1, sampled.ch);
    }
  }

  lemma StepUndisturbed(s: State, e: Event, ch: Channel, reading: nat)
    requires Inv(s) && ValidEvent(e) && ch in s.calib && Undisturbed(s, e, ch, reading)
    ensures var r := Step(s, e); var d := s.data[ch].(prms := reading);
            if !Samples(s, e, ch) then ch in r.calib && r.data[ch] == s.data[ch]
            else if d.calSamples == 0 then ch !in r.calib
            else ch in r.calib && r.data[ch] == CalibrateData(d, s.cfg)
    ensures Step(s, e).cfg.samples == s.cfg.samples
    ensures Step(s, e).cfg.level == s.cfg.level && Step(s, e).cfg.calDiv == s.cfg.calDiv
  {
    match e {
      case Loop(_, _, _) => LoopUndisturbed(s, e, ch, reading);
      case SetEnabled(mask) => EnabledChanges(s, mask, ch);
      case _ =>
    }
  }

  /** As long as the channel is in calibration, no event of the run disturbs that. */
  ghost predicate UndisturbedRun(s: State, es: seq<Event>, ch: Channel, reading: nat)
    requires Inv(s) && ValidEvents(es)
    decreases |es|
  {
    ch in s.calib && es != [] ==>
      && Undisturbed(s, es[0], ch, reading)
      && (StepInv(s, es[0]); UndisturbedRun(Step(s, es[0]), es[1..], ch, reading))
  }

  /** The channel is in calibration before, between and after the events of the run. */
  ghost predicate CalibratingThroughout(s: State, es: seq<Event>, ch: Channel)
    requires Inv(s) && ValidEvents(es)
    decreases |es|
  {
    ch in s.calib && (es != [] ==> (StepInv(s, es[0]); CalibratingThroughout(Step(s, es[0]), es[1..], ch)))
  }

  ghost function SampleCount(s: State, es: seq<Event>, ch: Channel): nat
    requires Inv(s) && ValidEvents(es)
    decreases |es|
  {
    if es == [] then 0
    else
      StepInv(s, es[0]);
      (if Samples(s, es[0], ch) then 1 else 0) + SampleCount(Step(s, es[0]), es[1..], ch)
  }

  /** What lets a steady reading calibrate the channel. */
  predicate Calibratable(s: State, ch: Channel, reading: nat)
    requires |s.data| == MAX_CHANNELS && s.cfg.calDiv > 0
  {
    s.cfg.level / s.cfg.calDiv >= 1 || Gap(s, ch, reading) == 0 || s.data[ch].calSamples == 0
  }

  /** Samples a calibratable channel can still take, with a gap of at most 2 to the n. */
  function Budget(s: State, ch: Channel, n: nat): nat
    requires |s.data| == MAX_CHANNELS
  {
    if n == 0 then s.data[ch].calSamples else n + s.cfg.samples
  }

  lemma StepBudget(s: State, e: Event, ch: Channel, reading: nat, n: nat)
    requires Inv(s) && ValidEvent(e) && ch in s.calib && Undisturbed(s, e, ch, reading)
    requires s.data[ch].calSamples <= s.cfg.samples && Gap(s, ch, reading) <= Pow2(n)
    requires Calibratable(s, ch, reading) && ch in Step(s, e).calib && |Step(s, e).data| == MAX_CHANNELS
    ensures var r := Step(s, e); var m := if Samples(s, e, ch) && n > 0 then n - 1 else n;
            && Gap(r, ch, reading) <= Pow2(m) && r.data[ch].calSamples <= r.cfg.samples
            && r.cfg.calDiv > 0 && Calibratable(r, ch, reading)
            && Budget(r, ch, m) + (if Samples(s, e, ch) then 1 else 0) <= Budget(s, ch, n)
  {
    hide Step, Samples, Undisturbed;
    StepUndisturbed(s, e, ch, reading);
    DistanceHalves(s.data[ch].(prms := reading), s.cfg);
  }

  lemma {:induction false} CountWithinBudget(s: State, es: seq<Event>, ch: Channel, reading: nat, n: nat)
    requires Inv(s) && ValidEvents(es) && UndisturbedRun(s, es, ch, reading)
    requires s.data[ch].calSamples <= s.cfg.samples && Gap(s, ch, reading) <= Pow2(n)
    requires Calibratable(s, ch, reading) && CalibratingThroughout(s, es, ch)
    ensures SampleCount(s, es, ch) <= Budget(s, ch, n)
    decreases |es|
  {
    hide Step, Samples, Undisturbed, Gap, Calibratable, Budget;
    if es == [] {
    } else {
      StepInv(s, es[0]);
      StepBudget(s, es[0], ch, reading, n);
      CountWithinBudget(Step(s, es[0]), es[1..], ch, reading, if Samples(s, es[0], ch) && n > 0 then n - 1 else n);
    }
  }

  lemma {:induction false} NeverInRun(s: State, es: seq<Event>, ch: Channel, reading: nat)
    requires Inv(s) && ValidEvents(es) && UndisturbedRun(s, es, ch, reading)
    requires ch in s.calib && s.data[ch].calSamples <= s.cfg.samples && !Calibratable(s, ch, reading)
    ensures CalibratingThroughout(s, es, ch) && ch in Run(s, es).calib
    decreases |es|
  {
    hide Step, Samples, Undisturbed;
    if es == [] {
    } else {
      StepInv(s, es[0]);
      StepUndisturbed(s, es[0], ch, reading);
      DistanceHalves(s.data[ch].(prms := reading), s.cfg);
      NeverInRun(Step(s, es[0]), es[1..], ch, reading);
    }
  }

  /** Over every run that does not disturb it and samples it 33 + S times with a constant reading, other
      events and other channels' samples in between: the channel leaves calibration exactly if there is
      tolerance, or its load is the reading already, or no sample was left to take. */
  lemma CalibratesInRunIff(s: State, es: seq<Event>, ch: Channel, reading: nat)
    requires Inv(s) && ValidEvents(es) && UndisturbedRun(s, es, ch, reading) && reading < 0x1_0000_0000
    requires ch in s.calib && s.data[ch].calSamples <= s.cfg.samples
    requires SampleCount(s, es, ch) >= 33 + s.cfg.samples
    ensures !CalibratingThroughout(s, es, ch) <==> Calibratable(s, ch, reading)
  {
    Pow2Of32();
    if !Calibratable(s, ch, reading) {
      NeverInRun(s, es, ch, reading);
    } else if CalibratingThroughout(s, es, ch) {
      CountWithinBudget(s, es, ch, reading, 32);
    }
  }

  /** Set up with a level below the calibration divisor, a channel with any load is never calibrated by a
      constant reading, in no undisturbed run. */
  lemma NoToleranceFromSetup(cfg: Config, enabled: Mask, critical: Mask, discard: nat,
                             es: seq<Event>, ch: Channel, reading: nat)
    requires cfg.Valid() && discard < 0x1_0000_0000 && cfg.level < cfg.calDiv && cfg.samples >= 1
    requires ch in enabled && 1 <= reading < 0x1_0000_0000 && ValidEvents(es)
    requires UndisturbedRun(Start(cfg, enabled, critical, discard), es, ch, reading)
    ensures ch in Run(Start(cfg, enabled, critical, discard), es).calib
  {
    var s := Start(cfg, enabled, critical, discard);
    hide Start;
    assert s.data[ch].pmax == 0;
    NeverInRun(s, es, ch, reading);
  }
}
