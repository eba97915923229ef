/** How long a lasting loss of load can go unmarked, and what can hide it for good. */
module Detection {
  import opened Supervision
  import opened SupervisionInvariant
  import opened Suspension
  import C = Calibration
  import F = FaultCount
  import R = Sampling

  // ---- a lasting loss is marked ---------------------------------------------------------------

  /** The channel is monitored. */
  ghost predicate Monitored(s: State, ch: Channel) {
    Inv(s) && s.monitoring && ch in s.enabled && ch !in s.calib
  }

  /** Every sample of the channel shows the loss, and the event does not restart or change the monitoring. */
  predicate KeepsLoss(s: State, e: Event, ch: Channel)
    requires |s.data| == MAX_CHANNELS && s.cfg.detDiv > 0
  {
    match e
    case Loop(_, _, reading) => C.Samples(s, e, ch) ==> ShowsLoss(s.data[ch].pmax, reading, s.cfg)
    case Tick => Decr32(s.recalCountdown) != 0
    case ForceCalibration => false
    case DisableMonitoring => false
    case SetEnabled(mask) => ch in mask
    case Configure(cfg) =>
      cfg.samples == s.cfg.samples && cfg.checks == s.cfg.checks && cfg.checkTime == s.cfg.checkTime
    case _ => true
  }

  ghost predicate Marked(s: State, ch: Channel) {
    ch in s.faulted && ch in s.calib
  }

  /** Until the channel is marked, every event of the run keeps the loss. */
  ghost predicate LossLasts(s: State, es: seq<Event>, ch: Channel)
    requires Inv(s) && ValidEvents(es)
    decreases |es|
  {
    es != [] && !Marked(s, ch) ==>
      KeepsLoss(s, es[0], ch) && (StepInv(s, es[0]); LossLasts(Step(s, es[0]), es[1..], ch))
  }

  /** The channel is marked before, between or after the events of the run. */
  ghost predicate MarkedWithin(s: State, es: seq<Event>, ch: Channel)
    requires Inv(s) && ValidEvents(es)
    decreases |es|
  {
    Marked(s, ch) || (es != [] && (StepInv(s, es[0]); MarkedWithin(Step(s, es[0]), es[1..], ch)))
  }

  /** Ticks that find the channel suspended. */
  ghost function SuspendedTicks(s: State, es: seq<Event>, ch: Channel): nat
    requires Inv(s) && ValidEvents(es)
    decreases |es|
  {
    if es == [] then 0
    else
      StepInv(s, es[0]);
      (if es[0].Tick? && ch in s.suspended then 1 else 0) + SuspendedTicks(Step(s, es[0]), es[1..], ch)
  }

  /** Ticks of suspension still possible: what is left of the present one, and 16 T + 1 for every check
      that can still fail. */
  ghost function Delay(s: State, ch: Channel): int
    requires |s.data| == MAX_CHANNELS
  {
    (if ch in s.suspended then Remaining(s) + 1 else 0)
    + Times(s.cfg.checks - 1 - s.data[ch].lossyChecks, 16 * s.cfg.checkTime + 1)
  }

  /** The sample of a loss that completes the last check. */
  ghost predicate LastSample(s: State, e: Event, ch: Channel)
    requires |s.data| == MAX_CHANNELS
  {
    && C.Samples(s, e, ch)
    && s.data[ch].lossySamples + 1 >= s.cfg.samples && s.data[ch].lossyChecks + 1 >= s.cfg.checks
  }

  lemma KeepsMonitoring(s: State, e: Event, ch: Channel)
    requires Monitored(s, ch) && ValidEvent(e) && KeepsLoss(s, e, ch)
    ensures Step(s, e).monitoring && ch in Step(s, e).enabled
    ensures ch in Step(s, e).calib ==> LastSample(s, e, ch) && ch in Step(s, e).faulted
  {
    match e {
      case Loop(_, _, _) => LoopKeepsMonitoring(s, e, ch);
      case SetEnabled(mask) => EnabledChanges(s, mask, ch);
      case _ =>
    }
  }

  lemma LoopKeepsMonitoring(s: State, e: Event, ch: Channel)
    requires Monitored(s, ch) && ValidEvent(e) && e.Loop?
    ensures Step(s, e).monitoring && ch in Step(s, e).enabled
    ensures ch in Step(s, e).calib ==> LastSample(s, e, ch) && ch in Step(s, e).faulted
  {
    SampleInv(s, e.active, e.discard, e.reading);
    SampleEligible(s, e.active, e.discard, e.reading);
    SampleFrame(s, e.active, e.discard, e.reading);
    var (s1, sampled) := Sample(s, e.active, e.discard, e.reading);
    if sampled.Sampled? && !NeedCalibration(s1, sampled.ch) { MonitorCases(s1, sampled.ch); }
  }

  lemma ObservesLoss(s: State, e: Event, ch: Channel)
    requires Monitored(s, ch) && KeepsLoss(s, e, ch)
    ensures F.Observe(s, e, ch) == if C.Samples(s, e, ch) then F.Lossy else F.Unseen
  {
  }

  lemma LastMeansLimit(s: State, e: Event, ch: Channel, n: nat)
    requires |s.data| == MAX_CHANNELS && F.Counts(s, ch, n) && LastSample(s, e, ch)
    ensures n + 1 == s.cfg.checks * s.cfg.samples
  {
    F.LastOfAll(s.data[ch].lossyChecks, s.data[ch].lossySamples, s.cfg.checks, s.cfg.samples);
  }

  lemma KeepsThresholds(s: State, e: Event, ch: Channel)
    requires Inv(s) && KeepsLoss(s, e, ch)
    ensures F.SameThresholds(s, e)
    ensures var r := Step(s, e);
            r.cfg.samples == s.cfg.samples && r.cfg.checks == s.cfg.checks && r.cfg.checkTime == s.cfg.checkTime
  {
    hide Step;
  }

  /** A sample adds one to the count and marks the channel at the limit; no other event concerns it. */
  lemma StepKeepsLoss(s: State, e: Event, ch: Channel, n: nat)
    requires Monitored(s, ch) && ValidEvent(e) && KeepsLoss(s, e, ch) && F.Counts(s, ch, n)
    ensures var r := Step(s, e); var sampled := C.Samples(s, e, ch);
            var limit := s.cfg.checks * s.cfg.samples;
            && Inv(r) && r.cfg.samples == s.cfg.samples && r.cfg.checks == s.cfg.checks
            && r.cfg.checkTime == s.cfg.checkTime
            && if sampled && n + 1 == limit then Marked(r, ch)
               else Monitored(r, ch) && F.Counts(r, ch, if sampled then n + 1 else n)
  {
    hide Step, C.Samples, KeepsLoss, F.Observe, F.Counts, LastSample;
    StepInv(s, e);
    KeepsThresholds(s, e, ch);
    F.StepCount(s, e, ch, n);
    ObservesLoss(s, e, ch);
    KeepsMonitoring(s, e, ch);
    if LastSample(s, e, ch) { LastMeansLimit(s, e, ch, n); }
    LastIsSampled(s, e, ch);
  }

  lemma LastIsSampled(s: State, e: Event, ch: Channel)
    requires |s.data| == MAX_CHANNELS
    ensures LastSample(s, e, ch) ==> C.Samples(s, e, ch)
  {
  }

  /** The checks counted go up exactly when the channel is suspended. */
  lemma LoopChecks(s: State, e: Event, ch: Channel)
    requires Monitored(s, ch) && ValidEvent(e) && e.Loop? && KeepsLoss(s, e, ch)
    requires ch !in Step(s, e).calib && |Step(s, e).data| == MAX_CHANNELS
    ensures var failed := C.Samples(s, e, ch) && Suspends(s, e.active, e.discard, e.reading);
            && Step(s, e).data[ch].lossyChecks == s.data[ch].lossyChecks + (if failed then 1 else 0)
            && (failed ==> s.data[ch].lossyChecks + 1 < s.cfg.checks)
  {
    SampleInv(s, e.active, e.discard, e.reading);
    SampleEligible(s, e.active, e.discard, e.reading);
    SampleFrame(s, e.active, e.discard, e.reading);
    var (s1, sampled) := Sample(s, e.active, e.discard, e.reading);
    if sampled.Sampled? && !NeedCalibration(s1, sampled.ch) { MonitorCases(s1, sampled.ch); }
  }

  /** A failed check is paid for by the share of the delay kept for it. */
  lemma DelayPays(s: State, r: State, ch: Channel, failed: bool)
    requires |s.data| == |r.data| == MAX_CHANNELS && r.cfg == s.cfg
    requires r.resumeCountdown <= r.cfg.checkTime && Remaining(r) <= Remaining(s)
    requires ch in r.suspended <==> ch in s.suspended || failed
    requires r.data[ch].lossyChecks == s.data[ch].lossyChecks + (if failed then 1 else 0)
    requires failed ==> ch !in s.suspended && s.data[ch].lossyChecks + 1 < s.cfg.checks
    ensures Delay(r, ch) <= Delay(s, ch)
  {
    hide Remaining;
    if failed {
      var left, p := s.cfg.checks - 1 - s.data[ch].lossyChecks, 16 * s.cfg.checkTime + 1;
      RemainingAtMost(r, s.cfg.checkTime);
      assert Times(left, p) == p + Times(left - 1, p);
    }
  }

  lemma LoopDelay(s: State, e: Event, ch: Channel)
    requires Monitored(s, ch) && ValidEvent(e) && e.Loop? && KeepsLoss(s, e, ch)
    requires s.resumeCountdown <= s.cfg.checkTime
    requires ch !in Step(s, e).calib && |Step(s, e).data| == MAX_CHANNELS
    ensures Delay(Step(s, e), ch) <= Delay(s, ch)
  {
    hide ControlLoop, Sample, KeepsLoss, Delay, Remaining;
    LoopChecks(s, e, ch);
    LoopSuspends(s, e.active, e.discard, e.reading);
    LoopRemaining(s, e.active, e.discard, e.reading);
    DelayPays(s, Step(s, e), ch, C.Samples(s, e, ch) && Suspends(s, e.active, e.discard, e.reading));
  }

  /** Every tick of suspension uses up a part of the delay, and nothing adds to it. */
  lemma StepDelay(s: State, e: Event, ch: Channel)
    requires Monitored(s, ch) && ValidEvent(e) && KeepsLoss(s, e, ch)
    requires s.resumeCountdown <= s.cfg.checkTime
    requires ch !in Step(s, e).calib && |Step(s, e).data| == MAX_CHANNELS
    ensures Delay(Step(s, e), ch) + (if e.Tick? && ch in s.suspended then 1 else 0) <= Delay(s, ch)
  {
    hide ControlLoop, Times;
    match e {
      case Loop(_, _, _) => LoopDelay(s, e, ch);
      case Tick =>
        if ch in Step(s, Tick).suspended { StepRemaining(s, Tick, ch); }
      case SetEnabled(mask) => EnabledChanges(s, mask, ch);
      case _ =>
    }
  }

  lemma {:induction false} UnmarkedBudget(s: State, es: seq<Event>, ch: Channel, n: nat)
    requires Monitored(s, ch) && ValidEvents(es) && LossLasts(s, es, ch) && F.Counts(s, ch, n)
    requires s.resumeCountdown <= s.cfg.checkTime && !MarkedWithin(s, es, ch)
    ensures n + C.SampleCount(s, es, ch) < s.cfg.checks * s.cfg.samples
    ensures SuspendedTicks(s, es, ch) <= Delay(s, ch)
    decreases |es|
  {
    hide Step, KeepsLoss, Delay;
    if es == [] {
      CountBelowLimit(s, ch, n);
      DelayNotNegative(s, ch);
    } else {
      StepInv(s, es[0]);
      StepKeepsLoss(s, es[0], ch, n);
      StepDelay(s, es[0], ch);
      StepCountdown(s, es[0]);
      UnmarkedBudget(Step(s, es[0]), es[1..], ch, if C.Samples(s, es[0], ch) then n + 1 else n);
    }
  }

  lemma CountBelowLimit(s: State, ch: Channel, n: nat)
    requires |s.data| == MAX_CHANNELS && F.Counts(s, ch, n)
    ensures n < s.cfg.checks * s.cfg.samples
  {
    F.LastOfAll(s.data[ch].lossyChecks, s.data[ch].lossySamples, s.cfg.checks, s.cfg.samples);
  }

  lemma DelayNotNegative(s: State, ch: Channel)
    requires |s.data| == MAX_CHANNELS
    ensures Delay(s, ch) >= 0
  {
  }

  lemma DelayFromGood(s: State, ch: Channel)
    requires |s.data| == MAX_CHANNELS && s.data[ch].lossyChecks == 0 && ch !in s.suspended && s.cfg.checks >= 1
    ensures Delay(s, ch) == (s.cfg.checks - 1) * (16 * s.cfg.checkTime + 1)
  {
    TimesIsProduct(s.cfg.checks - 1, 16 * s.cfg.checkTime + 1);
  }

  /** A loss that begins on a good, unsuspended channel and lasts is marked by its R * S-th sample, and
      suspension keeps the channel from being sampled for at most (R - 1) (16 T + 1) ticks until then. */
  lemma LossIsMarked(s: State, es: seq<Event>, ch: Channel)
    requires Monitored(s, ch) && ValidEvents(es) && LossLasts(s, es, ch)
    requires s.cfg.samples >= 1 && s.cfg.checks >= 1 && s.resumeCountdown <= s.cfg.checkTime
    requires s.data[ch].lossyChecks == s.data[ch].lossySamples == 0 && ch !in s.suspended
    requires || C.SampleCount(s, es, ch) >= s.cfg.checks * s.cfg.samples
             || SuspendedTicks(s, es, ch) > (s.cfg.checks - 1) * (16 * s.cfg.checkTime + 1)
    ensures MarkedWithin(s, es, ch)
  {
    if !MarkedWithin(s, es, ch) {
      DelayFromGood(s, ch);
      UnmarkedBudget(s, es, ch, 0);
    }
  }

  /** After a sample that shows the loss, unless the channel is marked or suspended by it, every iteration that
      finds the channel powered samples it again. */
  lemma LossIsFollowed(s: State, e: Event, f: Event, ch: Channel)
    requires Monitored(s, ch) && ValidEvent(e) && e.Loop? && C.Samples(s, e, ch) && KeepsLoss(s, e, ch)
    requires Inv(Step(s, e)) && ch !in Step(s, e).calib && ch !in Step(s, e).suspended
    requires f.Loop? && ch in f.active
    ensures C.Samples(Step(s, e), f, ch)
  {
    SampleInv(s, e.active, e.discard, e.reading);
    SampleEligible(s, e.active, e.discard, e.reading);
    SampleFrame(s, e.active, e.discard, e.reading);
    MonitorCases(Sample(s, e.active, e.discard, e.reading).0, ch);
    var r := Step(s, e);
    assert ch in Eligible(r, f.active) * r.lossy;
    R.SamplingPolicy(r, f.active, f.discard, f.reading);
  }

  // ---- what hides a loss ----------------------------------------------------------------------

  /** Every loop iteration finds the channel eligible, and no lossy channel is. */
  ghost predicate Favoured(s: State, es: seq<Event>, ch: Channel)
    requires Inv(s) && ValidEvents(es)
    decreases |es|
  {
    es != [] ==>
      && (es[0].Loop? ==> ch in Eligible(s, es[0].active) && Eligible(s, es[0].active) * s.lossy == {})
      && (StepInv(s, es[0]); Favoured(Step(s, es[0]), es[1..], ch))
  }

  /** An iteration that finds the current channel uncalibrated, and nothing lossy, samples and calibrates it. */
  lemma StuckLoop(s: State, e: Event, ch: Channel)
    requires Inv(s) && ValidEvent(e) && e.Loop? && ch in s.calib && s.curCh == ch
    requires ch in Eligible(s, e.active) && Eligible(s, e.active) * s.lossy == {}
    ensures R.SampledBy(s, e) == [ch] && C.Samples(s, e, ch)
    ensures var r := Step(s, e); r.curCh == ch && r.faulted == s.faulted && r.lossy == s.lossy
  {
    assert ch in Eligible(s, e.active) * s.calib;
    R.SamplingPolicy(s, e.active, e.discard, e.reading);
    SampleFrame(s, e.active, e.discard, e.reading);
  }

  /** The other events that leave its calibration alone leave these alone too. */
  lemma StuckOther(s: State, e: Event, ch: Channel, reading: nat)
    requires Inv(s) && ValidEvent(e) && !e.Loop? && C.Undisturbed(s, e, ch, reading)
    ensures R.SampledBy(s, e) == []
    ensures var r := Step(s, e); r.curCh == s.curCh && r.faulted == s.faulted && r.lossy <= s.lossy
  {
  }

  /** A current channel that a steady reading cannot calibrate is the only one sampled from then on, and no
      channel is ever marked faulted. */
  lemma {:induction false} UncalibratableStarves(s: State, es: seq<Event>, ch: Channel, reading: nat)
    requires Inv(s) && ValidEvents(es) && C.UndisturbedRun(s, es, ch, reading) && Favoured(s, es, ch)
    requires s.curCh == ch && ch in s.calib && s.data[ch].calSamples <= s.cfg.samples
    requires !C.Calibratable(s, ch, reading)
    ensures forall i :: 0 <= i < |R.SampledIn(s, es)| ==> R.SampledIn(s, es)[i] == ch
    ensures |R.SampledIn(s, es)| == R.Loops(es)
    ensures Run(s, es).faulted == s.faulted
    decreases |es|
  {
    hide Step, Sample, C.Undisturbed, C.Samples;
    if es == [] {
    } else {
      StepInv(s, es[0]);
      C.StepUndisturbed(s, es[0], ch, reading);
      DistanceHalves(s, ch, reading);
      if es[0].Loop? { StuckLoop(s, es[0], ch); } else { StuckOther(s, es[0], ch, reading); }
      UncalibratableStarves(Step(s, es[0]), es[1..], ch, reading);
    }
  }

  lemma DistanceHalves(s: State, ch: Channel, reading: nat)
    requires Inv(s)
    ensures var v := C.Apart(s.data[ch].pmax, reading);
            C.Apart(CalibrateData(s.data[ch].(prms := reading), s.cfg).pmax, reading) == v - v / 2
  {
    C.DistanceHalves(s.data[ch].(prms := reading), s.cfg);
  }

  /** Every loop iteration of the run finds the channel powered. */
  ghost predicate AlwaysPowered(es: seq<Event>, ch: Channel) {
    forall i :: 0 <= i < |es| && es[i].Loop? ==> ch in es[i].active
  }

  lemma {:induction false} PoweredIsFavoured(s: State, es: seq<Event>, ch: Channel, reading: nat)
    requires Inv(s) && ValidEvents(es) && C.UndisturbedRun(s, es, ch, reading) && AlwaysPowered(es, ch)
    requires s.curCh == ch && ch in s.calib && s.data[ch].calSamples <= s.cfg.samples
    requires !C.Calibratable(s, ch, reading) && s.lossy == {} && s.suspended == {}
    ensures Favoured(s, es, ch)
    decreases |es|
  {
    hide Step, Sample, C.Undisturbed, C.Samples;
    if es == [] {
    } else {
      StepInv(s, es[0]);
      C.StepUndisturbed(s, es[0], ch, reading);
      DistanceHalves(s, ch, reading);
      if es[0].Loop? { StuckLoop(s, es[0], ch); } else { StuckOther(s, es[0], ch, reading); }
      KeepsUnsuspended(s, es[0], ch, reading);
      PoweredIsFavoured(Step(s, es[0]), es[1..], ch, reading);
    }
  }

  lemma KeepsUnsuspended(s: State, e: Event, ch: Channel, reading: nat)
    requires Inv(s) && ValidEvent(e) && C.Undisturbed(s, e, ch, reading) && s.suspended == {}
    requires e.Loop? ==> C.Samples(s, e, ch) && ch in s.calib
    ensures Step(s, e).suspended == {}
  {
    match e {
      case Loop(active, discard, r) => LoopSuspends(s, active, discard, r);
      case _ =>
    }
  }

  /** Set up with a level below the calibration divisor: as long as the last channel is powered and reads a
      constant load, no other channel is ever sampled and no loss is ever found. */
  lemma StarvedFromSetup(cfg: Config, enabled: Mask, critical: Mask, discard: nat, es: seq<Event>, reading: nat)
    requires cfg.Valid() && discard < 0x1_0000_0000 && cfg.level < cfg.calDiv && cfg.samples >= 1
    requires 15 in enabled && 1 <= reading < 0x1_0000_0000 && ValidEvents(es)
    requires C.UndisturbedRun(Start(cfg, enabled, critical, discard), es, 15, reading) && AlwaysPowered(es, 15)
    ensures var s := Start(cfg, enabled, critical, discard);
            && (forall i :: 0 <= i < |R.SampledIn(s, es)| ==> R.SampledIn(s, es)[i] == 15)
            && Run(s, es).faulted == {}
  {
    hide Start, Step, C.UndisturbedRun;
    var s := Start(cfg, enabled, critical, discard);
    StartsOnLast(cfg, enabled, critical, discard, reading);
    PoweredIsFavoured(s, es, 15, reading);
    UncalibratableStarves(s, es, 15, reading);
  }

  lemma NoShare(level: nat, d: nat)
    requires level < d
    ensures level / d == 0
  {
  }

  lemma StartsOnLast(cfg: Config, enabled: Mask, critical: Mask, discard: nat, reading: nat)
    requires cfg.Valid() && discard < 0x1_0000_0000 && cfg.level < cfg.calDiv && cfg.samples >= 1
    requires 15 in enabled && 1 <= reading < 0x1_0000_0000
    ensures var s := Start(cfg, enabled, critical, discard);
            && s.curCh == 15 && s.lossy == s.suspended == s.faulted == {} && 15 in s.calib
            && s.data[15].calSamples == s.cfg.samples && !C.Calibratable(s, 15, reading)
  {
    hide Start;
    assert Start(cfg, enabled, critical, discard).data[15].pmax == 0;
    NoShare(cfg.level, cfg.calDiv);
  }
}
