/** A channel is marked faulted exactly when R * S consecutive monitored samples were lossy. */
module FaultCount {
  import opened Supervision
  import opened SupervisionInvariant

  /** What one event means for one channel, read off the event and the measurement alone. */
  datatype Observation = Unseen | Good | Lossy | Recalibrated

  function Observe(s: State, e: Event, ch: Channel): Observation
    requires |s.data| == MAX_CHANNELS && s.cfg.detDiv > 0
  {
    match e
    case Loop(active, discard, reading) =>
      if Sample(s, active, discard, reading).1 != Sampled(ch) || ch in s.calib || !s.monitoring then Unseen
      else if ShowsLoss(s.data[ch].pmax, reading, s.cfg) then Lossy
      else Good
    case Tick => if Decr32(s.recalCountdown) == 0 && ch in s.enabled then Recalibrated else Unseen
    case ForceCalibration => if ch in s.enabled then Recalibrated else Unseen
    case SetEnabled(mask) => if ch in mask && ch !in s.enabled then Recalibrated else Unseen
    case _ => Unseen
  }

  /** Consecutive lossy samples after one more observation; the limit-th makes a fault, which recalibrates. */
  function Count(n: nat, o: Observation, limit: nat): nat {
    match o
    case Unseen => n
    case Good => 0
    case Recalibrated => 0
    case Lossy => if n + 1 == limit then 0 else n + 1
  }

  predicate Reaches(n: nat, o: Observation, limit: nat) {
    o == Lossy && n + 1 == limit
  }

  /** Two counters, of samples within a check and of checks, stand for one count of samples. */
  ghost predicate Counts(s: State, ch: Channel, n: nat)
    requires |s.data| == MAX_CHANNELS
  {
    var d := s.data[ch];
    && d.lossySamples < s.cfg.samples && d.lossyChecks < s.cfg.checks
    && n == d.lossyChecks * s.cfg.samples + d.lossySamples
  }

  /** From `s` to `r` the count follows the observation, and the channel is newly faulted only, and
      always, when the count reaches R * S. */
  ghost predicate Follows(s: State, r: State, ch: Channel, n: nat, o: Observation) {
    var limit := s.cfg.checks * s.cfg.samples;
    && |r.data| == MAX_CHANNELS
    && Counts(r, ch, Count(n, o, limit))
    && (Reaches(n, o, limit) ==> ch in r.faulted && ch in r.calib)
    && (!Reaches(n, o, limit) && ch in r.faulted ==> ch in s.faulted)
  }

  lemma LastOfAll(c: nat, x: nat, r: nat, s: nat)
    requires c < r && x < s
    ensures c * s + x < r * s
    ensures c * s + x + 1 == r * s <==> c + 1 == r && x + 1 == s
    ensures (c + 1) * s == c * s + s
  {
    Distribute(c, r - c, s);
    Distribute(c, 1, s);
    if r - c >= 2 { Distribute(r - c - 2, 2, s); }
  }

  lemma Distribute(a: nat, b: nat, s: nat)
    ensures (a + b) * s == a * s + b * s
  {
  }

  lemma MonitorCount(s: State, ch: Channel, n: nat)
    requires Inv(s) && ch in s.enabled && Counts(s, ch, n)
    ensures Follows(s, Monitor(s, ch), ch, n,
                    if ShowsLoss(s.data[ch].pmax, s.data[ch].prms, s.cfg) then Lossy else Good)
  {
    hide ShowsLoss, Monitor;
    MonitorCases(s, ch);
    LastOfAll(s.data[ch].lossyChecks, s.data[ch].lossySamples, s.cfg.checks, s.cfg.samples);
  }

  lemma MonitorOther(s: State, ch: Channel, other: Channel)
    requires Inv(s) && ch in s.enabled && other != ch
    ensures Monitor(s, ch).data[other] == s.data[other]
    ensures other in Monitor(s, ch).faulted <==> other in s.faulted
  {
    hide ShowsLoss, Monitor;
    MonitorCases(s, ch);
  }

  lemma LoopCount(s: State, active: Mask, discard: nat, reading: nat, ch: Channel, n: nat)
    requires Inv(s) && discard < 0x1_0000_0000 && reading < 0x1_0000_0000 && Counts(s, ch, n)
    ensures Follows(s, ControlLoop(s, active, discard, reading), ch, n, Observe(s, Loop(active, discard, reading), ch))
  {
    hide ShowsLoss, Monitor;
    SampleInv(s, active, discard, reading);
    SampleEligible(s, active, discard, reading);
    SampleFrame(s, active, discard, reading);
    var (s1, sampled) := Sample(s, active, discard, reading);
    assert Counts(s1, ch, n);
    if sampled.Sampled? && !NeedCalibration(s1, sampled.ch) && s1.monitoring {
      if sampled.ch == ch {
        MonitorCount(s1, ch, n);
      } else {
        MonitorOther(s1, sampled.ch, ch);
      }
    }
  }

  /** The event keeps S and R. */
  predicate SameThresholds(s: State, e: Event) {
    e.Configure? ==> e.cfg.samples == s.cfg.samples && e.cfg.checks == s.cfg.checks
  }

  lemma EnableCount(s: State, mask: Mask, ch: Channel, n: nat)
    requires Inv(s) && Counts(s, ch, n)
    ensures Follows(s, ApplyEnabled(s, mask), ch, n, Observe(s, SetEnabled(mask), ch))
  {
    hide ApplyEnabled;
    EnabledChanges(s, mask, ch);
  }

  lemma CalibrationCount(s: State, ch: Channel, n: nat)
    requires Inv(s) && Counts(s, ch, n)
    ensures Follows(s, ApplyCalibration(s), ch, n, Observe(s, ForceCalibration, ch))
  {
    hide ApplyCalibration;
    CalibrationForgets(s, ch);
  }

  lemma TickCount(s: State, ch: Channel, n: nat)
    requires Inv(s) && Counts(s, ch, n)
    ensures Follows(s, TickStep(s), ch, n, Observe(s, Tick, ch))
  {
    hide ApplyCalibration;
    var due := ResumeTick(s).(recalCountdown := RecalTicks(s.cfg));
    CalibrationCount(due, ch, n);
  }

  lemma StepCount(s: State, e: Event, ch: Channel, n: nat)
    requires Inv(s) && ValidEvent(e) && Counts(s, ch, n) && SameThresholds(s, e)
    ensures Follows(s, Step(s, e), ch, n, Observe(s, e, ch))
  {
    hide ControlLoop, ApplyEnabled, ApplyCalibration, TickStep;
    match e {
      case Loop(active, discard, reading) => LoopCount(s, active, discard, reading, ch, n);
      case SetEnabled(mask) => EnableCount(s, mask, ch, n);
      case ForceCalibration => CalibrationCount(s, ch, n);
      case Tick => TickCount(s, ch, n);
      case _ =>
    }
  }

  /** The count after a run, by the observations only. */
  ghost function Streak(s: State, es: seq<Event>, ch: Channel, n: nat, limit: nat): nat
    requires Inv(s) && ValidEvents(es)
    decreases |es|
  {
    if es == [] then n
    else
      StepInv(s, es[0]);
      Streak(Step(s, es[0]), es[1..], ch, Count(n, Observe(s, es[0], ch), limit), limit)
  }

  ghost predicate ThresholdsKept(s: State, es: seq<Event>) {
    forall i :: 0 <= i < |es| ==> SameThresholds(s, es[i])
  }

  /** Over every run that keeps S and R: `lossyChecks * S + lossySamples` is the number of consecutive
      lossy samples, across suspensions, resumes and the steps of other channels. */
  lemma {:induction false} CountsOverRun(s: State, es: seq<Event>, ch: Channel, n: nat, limit: nat)
    requires Inv(s) && ValidEvents(es) && ThresholdsKept(s, es) && Counts(s, ch, n)
    requires limit == s.cfg.checks * s.cfg.samples
    ensures Counts(Run(s, es), ch, Streak(s, es, ch, n, limit))
    ensures Run(s, es).cfg.samples == s.cfg.samples && Run(s, es).cfg.checks == s.cfg.checks
    decreases |es|
  {
    if es == [] {
    } else {
      StepInv(s, es[0]);
      var r := Step(s, es[0]);
      var n' := Count(n, Observe(s, es[0], ch), limit);
      assert Counts(r, ch, n') by { StepCount(s, es[0], ch, n); }
      assert SameThresholds(s, es[0]) && r.cfg.samples == s.cfg.samples && r.cfg.checks == s.cfg.checks;
      CountsOverRun(r, es[1..], ch, n', limit);
    }
  }

  /** The event `e` after the run `es` obeys the count of the run. */
  ghost predicate NextFollows(s: State, es: seq<Event>, e: Event, ch: Channel, limit: nat)
    requires Inv(s) && ValidEvents(es)
  {
    var before := Run(s, es);
    Follows(before, Step(before, e), ch, Streak(s, es, ch, 0, limit), Observe(before, e, ch))
  }

  /** From set-up on, with S and R at least 1 and kept: the next event marks the channel faulted exactly
      when it brings the number of consecutive lossy samples to R * S. */
  lemma FaultExactlyAtLimit(cfg: Config, enabled: Mask, critical: Mask, discard: nat,
                            es: seq<Event>, e: Event, ch: Channel)
    requires cfg.Valid() && cfg.samples >= 1 && cfg.checks >= 1 && discard < 0x1_0000_0000
    requires ValidEvents(es) && ValidEvent(e)
    requires ThresholdsKept(Start(cfg, enabled, critical, discard), es)
    requires SameThresholds(Start(cfg, enabled, critical, discard), e)
    ensures NextFollows(Start(cfg, enabled, critical, discard), es, e, ch, cfg.checks * cfg.samples)
  {
    var s := Start(cfg, enabled, critical, discard);
    var limit := cfg.checks * cfg.samples;
    CountsOverRun(s, es, ch, 0, limit);
    StepCount(Run(s, es), e, ch, Streak(s, es, ch, 0, limit));
  }
}
