/** What the switches do over runs: monitoring off, critical channels, and the weekly recalibration. */
module Switches {
  import opened Supervision
  import opened SupervisionInvariant
  import opened FromSetup
  import opened Suspension

  // ---- monitoring off -------------------------------------------------------------------------

  /** Nothing has been found. */
  ghost predicate NothingFound(s: State, r: State) {
    r.faulted <= s.faulted && r.suspended <= s.suspended && r.spoiled <= s.spoiled && r.lossy <= s.lossy
  }

  lemma StepUnmonitored(s: State, e: Event)
    requires Inv(s) && ValidEvent(e) && !s.monitoring && e != EnableMonitoring
    ensures !Step(s, e).monitoring && NothingFound(s, Step(s, e))
  {
    match e {
      case Loop(active, discard, reading) => SampleFrame(s, active, discard, reading);
      case _ =>
    }
  }

  lemma {:induction false} UnmonitoredRun(s: State, es: seq<Event>)
    requires Inv(s) && ValidEvents(es) && !s.monitoring
    requires forall i :: 0 <= i < |es| ==> es[i] != EnableMonitoring
    ensures NothingFound(s, Run(s, es))
    decreases |es|
  {
    hide Step;
    if es == [] {
    } else {
      StepInv(s, es[0]);
      StepUnmonitored(s, es[0]);
      UnmonitoredRun(Step(s, es[0]), es[1..]);
    }
  }

  /** Switched off, monitoring finds nothing until it is switched on again, whatever is read. */
  lemma DisabledFindsNothing(s: State, es: seq<Event>)
    requires Inv(s) && ValidEvents(es)
    requires forall i :: 0 <= i < |es| ==> es[i] != EnableMonitoring
    ensures ValidEvents([DisableMonitoring] + es) && NothingFound(s, Run(s, [DisableMonitoring] + es))
  {
    StepInv(s, DisableMonitoring);
    RunOne(s, DisableMonitoring);
    RunAppend(s, [DisableMonitoring], es);
    UnmonitoredRun(Step(s, DisableMonitoring), es);
  }

  // ---- critical channels ----------------------------------------------------------------------

  /** The fault light is on exactly when a critical channel is faulted. */
  ghost predicate LightIsRight(s: State) {
    s.criticalFaulted <==> s.faulted * s.critical != {}
  }

  lemma MonitorLight(s: State, ch: Channel)
    requires Inv(s) && ch in s.enabled && LightIsRight(s)
    ensures LightIsRight(Monitor(s, ch)) && Monitor(s, ch).critical == s.critical
  {
    hide Monitor, ShowsLoss;
    MonitorCases(s, ch);
    var r := Monitor(s, ch);
    if r.faulted != s.faulted || r.criticalFaulted != s.criticalFaulted {
      assert r.faulted * r.critical == s.faulted * s.critical + (if ch in s.critical then {ch} else {});
    }
  }

  lemma StepLight(s: State, e: Event)
    requires Inv(s) && ValidEvent(e) && LightIsRight(s) && !e.SetCritical?
    ensures LightIsRight(Step(s, e)) && Step(s, e).critical == s.critical
  {
    match e {
      case Loop(active, discard, reading) =>
        SampleInv(s, active, discard, reading);
        SampleEligible(s, active, discard, reading);
        SampleFrame(s, active, discard, reading);
        var (s1, sampled) := Sample(s, active, discard, reading);
        if sampled.Sampled? && !NeedCalibration(s1, sampled.ch) { MonitorLight(s1, sampled.ch); }
      case _ =>
    }
  }

  lemma {:induction false} LightOverRun(s: State, es: seq<Event>)
    requires Inv(s) && ValidEvents(es) && LightIsRight(s)
    requires forall i :: 0 <= i < |es| ==> !es[i].SetCritical?
    ensures LightIsRight(Run(s, es)) && Run(s, es).critical == s.critical
    decreases |es|
  {
    hide Step, LightIsRight;
    if es == [] {
    } else {
      StepInv(s, es[0]);
      StepLight(s, es[0]);
      LightOverRun(Step(s, es[0]), es[1..]);
    }
  }

  /** Set up and told which channels are critical, the light shows over every run whether one of them is
      faulted, until the choice is changed. */
  lemma LightFromSetup(cfg: Config, enabled: Mask, critical: Mask, discard: nat, mask: Mask, es: seq<Event>)
    requires cfg.Valid() && discard < 0x1_0000_0000 && ValidEvents(es)
    requires forall i :: 0 <= i < |es| ==> !es[i].SetCritical?
    ensures ValidEvents([SetCritical(mask)] + es)
    ensures var s := Start(cfg, enabled, critical, discard);
            Run(s, es).criticalFaulted <==> Run(s, es).faulted * critical != {}
    ensures var r := Run(Start(cfg, enabled, critical, discard), [SetCritical(mask)] + es);
            r.criticalFaulted <==> r.faulted * mask != {}
  {
    var s := Start(cfg, enabled, critical, discard);
    LightOverRun(s, es);
    var told := Step(s, SetCritical(mask));
    StepInv(s, SetCritical(mask));
    RunOne(s, SetCritical(mask));
    RunAppend(s, [SetCritical(mask)], es);
    LightOverRun(told, es);
  }

  // ---- the weekly recalibration ---------------------------------------------------------------

  /** Seconds between recalibrations; 255 weeks if none are set. */
  function Period(cfg: Config): nat {
    (if cfg.weeks == 0 then 255 else cfg.weeks) * (7 * 24 * 3600)
  }

  lemma StepCountsDown(s: State, e: Event)
    requires Inv(s) && ValidEvent(e) && (e.Tick? ==> s.recalCountdown > 1)
    ensures Step(s, e).recalCountdown == s.recalCountdown - (if e.Tick? then 1 else 0)
  {
    if e.Loop? {
      SampleInv(s, e.active, e.discard, e.reading);
      SampleEligible(s, e.active, e.discard, e.reading);
      SampleFrame(s, e.active, e.discard, e.reading);
      var (s1, sampled) := Sample(s, e.active, e.discard, e.reading);
      if sampled.Sampled? && !NeedCalibration(s1, sampled.ch) { MonitorCases(s1, sampled.ch); }
    }
  }

  lemma {:induction false} CountsDown(s: State, es: seq<Event>)
    requires Inv(s) && ValidEvents(es) && Ticks(es) < s.recalCountdown
    ensures Run(s, es).recalCountdown == s.recalCountdown - Ticks(es)
    decreases |es|
  {
    hide Step;
    if es == [] {
    } else {
      StepInv(s, es[0]);
      StepCountsDown(s, es[0]);
      CountsDown(Step(s, es[0]), es[1..]);
    }
  }

  /** The tick that ends a period forgets every fault and restarts all enabled channels; any other leaves
      calibration, faults and spoiled channels as they are. */
  lemma TickAtEnd(s: State)
    requires Inv(s)
    ensures var r := Step(s, Tick);
            if s.recalCountdown == 1 then
              && r.calib == r.enabled == s.enabled && r.faulted == r.spoiled == r.suspended == {}
              && r.recalCountdown == Period(s.cfg)
            else r.calib == s.calib && r.faulted == s.faulted && r.spoiled == s.spoiled && r.data == s.data
  {
    if s.recalCountdown == 1 {
      CalibrationForgets(ResumeTick(s).(recalCountdown := RecalTicks(s.cfg)), 0);
    }
  }

  /** From set-up on, the first forced calibration comes with exactly the tick that completes the weeks set. */
  lemma RecalibratesAfterWeeks(cfg: Config, enabled: Mask, critical: Mask, discard: nat, es: seq<Event>)
    requires cfg.Valid() && discard < 0x1_0000_0000 && ValidEvents(es) && Ticks(es) < Period(cfg)
    ensures var s := Run(Start(cfg, enabled, critical, discard), es); var r := Step(s, Tick);
            if Ticks(es) + 1 == Period(cfg) then
              r.calib == r.enabled == s.enabled && r.faulted == r.spoiled == r.suspended == {}
            else r.calib == s.calib && r.faulted == s.faulted && r.spoiled == s.spoiled && r.data == s.data
  {
    var s := Start(cfg, enabled, critical, discard);
    StartPeriod(cfg, enabled, critical, discard);
    CountsDown(s, es);
    TickAtEnd(Run(s, es));
  }

  lemma StartPeriod(cfg: Config, enabled: Mask, critical: Mask, discard: nat)
    requires cfg.Valid() && discard < 0x1_0000_0000
    ensures Start(cfg, enabled, critical, discard).recalCountdown == Period(cfg)
  {
  }
}
