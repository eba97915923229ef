/** What every step of the supervisor keeps. */
module SupervisionInvariant {
  import opened Supervision

  ghost predicate ValidData(d: ChData) {
    && d.prms < 0x1_0000_0000 && d.pmax < 0x1_0000_0000 && d.calSamples < 0x100
    && d.lossyChecks <= 254 && d.lossySamples <= 254
  }

  ghost predicate Inv(s: State) {
    && s.cfg.Valid()
    && |s.data| == MAX_CHANNELS
    && (forall c: Channel :: ValidData(s.data[c]))
    && s.calib <= s.enabled
    && s.suspended <= s.spoiled
    && (forall c: Channel :: c in s.lossy <==> s.data[c].lossySamples > 0 || s.data[c].lossyChecks > 0)
    && s.rmode != MONITORING
    && s.prevAmux == s.curCh && s.mux == SelectionMap(s.curCh)
    && s.resumeCountdown < 0x1_0000
    && 0 < s.recalCountdown < 0x1_0000_0000
    && (s.criticalFaulted ==> s.faulted != {})
  }

  ghost predicate ValidEvent(e: Event) {
    match e
    case Loop(_, discard, reading) => discard < 0x1_0000_0000 && reading < 0x1_0000_0000
    case Configure(cfg) => cfg.Valid()
    case _ => true
  }

  lemma SetupInv(cfg: Config, enabled: Mask, critical: Mask, discard: nat)
    requires cfg.Valid() && discard < 0x1_0000_0000
    ensures Inv(Setup(cfg, enabled, critical, discard))
  {
  }

  /** A state to start runs from. */
  ghost function Start(cfg: Config, enabled: Mask, critical: Mask, discard: nat): (s: State)
    requires cfg.Valid() && discard < 0x1_0000_0000
    ensures Inv(s) && s.cfg == cfg && s.resumeCountdown == 0 && FaultedSpoiled(s)
    ensures s.critical == critical && s.monitoring && s.rmode == CALIBRATION && !s.criticalFaulted
    ensures s.enabled == s.calib == enabled && s.suspended == s.faulted == s.spoiled == s.lossy == {}
    ensures s.curCh == 15 && s.recalCountdown == RecalTicks(cfg)
    ensures forall c: Channel :: s.data[c].lossyChecks == s.data[c].lossySamples == 0
    ensures forall c: Channel :: c in enabled ==> s.data[c].calSamples == cfg.samples && s.data[c].pmax == 0
  {
    SetupInv(cfg, enabled, critical, discard);
    Setup(cfg, enabled, critical, discard)
  }

  lemma RecalibrateInv(s: State, chs: Mask)
    requires Inv(s)
    ensures Inv(Recalibrate(s, chs))
  {
  }

  lemma {:induction false} ScanFinds(cur: Channel, m: Mask, n: nat, c: Channel)
    requires c in m && Distance(cur, c) < n
    ensures Scan(cur, m, n) in m && Distance(cur, Scan(cur, m, n)) <= Distance(cur, c)
    decreases n
  {
    var next: Channel := if cur == 15 then 0 else cur + 1;
    if next !in m { ScanFinds(next, m, n - 1, c); }
  }

  /** Channels passed over when going round from `from` to `to`, itself being last. */
  function Distance(from: Channel, to: Channel): (d: nat)
    ensures d < 16
  {
    if to > from then to - from - 1 else to + 15 - from
  }

  /** A sample is refused exactly when no channel is eligible; otherwise it goes to a target. */
  lemma SampleEligible(s: State, active: Mask, discard: nat, reading: nat)
    requires |s.data| == MAX_CHANNELS
    ensures var sampled := Sample(s, active, discard, reading).1;
            && (sampled == NoChannel <==> Eligible(s, active) == {})
            && (sampled.Sampled? ==> sampled.ch in Target(s, active).0 && sampled.ch in Eligible(s, active))
  {
    var target := Target(s, active).0;
    if target != {} {
      var c :| c in target;
      ScanFinds(s.curCh, target, 16, c);
    }
  }

  /** Sampling moves the multiplexer and stores readings, nothing else; the reading stored for the
      sampled channel is the one taken after the switch. */
  lemma SampleFrame(s: State, active: Mask, discard: nat, reading: nat)
    requires |s.data| == MAX_CHANNELS
    ensures var (r, sampled) := Sample(s, active, discard, reading);
            && r == s.(data := r.data, curCh := r.curCh, prevAmux := r.prevAmux, mux := r.mux)
            && (forall c: Channel :: r.data[c] == s.data[c].(prms := r.data[c].prms))
            && (forall c: Channel :: sampled != Sampled(c) ==> r.data[c] == s.data[c])
            && (sampled.Sampled? ==> r.data[sampled.ch].prms == reading && r.curCh == sampled.ch)
  {
  }

  /** When a reading is stored, the multiplexer is on the channel it is stored for. */
  lemma SampleOnMux(s: State, active: Mask, discard: nat, reading: nat)
    requires |s.data| == MAX_CHANNELS
    requires s.prevAmux == s.curCh && s.mux == SelectionMap(s.curCh)
    ensures var (r, sampled) := Sample(s, active, discard, reading);
            && r.prevAmux == r.curCh && r.mux == SelectionMap(r.curCh)
            && (sampled.Sampled? ==> r.mux == SelectionMap(sampled.ch))
  {
  }

  /** The codes count down from 8, starting over at 15. */
  lemma SelectionCodes(ch: Channel)
    ensures SelectionMap(ch) == (24 - ch) % 16
  {
  }

  lemma SelectionIsInjective(a: Channel, b: Channel)
    requires SelectionMap(a) == SelectionMap(b)
    ensures a == b
  {
  }

  lemma SampleInv(s: State, active: Mask, discard: nat, reading: nat)
    requires Inv(s) && discard < 0x1_0000_0000 && reading < 0x1_0000_0000
    ensures Inv(Sample(s, active, discard, reading).0)
  {
    SampleFrame(s, active, discard, reading);
    SampleOnMux(s, active, discard, reading);
    var (r, sampled) := Sample(s, active, discard, reading);
    ReadingsInv(s, r, sampled, reading);
  }

  lemma ReadingsInv(s: State, r: State, sampled: Sampled, reading: nat)
    requires Inv(s) && reading < 0x1_0000_0000 && |r.data| == MAX_CHANNELS
    requires r == s.(data := r.data, curCh := r.curCh, prevAmux := r.prevAmux, mux := r.mux)
    requires r.prevAmux == r.curCh && r.mux == SelectionMap(r.curCh)
    requires forall c: Channel :: r.data[c] == s.data[c].(prms := r.data[c].prms)
    requires forall c: Channel :: sampled != Sampled(c) ==> r.data[c] == s.data[c]
    requires sampled.Sampled? ==> r.data[sampled.ch].prms == reading
    ensures Inv(r)
  {
    forall c: Channel ensures ValidData(r.data[c]) {
      assert ValidData(s.data[c]);
      if sampled == Sampled(c) {} else {}
    }
  }

  lemma CalibrateInv(s: State, ch: Channel)
    requires Inv(s) && ch in s.calib
    ensures Inv(Calibrate(s, ch))
  {
  }

  /** Changing the enabled channels starts calibration on exactly the new ones and ends it on exactly the
      disabled ones; what is known of the other channels stays. */
  lemma EnabledChanges(s: State, mask: Mask, ch: Channel)
    requires Inv(s)
    ensures var r := ApplyEnabled(s, mask); var added := ch in mask && ch !in s.enabled;
            && r.enabled == mask
            && (ch in r.calib <==> added || (ch in s.calib && ch in mask))
            && r.data[ch] == (if added then Blank(s.cfg) else s.data[ch])
            && (ch in r.lossy <==> ch in s.lossy && !added)
            && r.suspended == s.suspended && r.spoiled == s.spoiled && r.faulted == s.faulted
  {
    assert ch in (mask - s.enabled) * mask <==> ch in mask && ch !in s.enabled;
  }

  /** A forced calibration forgets every fault and restarts exactly the enabled channels. */
  lemma CalibrationForgets(s: State, ch: Channel)
    requires Inv(s)
    ensures var r := ApplyCalibration(s);
            && r.calib == r.enabled == s.enabled
            && r.spoiled == r.faulted == r.suspended == {} && !r.criticalFaulted
            && r.data[ch] == (if ch in s.enabled then Blank(s.cfg) else s.data[ch])
            && (ch in r.lossy <==> ch in s.lossy && ch !in s.enabled)
  {
    assert s.calib + s.enabled == s.enabled;
  }

  /** A reading shows a loss when it is below the load by at least the detection share of the level. */
  predicate ShowsLoss(load: nat, reading: nat, cfg: Config) {
    reading < load && (load - reading + 1) * cfg.detDiv > cfg.level
  }

  lemma ShareReached(x: nat, level: nat, d: nat)
    requires d > 0
    ensures x >= level / d <==> (x + 1) * d > level
  {
    var q := level / d;
    assert q * d <= level < (q + 1) * d;
    if x >= q { assert (q + 1) * d <= (x + 1) * d; } else { assert (x + 1) * d <= q * d; }
  }

  /** The loss test of the monitor, in terms of the readings. */
  lemma LossIsShown(d: ChData, cfg: Config)
    requires cfg.detDiv > 0
    ensures IsLoss(d, cfg) <==> ShowsLoss(d.pmax, d.prms, cfg)
  {
    if d.prms < d.pmax { ShareReached(d.pmax - d.prms, cfg.level, cfg.detDiv); }
  }

  /** The four outcomes of monitoring one sample, with no counter wrapping round: a good sample, a lossy
      sample, a failed check, and a fault. */
  lemma MonitorCases(s: State, ch: Channel)
    requires Inv(s) && ch in s.enabled
    ensures var d := s.data[ch]; var r := Monitor(s, ch);
      if !ShowsLoss(d.pmax, d.prms, s.cfg) then
        r == s.(lossy := s.lossy - {ch}, data := s.data[ch := d.(lossyChecks := 0, lossySamples := 0)])
      else if d.lossySamples + 1 < s.cfg.samples then
        r == s.(lossy := s.lossy + {ch}, data := s.data[ch := d.(lossySamples := d.lossySamples + 1)])
      else if d.lossyChecks + 1 < s.cfg.checks then
        r == s.(lossy := s.lossy + {ch}, spoiled := s.spoiled + {ch}, suspended := s.suspended + {ch},
                resumeCountdown := if s.resumeCountdown != 0 then s.resumeCountdown else s.cfg.checkTime,
                data := s.data[ch := d.(lossyChecks := d.lossyChecks + 1, lossySamples := 0)])
      else
        r == s.(lossy := s.lossy - {ch}, calib := s.calib + {ch}, faulted := s.faulted + {ch}, rmode := FAULT,
                criticalFaulted := s.criticalFaulted || ch in s.critical,
                data := s.data[ch := ChData(0, 0, s.cfg.samples, 0, 0)])
  {
    hide ShowsLoss, IsLoss;
    var d := s.data[ch];
    LossIsShown(d, s.cfg);
    assert Incr8(d.lossySamples) == d.lossySamples + 1 && Incr8(d.lossyChecks) == d.lossyChecks + 1;
    if IsLoss(d, s.cfg) && d.lossySamples + 1 >= s.cfg.samples && d.lossyChecks + 1 >= s.cfg.checks {
      var r := Monitor(s, ch);
      assert {ch} * s.enabled == {ch};
      assert r.data == s.data[ch := ChData(0, 0, s.cfg.samples, 0, 0)];
      assert r.lossy == s.lossy - {ch};
    }
  }

  lemma MonitorInv(s: State, ch: Channel)
    requires Inv(s) && ch in s.enabled
    ensures Inv(Monitor(s, ch))
  {
    hide ShowsLoss, Monitor;
    MonitorCases(s, ch);
  }

  lemma TickInv(s: State)
    requires Inv(s)
    ensures Inv(TickStep(s))
  {
  }

  lemma LoopInv(s: State, active: Mask, discard: nat, reading: nat)
    requires Inv(s) && discard < 0x1_0000_0000 && reading < 0x1_0000_0000
    ensures Inv(ControlLoop(s, active, discard, reading))
  {
    SampleInv(s, active, discard, reading);
    var (s1, sampled) := Sample(s, active, discard, reading);
    if sampled.Sampled? {
      if NeedCalibration(s1, sampled.ch) {
        CalibrateInv(s1, sampled.ch);
      } else if s1.monitoring {
        SampleEligible(s, active, discard, reading);
        MonitorInv(s1, sampled.ch);
      }
    }
  }

  /** Every step keeps the invariant, with no assumption on the order of events. */
  lemma StepInv(s: State, e: Event)
    requires Inv(s) && ValidEvent(e)
    ensures Inv(Step(s, e))
  {
    match e {
      case Loop(active, discard, reading) => LoopInv(s, active, discard, reading);
      case Tick => TickInv(s);
      case SetEnabled(mask) =>
      case _ =>
    }
  }

  ghost predicate ValidEvents(es: seq<Event>) {
    forall i :: 0 <= i < |es| ==> ValidEvent(es[i])
  }

  /** The state after a run; the invariant holds after every run, hence in every reachable state. */
  ghost function Run(s: State, es: seq<Event>): (r: State)
    requires Inv(s) && ValidEvents(es)
    ensures Inv(r)
    decreases |es|
  {
    if es == [] then s
    else
      StepInv(s, es[0]);
      Run(Step(s, es[0]), es[1..])
  }

  // ---- faulted within spoiled -----------------------------------------------------------------

  ghost predicate FaultedSpoiled(s: State) {
    && |s.data| == MAX_CHANNELS
    && s.faulted <= s.spoiled
    && (forall c: Channel :: c in s.enabled && s.data[c].lossyChecks > 0 ==> c in s.spoiled)
  }

  /** A monitored sample completes a fault of a channel that no earlier check has spoiled. */
  predicate FaultsAtOnce(s: State, ch: Channel)
    requires |s.data| == MAX_CHANNELS && s.cfg.detDiv > 0
  {
    && ShowsLoss(s.data[ch].pmax, s.data[ch].prms, s.cfg) && s.data[ch].lossySamples + 1 >= s.cfg.samples
    && s.cfg.checks <= 1 && ch !in s.spoiled
  }

  /** Monitoring leaves every faulted channel spoiled unless, and only unless, a single check is asked for
      and the sample completes it. */
  lemma MonitorFaultedSpoiled(s: State, ch: Channel)
    requires Inv(s) && FaultedSpoiled(s) && ch in s.enabled
    ensures FaultedSpoiled(Monitor(s, ch)) <==> !FaultsAtOnce(s, ch)
  {
    hide ShowsLoss, Monitor;
    MonitorCases(s, ch);
    if FaultsAtOnce(s, ch) { assert ch in Monitor(s, ch).faulted; }
  }

  /** A loop iteration that monitors such a sample. */
  predicate LoopFaultsAtOnce(s: State, active: Mask, discard: nat, reading: nat)
    requires |s.data| == MAX_CHANNELS && s.cfg.detDiv > 0
  {
    var (s1, sampled) := Sample(s, active, discard, reading);
    && sampled.Sampled? && !NeedCalibration(s1, sampled.ch) && s1.monitoring
    && FaultsAtOnce(s1, sampled.ch)
  }

  lemma LoopFaultedSpoiled(s: State, active: Mask, discard: nat, reading: nat)
    requires Inv(s) && discard < 0x1_0000_0000 && reading < 0x1_0000_0000 && FaultedSpoiled(s)
    ensures FaultedSpoiled(ControlLoop(s, active, discard, reading)) <==> !LoopFaultsAtOnce(s, active, discard, reading)
  {
    SampleInv(s, active, discard, reading);
    SampleEligible(s, active, discard, reading);
    SampleFrame(s, active, discard, reading);
    var (s1, sampled) := Sample(s, active, discard, reading);
    assert FaultedSpoiled(s1);
    if sampled.Sampled? && !NeedCalibration(s1, sampled.ch) && s1.monitoring {
      MonitorFaultedSpoiled(s1, sampled.ch);
    }
  }

  /** No other event ever leaves a faulted channel unspoiled. */
  lemma StepFaultedSpoiled(s: State, e: Event)
    requires Inv(s) && ValidEvent(e) && FaultedSpoiled(s)
    ensures FaultedSpoiled(Step(s, e)) <==> !(e.Loop? && LoopFaultsAtOnce(s, e.active, e.discard, e.reading))
  {
    match e {
      case Loop(active, discard, reading) => LoopFaultedSpoiled(s, active, discard, reading);
      case _ =>
    }
  }

  /** While at least two checks are asked for, a channel is never faulted without being spoiled. */
  lemma {:induction false} FaultedWithinSpoiled(s: State, es: seq<Event>)
    requires Inv(s) && ValidEvents(es) && FaultedSpoiled(s) && s.cfg.checks >= 2
    requires forall i :: 0 <= i < |es| && es[i].Configure? ==> es[i].cfg.checks >= 2
    ensures FaultedSpoiled(Run(s, es))
    decreases |es|
  {
    if es == [] {
    } else {
      StepInv(s, es[0]);
      StepFaultedSpoiled(s, es[0]);
      FaultedWithinSpoiled(Step(s, es[0]), es[1..]);
    }
  }
}
