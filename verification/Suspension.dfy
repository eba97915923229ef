/** How long a suspended channel can stay suspended. */
module Suspension {
  import opened Supervision
  import opened SupervisionInvariant
  import opened FromSetup

  function Ticks(es: seq<Event>): nat {
    if es == [] then 0 else (if es[0].Tick? then 1 else 0) + Ticks(es[1..])
  }

  /** n times t, by addition. */
  function Times(n: int, t: nat): nat
    decreases n
  {
    if n <= 0 then 0 else t + Times(n - 1, t)
  }

  lemma {:induction false} TimesIsProduct(n: nat, t: nat)
    ensures Times(n, t) == n * t
  {
    if n == 0 {
    } else {
      TimesIsProduct(n - 1, t);
      assert (n - 1) * t == n * t - t;
    }
  }

  lemma {:induction false} TimesMonotone(n: nat, m: nat, t: nat)
    requires n <= m
    ensures Times(n, t) <= Times(m, t)
  {
    if n < m { TimesMonotone(n, m - 1, t); }
  }

  /** Ticks that can still pass before the suspension mask is cleared: the running countdown, and a
      fresh countdown for every channel that may yet be suspended when it runs out. */
  ghost function Remaining(s: State): nat {
    Times(16 - |s.suspended|, s.cfg.checkTime) + s.resumeCountdown
  }

  lemma {:induction false} AtMost16(m: Mask, n: nat)
    requires forall c: Channel :: c in m ==> c < n
    ensures |m| <= n
  {
    if n > 0 {
      if n <= 16 && n - 1 in m {
        AtMost16(m - {n - 1}, n - 1);
      } else {
        AtMost16(m, n - 1);
      }
    } else {
      assert m == {};
    }
  }

  /** A check of a monitored channel is complete, and it is not the last. */
  predicate CheckFails(s: State, ch: Channel)
    requires |s.data| == MAX_CHANNELS && s.cfg.detDiv > 0
  {
    && ShowsLoss(s.data[ch].pmax, s.data[ch].prms, s.cfg)
    && s.data[ch].lossySamples + 1 >= s.cfg.samples
    && s.data[ch].lossyChecks + 1 < s.cfg.checks
  }

  /** What suspends a channel: monitoring is on, and the reading of a calibrated channel fails a check. */
  predicate Suspends(s: State, active: Mask, discard: nat, reading: nat)
    requires |s.data| == MAX_CHANNELS && s.cfg.detDiv > 0
  {
    var sampled := Sample(s, active, discard, reading).1;
    && sampled.Sampled? && sampled.ch !in s.calib && s.monitoring
    && CheckFails(StoreReading(s, sampled.ch, reading), sampled.ch)
  }

  lemma MonitorSuspends(s: State, ch: Channel)
    requires Inv(s) && ch in s.enabled
    ensures var r := Monitor(s, ch);
            && r.suspended == (if CheckFails(s, ch) then s.suspended + {ch} else s.suspended)
            && r.resumeCountdown == if CheckFails(s, ch) && s.resumeCountdown == 0 then s.cfg.checkTime
                                    else s.resumeCountdown
  {
    hide ShowsLoss, Monitor;
    MonitorCases(s, ch);
  }

  /** A loop iteration suspends exactly the channel whose sample fails a check, which was not suspended; it
      starts the countdown exactly if that had run out. */
  lemma LoopSuspends(s: State, active: Mask, discard: nat, reading: nat)
    requires Inv(s) && discard < 0x1_0000_0000 && reading < 0x1_0000_0000
    ensures var r := ControlLoop(s, active, discard, reading);
            var sampled := Sample(s, active, discard, reading).1;
            if Suspends(s, active, discard, reading) then
              && sampled.ch !in s.suspended && r.suspended == s.suspended + {sampled.ch}
              && r.resumeCountdown == if s.resumeCountdown == 0 then s.cfg.checkTime else s.resumeCountdown
            else r.suspended == s.suspended && r.resumeCountdown == s.resumeCountdown
  {
    hide Monitor, Calibrate;
    SampleInv(s, active, discard, reading);
    SampleEligible(s, active, discard, reading);
    SampleFrame(s, active, discard, reading);
    var (s1, sampled) := Sample(s, active, discard, reading);
    if sampled.Sampled? {
      assert s1.data[sampled.ch] == StoreReading(s, sampled.ch, reading).data[sampled.ch];
      if NeedCalibration(s1, sampled.ch) { CalibrateKeepsSuspended(s1, sampled.ch); }
      if s1.monitoring { MonitorSuspends(s1, sampled.ch); }
    }
  }

  lemma CalibrateKeepsSuspended(s: State, ch: Channel)
    requires |s.data| == MAX_CHANNELS && s.cfg.calDiv > 0
    ensures Calibrate(s, ch).suspended == s.suspended
    ensures Calibrate(s, ch).resumeCountdown == s.resumeCountdown
  {
  }

  /** The guard says before the iteration what its result shows. */
  lemma SuspendsIff(s: State, active: Mask, discard: nat, reading: nat)
    requires Inv(s) && discard < 0x1_0000_0000 && reading < 0x1_0000_0000
    ensures s.suspended < ControlLoop(s, active, discard, reading).suspended <==>
            Suspends(s, active, discard, reading)
  {
    hide ControlLoop, Suspends, Sample;
    LoopSuspends(s, active, discard, reading);
  }

  lemma LoopRemaining(s: State, active: Mask, discard: nat, reading: nat)
    requires Inv(s) && discard < 0x1_0000_0000 && reading < 0x1_0000_0000
    ensures Remaining(ControlLoop(s, active, discard, reading)) <= Remaining(s)
  {
    hide ControlLoop, Suspends, Sample;
    LoopSuspends(s, active, discard, reading);
    AtMost16(ControlLoop(s, active, discard, reading).suspended, 16);
  }

  /** As long as a channel stays suspended the bound never grows, and every tick lowers it. */
  lemma StepRemaining(s: State, e: Event, ch: Channel)
    requires Inv(s) && ValidEvent(e)
    requires e.Configure? ==> e.cfg.checkTime == s.cfg.checkTime
    requires ch in s.suspended && ch in Step(s, e).suspended
    ensures Remaining(Step(s, e)) <= Remaining(s) - (if e.Tick? then 1 else 0)
  {
    hide ControlLoop;
    match e {
      case Loop(active, discard, reading) => LoopRemaining(s, active, discard, reading);
      case _ =>
    }
  }

  ghost predicate ConstantTime(s: State, es: seq<Event>) {
    forall i :: 0 <= i < |es| && es[i].Configure? ==> es[i].cfg.checkTime == s.cfg.checkTime
  }

  /** `ch` is suspended before, between and after the events of the run. */
  ghost predicate SuspendedThroughout(s: State, es: seq<Event>, ch: Channel)
    requires Inv(s) && ValidEvents(es)
    decreases |es|
  {
    ch in s.suspended && (es != [] ==> (StepInv(s, es[0]); SuspendedThroughout(Step(s, es[0]), es[1..], ch)))
  }

  lemma {:induction false} TicksBounded(s: State, es: seq<Event>, ch: Channel)
    requires Inv(s) && ValidEvents(es) && ConstantTime(s, es)
    requires SuspendedThroughout(s, es, ch)
    ensures Ticks(es) <= Remaining(s)
    decreases |es|
  {
    if es == [] {
    } else {
      StepInv(s, es[0]);
      StepRemaining(s, es[0], ch);
      TicksBounded(Step(s, es[0]), es[1..], ch);
    }
  }

  lemma RemainingAtMost(s: State, t: nat)
    requires s.suspended != {} && s.cfg.checkTime == t && s.resumeCountdown <= t
    ensures Remaining(s) <= 16 * t
  {
    AtMost16(s.suspended, 16);
    TimesMonotone(16 - |s.suspended|, 15, t);
    TimesIsProduct(15, t);
  }

  /** A suspended channel is released within 16 T + 1 ticks, whatever else happens meanwhile. */
  lemma SuspensionBounded(s: State, es: seq<Event>, ch: Channel)
    requires Inv(s) && ValidEvents(es) && ConstantTime(s, es)
    requires s.resumeCountdown <= s.cfg.checkTime
    requires Ticks(es) >= 16 * s.cfg.checkTime + 1
    ensures !SuspendedThroughout(s, es, ch)
  {
    if SuspendedThroughout(s, es, ch) {
      TicksBounded(s, es, ch);
      RemainingAtMost(s, s.cfg.checkTime);
    }
  }

  lemma StepCountdown(s: State, e: Event)
    requires Inv(s) && ValidEvent(e)
    requires s.resumeCountdown <= s.cfg.checkTime
    requires e.Configure? ==> e.cfg.checkTime == s.cfg.checkTime
    ensures Step(s, e).resumeCountdown <= s.cfg.checkTime
  {
    match e {
      case Loop(active, discard, reading) => LoopSuspends(s, active, discard, reading);
      case _ =>
    }
  }

  /** The countdown never exceeds T in a run from set-up that keeps T. */
  lemma {:induction false} CountdownWithinTime(s: State, es: seq<Event>)
    requires Inv(s) && ValidEvents(es) && ConstantTime(s, es)
    requires s.resumeCountdown <= s.cfg.checkTime
    ensures Run(s, es).resumeCountdown <= s.cfg.checkTime && Run(s, es).cfg.checkTime == s.cfg.checkTime
    decreases |es|
  {
    if es == [] {
    } else {
      StepInv(s, es[0]);
      StepCountdown(s, es[0]);
      CountdownWithinTime(Step(s, es[0]), es[1..]);
    }
  }

  // ---- where the time goes --------------------------------------------------------------------

  /** The countdown has run out, the mask is not cleared yet, and the next sample fails a check. */
  ghost predicate Restart(s: State, e: Event)
    requires Inv(s)
  {
    e.Loop? && s.resumeCountdown == 0 && Suspends(s, e.active, e.discard, e.reading)
  }

  ghost function Restarts(s: State, es: seq<Event>): nat
    requires Inv(s) && ValidEvents(es)
    decreases |es|
  {
    if es == [] then 0
    else
      StepInv(s, es[0]);
      (if Restart(s, es[0]) then 1 else 0) + Restarts(Step(s, es[0]), es[1..])
  }

  lemma StepAccounted(s: State, e: Event, ch: Channel)
    requires Inv(s) && ValidEvent(e)
    requires ch in s.suspended && ch in Step(s, e).suspended
    ensures Step(s, e).resumeCountdown + (if e.Tick? then 1 else 0)
         == s.resumeCountdown + (if Restart(s, e) then s.cfg.checkTime else 0)
  {
    hide ControlLoop, Suspends;
    match e {
      case Loop(active, discard, reading) => LoopSuspends(s, active, discard, reading);
      case _ =>
    }
  }

  /** The ticks a channel spends suspended are exactly the countdown it started with, plus T for every
      restart, less what is left of the countdown. */
  lemma {:induction false} TicksAccounted(s: State, es: seq<Event>, ch: Channel)
    requires Inv(s) && ValidEvents(es) && ConstantTime(s, es)
    requires SuspendedThroughout(s, es, ch)
    ensures Ticks(es) + Run(s, es).resumeCountdown
         == s.resumeCountdown + Times(Restarts(s, es), s.cfg.checkTime)
    decreases |es|
  {
    hide Step;
    if es == [] {
    } else {
      StepInv(s, es[0]);
      StepAccounted(s, es[0], ch);
      TicksAccounted(Step(s, es[0]), es[1..], ch);
    }
  }

  lemma TimesPositive(n: nat, t: nat)
    requires t >= 1
    ensures Times(n, t) > 0 <==> n >= 1
  {
    TimesMonotone(if n >= 1 then 1 else n, n, t);
  }

  /** A suspension outlasts the countdown it found exactly if the countdown was restarted meanwhile. */
  lemma OutlastsIffRestarted(s: State, es: seq<Event>, ch: Channel)
    requires Inv(s) && ValidEvents(es) && ConstantTime(s, es)
    requires SuspendedThroughout(s, es, ch) && s.cfg.checkTime >= 1
    ensures Ticks(es) + Run(s, es).resumeCountdown > s.resumeCountdown <==> Restarts(s, es) >= 1
    ensures s.resumeCountdown <= s.cfg.checkTime < Ticks(es) ==> Restarts(s, es) >= 1
  {
    TicksAccounted(s, es, ch);
    TimesPositive(Restarts(s, es), s.cfg.checkTime);
  }

  // ---- the bound is reached -------------------------------------------------------------------

  /** One lossy sample is a whole check, three checks make a fault. */
  function QuickConfig(t: nat): Config {
    Config(1, 3, t, 110000, 8, 2, 255)
  }

  ghost function Below(k: nat): Mask
    requires k <= 16
  {
    set c: Channel | c in AllChannels() && c < k
  }

  function AllChannels(): Mask {
    {0, 1, 2, 3, 4, 5, 6, 7, 8, 9, 10, 11, 12, 13, 14, 15}
  }

  /** Channels below k are suspended; each of the others has a load that a zero reading makes lossy. */
  ghost predicate Primed(s: State, k: nat, t: nat, ticks: nat)
    requires k <= 16
  {
    && Inv(s) && s.cfg == QuickConfig(t) && s.monitoring
    && s.calib == {} && s.enabled == AllChannels() && s.suspended == Below(k)
    && (forall c: Channel :: k <= c ==> s.data[c].(prms := 0) == ChData(0, 200000, 0, 0, 0))
    && s.recalCountdown > ticks
  }

  /** When the countdown runs out, a lossy sample of one more channel starts it again. */
  function Delaying(k: nat, left: nat, t: nat): seq<Event>
    requires k <= 16
    decreases 16 - k, left
  {
    if left > 0 then [Tick] + Delaying(k, left - 1, t)
    else if k < 16 then [Loop({k}, 0, 0)] + Delaying(k + 1, t, t)
    else []
  }

  lemma DelayTick(s: State, k: nat, t: nat, ticks: nat)
    requires k <= 16 && ticks > 0 && Primed(s, k, t, ticks) && s.resumeCountdown > 0
    ensures var r := Step(s, Tick); Primed(r, k, t, ticks - 1) && r.resumeCountdown == s.resumeCountdown - 1
  {
    StepInv(s, Tick);
  }

  lemma DelaySample(s: State, k: nat, t: nat, ticks: nat)
    requires k < 16 && Primed(s, k, t, ticks)
    ensures var (r, sampled) := Sample(s, {k}, 0, 0);
            && sampled == Sampled(k) && Primed(r, k, t, ticks) && r.resumeCountdown == s.resumeCountdown
            && r.data[k] == ChData(0, 200000, 0, 0, 0)
  {
    assert Eligible(s, {k}) == {k};
    assert k !in s.lossy;
    SampleEligible(s, {k}, 0, 0);
    SampleFrame(s, {k}, 0, 0);
    SampleInv(s, {k}, 0, 0);
  }

  lemma QuickLoss(t: nat)
    ensures ShowsLoss(200000, 0, QuickConfig(t))
  {
  }

  lemma DelayMonitor(s: State, k: nat, t: nat, ticks: nat)
    requires k < 16 && Primed(s, k, t, ticks) && s.resumeCountdown == 0
    requires s.data[k] == ChData(0, 200000, 0, 0, 0)
    ensures var r := Monitor(s, k); Primed(r, k + 1, t, ticks) && r.resumeCountdown == t
  {
    hide Monitor, ShowsLoss;
    QuickLoss(t);
    assert k in AllChannels();
    MonitorInv(s, k);
    MonitorCases(s, k);
    assert Below(k + 1) == Below(k) + {k};
  }

  lemma DelayLoop(s: State, k: nat, t: nat, ticks: nat)
    requires k < 16 && Primed(s, k, t, ticks) && s.resumeCountdown == 0
    ensures var r := Step(s, Loop({k}, 0, 0)); Primed(r, k + 1, t, ticks) && r.resumeCountdown == t
  {
    DelaySample(s, k, t, ticks);
    DelayMonitor(Sample(s, {k}, 0, 0).0, k, t, ticks);
  }

  lemma {:induction false} DelayingEvents(k: nat, left: nat, t: nat)
    requires 1 <= k <= 16
    ensures ValidEvents(Delaying(k, left, t))
    ensures forall i :: 0 <= i < |Delaying(k, left, t)| ==> !Delaying(k, left, t)[i].Configure?
    ensures Ticks(Delaying(k, left, t)) == left + Times(16 - k, t)
    decreases 16 - k, left
  {
    if left > 0 {
      DelayingEvents(k, left - 1, t);
    } else if k < 16 {
      DelayingEvents(k + 1, t, t);
    }
  }

  lemma OneMoreEvent(s: State, e: Event, rest: seq<Event>, ch: Channel)
    requires Inv(s) && ValidEvent(e) && ValidEvents(rest) && ch in s.suspended
    requires Inv(Step(s, e)) && SuspendedThroughout(Step(s, e), rest, ch)
    ensures ValidEvents([e] + rest) && SuspendedThroughout(s, [e] + rest, ch)
  {
    assert ([e] + rest)[1..] == rest;
  }

  lemma PrimedSuspended(s: State, k: nat, t: nat, ticks: nat)
    requires 1 <= k <= 16 && Primed(s, k, t, ticks)
    ensures Inv(s) && 0 in s.suspended && s.cfg == QuickConfig(t)
  {
    assert 0 in Below(k);
  }

  lemma {:induction false} DelayingRun(s: State, k: nat, left: nat, t: nat)
    requires 1 <= k <= 16 && Primed(s, k, t, left + Times(16 - k, t)) && s.resumeCountdown == left
    requires ValidEvents(Delaying(k, left, t))
    ensures SuspendedThroughout(s, Delaying(k, left, t), 0)
    decreases 16 - k, left
  {
    hide Step, Primed, ValidEvents;
    PrimedSuspended(s, k, t, left + Times(16 - k, t));
    if left > 0 {
      DelayTick(s, k, t, left + Times(16 - k, t));
      PrimedSuspended(Step(s, Tick), k, t, left - 1 + Times(16 - k, t));
      DelayingEvents(k, left - 1, t);
      DelayingRun(Step(s, Tick), k, left - 1, t);
      OneMoreEvent(s, Tick, Delaying(k, left - 1, t), 0);
    } else if k < 16 {
      DelayLoop(s, k, t, Times(16 - k, t));
      PrimedSuspended(Step(s, Loop({k}, 0, 0)), k + 1, t, Times(16 - k, t));
      DelayingEvents(k + 1, t, t);
      DelayingRun(Step(s, Loop({k}, 0, 0)), k + 1, t, t);
      OneMoreEvent(s, Loop({k}, 0, 0), Delaying(k + 1, t, t), 0);
    }
  }

  /** The channels below k have their load, the others wait for theirs. */
  ghost predicate Warming(s: State, k: nat, t: nat)
    requires k <= 16
  {
    && Inv(s) && s.cfg == QuickConfig(t) && s.monitoring && s.enabled == AllChannels()
    && (forall c: Channel :: c in s.calib <==> c >= k) && s.suspended == {}
    && s.resumeCountdown == 0 && s.recalCountdown == 154_224_000
    && (forall c: Channel :: s.data[c] == if c < k then ChData(200000, 200000, 0, 0, 0) else Blank(s.cfg))
  }

  /** Every channel from k on gets its load. */
  function WarmUp(k: nat): (es: seq<Event>)
    requires k <= 16
    ensures ValidEvents(es) && forall i :: 0 <= i < |es| ==> !es[i].Configure?
    decreases 16 - k
  {
    if k == 16 then [] else Settling(k) + WarmUp(k + 1)
  }

  lemma WarmOne(s: State, k: nat, t: nat)
    requires k < 16 && Warming(s, k, t)
    ensures Warming(Run(s, Settling(k)), k + 1, t)
  {
    hide Run, AllChannels, Settling;
    Settle(s, k);
  }

  lemma {:induction false} WarmRun(s: State, k: nat, t: nat)
    requires k <= 16 && Warming(s, k, t)
    ensures Warming(Run(s, WarmUp(k)), 16, t)
    decreases 16 - k
  {
    hide Step;
    if k < 16 {
      WarmOne(s, k, t);
      WarmRun(Run(s, Settling(k)), k + 1, t);
      RunAppend(s, Settling(k), WarmUp(k + 1));
    }
  }

  lemma WarmStart(t: nat)
    requires 1 <= t < 0x1_0000
    ensures Warming(Start(QuickConfig(t), AllChannels(), {}, 0), 0, t)
  {
    assert Below(0) == {};
  }

  lemma WarmIsPrimed(s: State, t: nat, ticks: nat)
    requires Warming(s, 16, t) && ticks < 154_224_000
    ensures Primed(s, 0, t, ticks) && s.resumeCountdown == 0
  {
    assert Below(0) == {} && Below(16) == AllChannels();
    assert s.data[15].(prms := 0) == ChData(0, 200000, 0, 0, 0);
  }

  /** From set-up: every channel gets its load, then channel 0 loses its own and is suspended. */
  function FirstSuspension(): (es: seq<Event>)
    ensures ValidEvents(es)
    ensures forall i :: 0 <= i < |es| ==> !es[i].Configure?
  {
    WarmUp(0) + [Loop({0}, 0, 0)]
  }

  lemma DelayStart(t: nat) returns (s: State)
    requires 1 <= t < 0x1_0000
    ensures s == Run(Start(QuickConfig(t), AllChannels(), {}, 0), FirstSuspension())
    ensures Primed(s, 1, t, t + Times(15, t)) && s.resumeCountdown == t
  {
    hide Step, Run, Start, Primed, Warming, AllChannels, ValidEvents;
    var start := Start(QuickConfig(t), AllChannels(), {}, 0);
    WarmStart(t);
    WarmRun(start, 0, t);
    var warm := Run(start, WarmUp(0));
    TimesIsProduct(15, t);
    WarmIsPrimed(warm, t, t + Times(15, t));
    DelayLoop(warm, 0, t, t + Times(15, t));
    RunOne(warm, Loop({0}, 0, 0));
    RunAppend(start, WarmUp(0), [Loop({0}, 0, 0)]);
    s := Step(warm, Loop({0}, 0, 0));
  }

  /** For every T the bound is exact: in a run from set-up a channel stays suspended for 16 T ticks, so
      T + 1 ticks, the length of one countdown, bound nothing. */
  lemma BoundIsReached(t: nat)
    requires 1 <= t < 0x1_0000
    ensures ValidEvents(Delaying(1, t, t))
    ensures var s := Run(Start(QuickConfig(t), AllChannels(), {}, 0), FirstSuspension());
            && s.cfg.checkTime == t == s.resumeCountdown && ConstantTime(s, Delaying(1, t, t))
            && SuspendedThroughout(s, Delaying(1, t, t), 0) && Ticks(Delaying(1, t, t)) == 16 * t
  {
    hide Step, SuspendedThroughout, Run, Start, Primed, Inv, ValidEvents, AllChannels, FirstSuspension;
    var s := DelayStart(t);
    PrimedSuspended(s, 1, t, t + Times(15, t));
    TimesIsProduct(15, t);
    DelayingEvents(1, t, t);
    DelayingRun(s, 1, t, t);
  }
}
