/** Runs that start from set-up: how a channel gets its load, and what a single fault check leads to. */
module FromSetup {
  import opened Supervision
  import opened SupervisionInvariant

  lemma {:induction false} RunAppend(s: State, a: seq<Event>, b: seq<Event>)
    requires Inv(s) && ValidEvents(a) && ValidEvents(b)
    ensures ValidEvents(a + b) && Run(s, a + b) == Run(Run(s, a), b)
    decreases |a|
  {
    hide Step;
    if a == [] {
      assert a + b == b;
    } else {
      StepInv(s, a[0]);
      RunAppend(Step(s, a[0]), a[1..], b);
      assert (a + b)[1..] == a[1..] + b;
    }
  }

  lemma RunOne(s: State, e: Event)
    requires Inv(s) && ValidEvent(e)
    ensures ValidEvents([e]) && Run(s, [e]) == Step(s, e)
  {
    hide Step;
    assert [e][1..] == [];
  }

  /** Only channel `ch` has changed, and only in its data and its calibration. */
  ghost predicate OnlyChannel(s: State, r: State, ch: Channel) {
    && Inv(s) && Inv(r)
    && r == s.(data := r.data, calib := r.calib, curCh := r.curCh, prevAmux := r.prevAmux, mux := r.mux)
    && r.calib <= s.calib <= r.calib + {ch}
    && (forall c: Channel :: c != ch ==> r.data[c] == s.data[c])
  }

  /** With only `ch` powered, an iteration calibrates it. */
  lemma CalibratingLoop(s: State, ch: Channel, reading: nat)
    requires Inv(s) && reading < 0x1_0000_0000
    requires ch in s.calib && ch !in s.suspended
    ensures var r := Step(s, Loop({ch}, 0, reading)); var d := s.data[ch].(prms := reading);
            && OnlyChannel(s, r, ch)
            && r.data[ch] == (if d.calSamples == 0 then d else CalibrateData(d, s.cfg))
            && (ch in r.calib <==> d.calSamples != 0)
  {
    assert Eligible(s, {ch}) == {ch};
    SampleEligible(s, {ch}, 0, reading);
    SampleFrame(s, {ch}, 0, reading);
    SampleInv(s, {ch}, 0, reading);
    CalibrateInv(Sample(s, {ch}, 0, reading).0, ch);
  }

  /** Three readings that give a channel, when one sample is enough, a load of 200000. */
  function Settling(ch: Channel): (es: seq<Event>)
    ensures forall i :: 0 <= i < |es| ==> ValidEvent(es[i]) && !es[i].Configure?
  {
    [Loop({ch}, 0, 400000), Loop({ch}, 0, 200000), Loop({ch}, 0, 200000)]
  }

  lemma ThreeSteps(s: State, a: Event, b: Event, c: Event)
    requires Inv(s) && ValidEvent(a) && ValidEvent(b) && ValidEvent(c)
    requires Inv(Step(s, a)) && Inv(Step(Step(s, a), b))
    ensures ValidEvents([a, b, c]) && Run(s, [a, b, c]) == Step(Step(Step(s, a), b), c)
  {
    hide Step;
    assert [a, b, c] == [a] + ([b] + [c]);
    RunOne(s, a);
    RunOne(Step(s, a), b);
    RunOne(Step(Step(s, a), b), c);
    RunAppend(s, [a], [b] + [c]);
    RunAppend(Step(s, a), [b], [c]);
  }

  lemma SettlingData(cfg: Config)
    requires cfg.calDiv > 0 && cfg.samples == 1 && cfg.level / cfg.calDiv < 400000
    ensures CalibrateData(Blank(cfg).(prms := 400000), cfg) == ChData(400000, 200000, 1, 0, 0)
    ensures CalibrateData(ChData(200000, 200000, 1, 0, 0), cfg) == ChData(200000, 200000, 0, 0, 0)
  {
  }

  lemma Settle(s: State, ch: Channel)
    requires Inv(s) && s.cfg.samples == 1 && s.cfg.level / s.cfg.calDiv < 400000
    requires ch in s.calib && ch !in s.suspended && s.data[ch] == Blank(s.cfg)
    ensures var r := Run(s, Settling(ch));
            && OnlyChannel(s, r, ch)
            && r.data[ch] == ChData(200000, 200000, 0, 0, 0) && r.calib == s.calib - {ch}
  {
    hide Step, Run, CalibrateData;
    SettlingData(s.cfg);
    var e, f := Loop({ch}, 0, 400000), Loop({ch}, 0, 200000);
    CalibratingLoop(s, ch, 400000);
    var s1 := Step(s, e);
    CalibratingLoop(s1, ch, 200000);
    var s2 := Step(s1, f);
    CalibratingLoop(s2, ch, 200000);
    ThreeSteps(s, e, f, f);
  }

  // ---- a single check -------------------------------------------------------------------------

  /** With one sample and one check to a fault. */
  const SINGLE_CHECK: Config := Config(1, 1, 300, 110000, 8, 2, 16)

  /** The channel gets a load, and loses it. */
  function LoadLost(ch: Channel): (es: seq<Event>)
    ensures ValidEvents(es)
  {
    Settling(ch) + [Loop({ch}, 0, 0)]
  }

  lemma LosesLoad(s: State, ch: Channel)
    requires Inv(s) && s.cfg == SINGLE_CHECK && s.monitoring
    requires ch in s.enabled && ch !in s.calib && ch !in s.suspended
    requires s.data[ch] == ChData(200000, 200000, 0, 0, 0)
    ensures var r := Step(s, Loop({ch}, 0, 0)); ch in r.faulted && r.spoiled == s.spoiled
  {
    assert Eligible(s, {ch}) == {ch};
    SampleEligible(s, {ch}, 0, 0);
    SampleFrame(s, {ch}, 0, 0);
    SampleInv(s, {ch}, 0, 0);
    MonitorCases(Sample(s, {ch}, 0, 0).0, ch);
  }

  /** With a single check, four readings after set-up leave a channel faulted that was never spoiled. */
  lemma SingleCheckFaultsUnspoiled(ch: Channel)
    ensures var r := Run(Start(SINGLE_CHECK, {ch}, {}, 0), LoadLost(ch));
            ch in r.faulted && ch !in r.spoiled
  {
    hide Step;
    var s := Start(SINGLE_CHECK, {ch}, {}, 0);
    Settle(s, ch);
    var r := Run(s, Settling(ch));
    RunOne(r, Loop({ch}, 0, 0));
    RunAppend(s, Settling(ch), [Loop({ch}, 0, 0)]);
    LosesLoad(r, ch);
  }
}
