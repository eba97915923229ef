/** The supervisor itself: masks, counters and channel data updated in place. */
module Controller {
  import opened Supervision
  import opened SupervisionInvariant

  lemma RecalibrateOneMore(s: State, a: Mask, ch: Channel)
    requires |s.data| == MAX_CHANNELS
    ensures Recalibrate(Recalibrate(s, a), {ch}) == Recalibrate(s, a + {ch})
  {
    var r, t := Recalibrate(Recalibrate(s, a), {ch}), Recalibrate(s, a + {ch});
    assert r.data == t.data;
    assert r.lossy == t.lossy;
    assert r.calib == t.calib;
  }

  lemma RecalibrateNone(s: State)
    requires |s.data| == MAX_CHANNELS
    ensures Recalibrate(s, {}) == s
  {
    var r := Recalibrate(s, {});
    assert r.data == s.data;
    assert r.lossy == s.lossy;
    assert r.calib == s.calib;
  }

  class Supervisor {
    var cfg: Config
    var chEnabled: Mask
    var chCritical: Mask
    var chLossy: Mask
    var chSpoiled: Mask
    var chFaulted: Mask
    var chSuspended: Mask
    var chCalib: Mask
    var rmode: RunMode
    var monitoring: bool
    var criticalFaulted: bool
    var curCh: Channel
    var prevAmuxCh: nat
    var mux: nat
    var chResumeCountdown: nat
    var recalibrationCountdown: nat
    const chData: array<ChData>

    ghost predicate Shaped() {
      chData.Length == MAX_CHANNELS
    }

    ghost function Value(): (s: State)
      reads this, chData
    {
      State(cfg, chEnabled, chCritical, chLossy, chSpoiled, chFaulted, chSuspended, chCalib, chData[..],
            rmode, monitoring, criticalFaulted, curCh, prevAmuxCh, mux, chResumeCountdown, recalibrationCountdown)
    }

    // ---- channel selection ----

    method ReadMeter(ch: Channel, prms: nat)
      requires Shaped()
      modifies chData
      ensures Value() == StoreReading(old(Value()), ch, prms)
    {
      chData[ch] := chData[ch].(prms := prms);
    }

    method SwitchAnalogMux(ch: Channel, discard: nat)
      requires Shaped()
      modifies this`prevAmuxCh, this`mux, chData
      ensures Value() == SwitchMux(old(Value()), ch, discard)
    {
      if ch == prevAmuxCh {
        return;
      }
      prevAmuxCh := ch;
      mux := SELECTION_MAP[ch];
      ReadMeter(ch, discard);
    }

    method SelectNext(m: Mask)
      requires Shaped()
      modifies this`curCh
      ensures Value() == old(Value()).(curCh := Scan(old(curCh), m, 16))
    {
      var i := 0;
      while i < MAX_CHANNELS
        invariant 0 <= i <= 16
        invariant Scan(old(curCh), m, 16) == Scan(curCh, m, 16 - i)
      {
        curCh := if curCh == 15 then 0 else curCh + 1;
        i := i + 1;
        if curCh in m {
          assert Scan(old(curCh), m, 16) == curCh;
          break;
        }
      }
    }

    method SampleChannel(active: Mask, discard: nat, reading: nat) returns (sampled: Sampled)
      requires Shaped()
      modifies this`curCh, this`prevAmuxCh, this`mux, chData
      ensures (Value(), sampled) == Sample(old(Value()), active, discard, reading)
    {
      var activeChs := active * chEnabled - chSuspended;
      if activeChs == {} {
        return NoChannel;
      }
      var stay := false;
      if chLossy != {} && activeChs * chLossy != {} {
        activeChs := activeChs * chLossy;
        stay := curCh in activeChs;
      } else if chCalib * chEnabled != {} && activeChs * chCalib != {} {
        activeChs := activeChs * chCalib;
        stay := curCh in activeChs;
      }
      if !stay {
        SelectNext(activeChs);
        SwitchAnalogMux(curCh, discard);
      }
      ReadMeter(curCh, reading);
      return Sampled(curCh);
    }

    // ---- calibration ----

    method ChRecalibrate(ch: Channel)
      requires Shaped()
      modifies this`chLossy, this`chCalib, chData
      ensures Value() == Recalibrate(old(Value()), {ch})
    {
      if ch in chEnabled {
        chData[ch] := ChData(0, 0, cfg.samples, 0, 0);
        chLossy := chLossy - {ch};
        chCalib := chCalib + {ch};
        assert {ch} * chEnabled == {ch};
      } else {
        assert {ch} * chEnabled == {};
      }
      assert chData[..] == Recalibrate(old(Value()), {ch}).data;
    }

    method ControlSetEnabled(mask: Mask)
      requires Shaped()
      modifies this`chCalib, this`chEnabled, this`chLossy, chData
      ensures Value() == ApplyEnabled(old(Value()), mask)
    {
      var chNew := mask - chEnabled;
      chCalib := chCalib * mask;
      chCalib := chCalib + chNew;
      chEnabled := mask;
      ghost var start := Value();
      RecalibrateNone(start);
      var rest, pos: nat := chNew, 0;
      ghost var done: Mask := {};
      while rest != {} && pos < 16
        invariant 0 <= pos <= 16
        invariant rest == (set c | c in chNew && c >= pos)
        invariant done == (set c | c in chNew && c < pos)
        invariant Value() == Recalibrate(start, done)
      {
        if pos in rest {
          RecalibrateOneMore(start, done, pos);
          ChRecalibrate(pos);
          done := done + {pos};
        }
        rest := rest - {pos};
        pos := pos + 1;
      }
      assert done == chNew;
    }

    method ControlCalibration()
      requires Shaped()
      modifies this`chSpoiled, this`chFaulted, this`criticalFaulted, this`chSuspended,
               this`chLossy, this`chCalib, chData
      ensures Value() == ApplyCalibration(old(Value()))
    {
      chSpoiled := {};
      criticalFaulted := false;
      chFaulted := {};
      chSuspended := {};
      RecalibrateAll();
    }

    /** The loop over all channels; the disabled ones are left alone. */
    method RecalibrateAll()
      requires Shaped()
      modifies this`chLossy, this`chCalib, chData
      ensures Value() == Recalibrate(old(Value()), chEnabled)
    {
      ghost var start := Value();
      RecalibrateNone(start);
      ghost var done: Mask := {};
      for ch := 0 to 16
        invariant forall c: Channel :: c in done <==> c < ch
        invariant Value() == Recalibrate(start, done)
      {
        RecalibrateOneMore(start, done, ch);
        ChRecalibrate(ch);
        done := done + {ch};
      }
      assert done * chEnabled == chEnabled;
    }

    method CalibrateChannel(ch: Channel)
      requires Shaped() && cfg.calDiv > 0
      modifies this`chCalib, chData
      ensures Value() == Calibrate(old(Value()), ch)
    {
      if chData[ch].calSamples == 0 && ch in chCalib {
        chCalib := chCalib - {ch};
        return;
      }
      chData[ch] := chData[ch].(calSamples := Decr8(chData[ch].calSamples));
      var v;
      if chData[ch].pmax >= chData[ch].prms {
        v := chData[ch].pmax - chData[ch].prms;
        chData[ch] := chData[ch].(pmax := chData[ch].pmax - v / 2);
      } else {
        v := chData[ch].prms - chData[ch].pmax;
        chData[ch] := chData[ch].(pmax := chData[ch].pmax + v / 2);
      }
      if v > cfg.level / cfg.calDiv {
        chData[ch] := chData[ch].(calSamples := cfg.samples);
      }
      assert chData[..] == Calibrate(old(Value()), ch).data;
    }

    // ---- monitoring ----

    method ChLoadLoss(ch: Channel) returns (over: bool)
      requires Shaped() && cfg.detDiv > 0
      modifies this`chLossy, chData
      ensures (Value(), over) == LoadLoss(old(Value()), ch)
    {
      if chData[ch].prms >= chData[ch].pmax {
        chLossy := chLossy - {ch};
        chData[ch] := chData[ch].(lossyChecks := 0);
        chData[ch] := chData[ch].(lossySamples := 0);
        assert chData[..] == LoadLoss(old(Value()), ch).0.data;
        return false;
      }
      var loss := chData[ch].pmax - chData[ch].prms;
      if loss < cfg.level / cfg.detDiv {
        chLossy := chLossy - {ch};
        chData[ch] := chData[ch].(lossyChecks := 0);
        chData[ch] := chData[ch].(lossySamples := 0);
        assert chData[..] == LoadLoss(old(Value()), ch).0.data;
        return false;
      }
      chLossy := chLossy + {ch};
      chData[ch] := chData[ch].(lossySamples := Incr8(chData[ch].lossySamples));
      assert chData[..] == LoadLoss(old(Value()), ch).0.data;
      return chData[ch].lossySamples >= cfg.samples;
    }

    method ChSetSuspendCountdown()
      requires Shaped()
      modifies this`chResumeCountdown
      ensures Value() == old(Value()).(resumeCountdown :=
                if old(chResumeCountdown) != 0 then old(chResumeCountdown) else cfg.checkTime)
    {
      if chResumeCountdown != 0 {
        return;
      }
      chResumeCountdown := cfg.checkTime;
    }

    method ChSetSpoiled(ch: Channel)
      requires Shaped()
      modifies this`chSuspended, this`chResumeCountdown, this`chSpoiled
      ensures Value() == Spoil(old(Value()), ch)
    {
      chSuspended := chSuspended + {ch};
      ChSetSuspendCountdown();
      chSpoiled := chSpoiled + {ch};
    }

    method ChCheckFault(ch: Channel) returns (fault: bool)
      requires Shaped()
      modifies this`chSuspended, this`chResumeCountdown, this`chSpoiled, chData
      ensures (Value(), fault) == CheckFault(old(Value()), ch)
    {
      chData[ch] := chData[ch].(lossyChecks := Incr8(chData[ch].lossyChecks));
      if chData[ch].lossyChecks >= cfg.checks {
        return true;
      }
      ChSetSpoiled(ch);
      chData[ch] := chData[ch].(lossySamples := 0);
      assert chData[..] == CheckFault(old(Value()), ch).0.data;
      return false;
    }

    method MonitorChannel(ch: Channel)
      requires Shaped() && cfg.detDiv > 0
      modifies this`chLossy, this`chSuspended, this`chResumeCountdown, this`chSpoiled, this`chFaulted,
               this`criticalFaulted, this`rmode, this`chCalib, chData
      ensures Value() == Monitor(old(Value()), ch)
    {
      var over := ChLoadLoss(ch);
      if !over {
        return;
      }
      var fault := ChCheckFault(ch);
      if !fault {
        return;
      }
      ghost var s := Value();
      chFaulted := chFaulted + {ch};
      if ch in chCritical {
        criticalFaulted := true;
      }
      rmode := FAULT;
      assert Value() == s.(faulted := s.faulted + {ch}, rmode := FAULT,
                           criticalFaulted := s.criticalFaulted || ch in s.critical);
      ChRecalibrate(ch);
    }

    // ---- tasks ----

    /** The part of the one-second console task after the console has run. */
    method CmdTask()
      requires Shaped()
      modifies this, chData
      ensures Value() == TickStep(old(Value()))
    {
      if chResumeCountdown == 0 {
        chSuspended := {};
      } else {
        chResumeCountdown := chResumeCountdown - 1;
      }
      recalibrationCountdown := Decr32(recalibrationCountdown);
      if recalibrationCountdown == 0 {
        recalibrationCountdown := RecalTicks(cfg);
        ControlCalibration();
      }
    }

    method Iterate(active: Mask, discard: nat, reading: nat)
      requires Shaped() && cfg.calDiv > 0 && cfg.detDiv > 0
      modifies this, chData
      ensures Value() == ControlLoop(old(Value()), active, discard, reading)
    {
      var sampled := SampleChannel(active, discard, reading);
      if sampled == NoChannel {
        return;
      }
      var ch := sampled.ch;
      if ch in chEnabled && rmode != MONITORING && ch in chCalib {
        CalibrateChannel(ch);
        return;
      }
      if monitoring {
        MonitorChannel(ch);
      }
    }

    /** Serves one event; this is the step the runs are made of. */
    method Serve(e: Event)
      requires Shaped() && cfg.calDiv > 0 && cfg.detDiv > 0
      modifies this, chData
      ensures Value() == Step(old(Value()), e)
    {
      match e {
        case Loop(active, discard, reading) => Iterate(active, discard, reading);
        case Tick => CmdTask();
        case SetEnabled(mask) => ControlSetEnabled(mask);
        case ForceCalibration => ControlCalibration();
        case EnableMonitoring => monitoring := true;
        case DisableMonitoring => monitoring := false;
        case SetCritical(mask) => chCritical := mask;
        case Configure(c) => cfg := c;
      }
    }

    /** Serves a whole run: what is proved of runs is proved of this object. */
    method Drive(es: seq<Event>)
      requires Shaped() && Inv(Value()) && ValidEvents(es)
      modifies this, chData
      ensures Inv(Value()) && Value() == Run(old(Value()), es)
    {
      ghost var start := Value();
      for i := 0 to |es|
        invariant Inv(Value()) && Run(Value(), es[i..]) == Run(start, es)
      {
        assert es[i..][0] == es[i] && es[i..][1..] == es[i + 1..];
        StepInv(Value(), es[i]);
        Serve(es[i]);
      }
    }

    /** Static initial values followed by set-up. */
    constructor (c: Config, enabledMask: Mask, criticalMask: Mask, discard: nat)
      ensures Shaped() && fresh(chData)
      ensures Value() == Setup(c, enabledMask, criticalMask, discard)
    {
      cfg := c;
      chLossy, chSpoiled, chFaulted, chSuspended := {}, {}, {}, {};
      rmode, monitoring, criticalFaulted := CALIBRATION, true, false;
      curCh, prevAmuxCh, mux, chResumeCountdown := 15, 0xFF, SELECTION_MAP[0], 0;
      recalibrationCountdown := RecalTicks(c);
      chData := new ChData[16](_ => ChData(0, 0, 0, 0, 0));
      chEnabled := enabledMask;
      chCritical := criticalMask;
      chCalib := enabledMask;
      new;
      assert chData[..] == seq(16, _ => ChData(0, 0, 0, 0, 0));
      RecalibrateAll();
      SwitchAnalogMux(curCh, discard);
    }
  }
}
