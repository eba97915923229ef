/** The values the channel supervisor works on, and what each of its steps does to them. */
module Supervision {
  const MAX_CHANNELS: nat := 16

  type Channel = c: nat | c < 16
  type Mask = set<Channel>

  /** Settings kept in EEPROM: fault samples S, fault checks R, check time T, level and its divisors. */
  datatype Config = Config(samples: nat, checks: nat, checkTime: nat, level: nat,
                           calDiv: nat, detDiv: nat, weeks: nat)
  {
    ghost predicate Valid() {
      && samples < 0x100 && checks < 0x100 && checkTime < 0x1_0000 && level < 0x1_0000_0000
      && 0 < calDiv < 0x100 && 0 < detDiv < 0x100 && weeks < 0x100
    }
  }

  datatype ChData = ChData(prms: nat, pmax: nat, calSamples: nat, lossyChecks: nat, lossySamples: nat)

  datatype RunMode = FAULT | CALIBRATION | MONITORING

  datatype State = State(
    cfg: Config,
    enabled: Mask, critical: Mask, lossy: Mask, spoiled: Mask, faulted: Mask, suspended: Mask, calib: Mask,
    data: seq<ChData>,
    rmode: RunMode, monitoring: bool, criticalFaulted: bool,
    curCh: Channel, prevAmux: nat, mux: nat,
    resumeCountdown: nat, recalCountdown: nat)

  /** One call into the supervisor, with what it reads from outside. */
  datatype Event =
    | Loop(active: Mask, discard: nat, reading: nat)
    | Tick
    | SetEnabled(mask: Mask)
    | ForceCalibration
    | EnableMonitoring
    | DisableMonitoring
    | SetCritical(mask: Mask)
    | Configure(cfg: Config)

  function Incr8(x: nat): nat { (x + 1) % 0x100 }

  function Decr8(x: nat): nat { (x + 0xFF) % 0x100 }

  // ---- channel selection --------------------------------------------------------------------

  /** Multiplexer code of each channel. */
  const SELECTION_MAP: seq<nat> := [0x08, 0x07, 0x06, 0x05, 0x04, 0x03, 0x02, 0x01,
                                    0x00, 0x0F, 0x0E, 0x0D, 0x0C, 0x0B, 0x0A, 0x09]

  function SelectionMap(ch: Channel): nat {
    SELECTION_MAP[ch]
  }

  function Eligible(s: State, active: Mask): Mask {
    active * s.enabled - s.suspended
  }

  /** The channels a sample may go to, and whether the current one may be kept. */
  function Target(s: State, active: Mask): (Mask, bool) {
    var e := Eligible(s, active);
    if s.lossy != {} && e * s.lossy != {} then (e * s.lossy, true)
    else if s.calib * s.enabled != {} && e * s.calib != {} then (e * s.calib, true)
    else (e, false)
  }

  /** At most `n` steps around the channels, stopping on a member of `m`. */
  function Scan(cur: Channel, m: Mask, n: nat): Channel
    decreases n
  {
    if n == 0 then cur
    else
      var c: Channel := if cur == 15 then 0 else cur + 1;
      if c in m then c else Scan(c, m, n - 1)
  }

  function StoreReading(s: State, ch: Channel, prms: nat): State
    requires |s.data| == MAX_CHANNELS
  {
    s.(data := s.data[ch := s.data[ch].(prms := prms)])
  }

  function SwitchMux(s: State, ch: Channel, discard: nat): (r: State)
    requires |s.data| == MAX_CHANNELS
    ensures |r.data| == MAX_CHANNELS && r.cfg == s.cfg
  {
    if ch == s.prevAmux then s
    else StoreReading(s.(prevAmux := ch, mux := SelectionMap(ch)), ch, discard)
  }

  datatype Sampled = NoChannel | Sampled(ch: Channel)

  function Sample(s: State, active: Mask, discard: nat, reading: nat): (r: (State, Sampled))
    requires |s.data| == MAX_CHANNELS
    ensures |r.0.data| == MAX_CHANNELS && r.0.cfg == s.cfg
  {
    var (target, stay) := Target(s, active);
    if Eligible(s, active) == {} then (s, NoChannel)
    else if stay && s.curCh in target then (StoreReading(s, s.curCh, reading), Sampled(s.curCh))
    else
      var ch := Scan(s.curCh, target, 16);
      (StoreReading(SwitchMux(s.(curCh := ch), ch, discard), ch, reading), Sampled(ch))
  }

  // ---- calibration --------------------------------------------------------------------------

  function NeedCalibration(s: State, ch: Channel): bool {
    ch in s.enabled && s.rmode != MONITORING && ch in s.calib
  }

  function Blank(cfg: Config): ChData {
    ChData(0, 0, cfg.samples, 0, 0)
  }

  /** Restart calibration of the enabled channels among `chs`. */
  function Recalibrate(s: State, chs: Mask): (r: State)
    requires |s.data| == MAX_CHANNELS
    ensures |r.data| == MAX_CHANNELS && r.cfg == s.cfg
  {
    var on := chs * s.enabled;
    s.(data := seq(MAX_CHANNELS, i requires 0 <= i < MAX_CHANNELS => if i in on then Blank(s.cfg) else s.data[i]),
       lossy := s.lossy - on,
       calib := s.calib + on)
  }

  function ApplyEnabled(s: State, mask: Mask): (r: State)
    requires |s.data| == MAX_CHANNELS
    ensures |r.data| == MAX_CHANNELS && r.cfg == s.cfg
  {
    var added := mask - s.enabled;
    Recalibrate(s.(calib := s.calib * mask + added, enabled := mask), added)
  }

  function ApplyCalibration(s: State): (r: State)
    requires |s.data| == MAX_CHANNELS
    ensures |r.data| == MAX_CHANNELS && r.cfg == s.cfg
  {
    Recalibrate(s.(spoiled := {}, faulted := {}, criticalFaulted := false, suspended := {}), s.enabled)
  }

  function Variation(d: ChData): nat {
    if d.pmax >= d.prms then d.pmax - d.prms else d.prms - d.pmax
  }

  /** One calibration sample of a channel that still has some to take. */
  function CalibrateData(d: ChData, cfg: Config): ChData
    requires cfg.calDiv > 0
  {
    var v := Variation(d);
    d.(pmax := if d.pmax >= d.prms then d.pmax - v / 2 else d.pmax + v / 2,
       calSamples := if v > cfg.level / cfg.calDiv then cfg.samples else Decr8(d.calSamples))
  }

  function Calibrate(s: State, ch: Channel): (r: State)
    requires |s.data| == MAX_CHANNELS && s.cfg.calDiv > 0
    ensures |r.data| == MAX_CHANNELS && r.cfg == s.cfg
  {
    if s.data[ch].calSamples == 0 && ch in s.calib then s.(calib := s.calib - {ch})
    else s.(data := s.data[ch := CalibrateData(s.data[ch], s.cfg)])
  }

  // ---- monitoring ---------------------------------------------------------------------------

  predicate IsLoss(d: ChData, cfg: Config)
    requires cfg.detDiv > 0
  {
    d.prms < d.pmax && d.pmax - d.prms >= cfg.level / cfg.detDiv
  }

  function LoadLoss(s: State, ch: Channel): (r: (State, bool))
    requires |s.data| == MAX_CHANNELS && s.cfg.detDiv > 0
    ensures |r.0.data| == MAX_CHANNELS && r.0.cfg == s.cfg
  {
    var d := s.data[ch];
    if !IsLoss(d, s.cfg) then
      (s.(lossy := s.lossy - {ch}, data := s.data[ch := d.(lossyChecks := 0, lossySamples := 0)]), false)
    else
      var n := Incr8(d.lossySamples);
      (s.(lossy := s.lossy + {ch}, data := s.data[ch := d.(lossySamples := n)]), n >= s.cfg.samples)
  }

  /** The shared countdown is started only when it is not running. */
  function Spoil(s: State, ch: Channel): State {
    s.(suspended := s.suspended + {ch},
       resumeCountdown := if s.resumeCountdown != 0 then s.resumeCountdown else s.cfg.checkTime,
       spoiled := s.spoiled + {ch})
  }

  function CheckFault(s: State, ch: Channel): (r: (State, bool))
    requires |s.data| == MAX_CHANNELS
    ensures |r.0.data| == MAX_CHANNELS && r.0.cfg == s.cfg
  {
    var d := s.data[ch];
    var n := Incr8(d.lossyChecks);
    if n >= s.cfg.checks then (s.(data := s.data[ch := d.(lossyChecks := n)]), true)
    else (Spoil(s.(data := s.data[ch := d.(lossyChecks := n, lossySamples := 0)]), ch), false)
  }

  function Monitor(s: State, ch: Channel): (r: State)
    requires |s.data| == MAX_CHANNELS && s.cfg.detDiv > 0
    ensures |r.data| == MAX_CHANNELS && r.cfg == s.cfg
  {
    var (s1, over) := LoadLoss(s, ch);
    if !over then s1
    else
      var (s2, fault) := CheckFault(s1, ch);
      if !fault then s2
      else Recalibrate(s2.(faulted := s2.faulted + {ch}, rmode := FAULT,
                           criticalFaulted := s2.criticalFaulted || ch in s2.critical), {ch})
  }

  // ---- the steps ----------------------------------------------------------------------------

  function ControlLoop(s: State, active: Mask, discard: nat, reading: nat): (r: State)
    requires |s.data| == MAX_CHANNELS && s.cfg.calDiv > 0 && s.cfg.detDiv > 0
    ensures |r.data| == MAX_CHANNELS && r.cfg == s.cfg
  {
    var (s1, sampled) := Sample(s, active, discard, reading);
    match sampled
    case NoChannel => s1
    case Sampled(ch) =>
      if NeedCalibration(s1, ch) then Calibrate(s1, ch)
      else if s1.monitoring then Monitor(s1, ch)
      else s1
  }

  /** Weeks of one-second ticks; an unset number of weeks means 255. */
  function RecalTicks(cfg: Config): (n: nat)
    ensures n > 0
  {
    (if cfg.weeks == 0 then 0xFF else cfg.weeks) * 604800
  }

  function ResumeTick(s: State): State {
    if s.resumeCountdown == 0 then s.(suspended := {}) else s.(resumeCountdown := s.resumeCountdown - 1)
  }

  function Decr32(x: nat): nat { (x + 0xFFFF_FFFF) % 0x1_0000_0000 }

  function TickStep(s: State): (r: State)
    requires |s.data| == MAX_CHANNELS
    ensures |r.data| == MAX_CHANNELS && r.cfg == s.cfg
  {
    var s1 := ResumeTick(s);
    var left := Decr32(s1.recalCountdown);
    if left == 0 then ApplyCalibration(s1.(recalCountdown := RecalTicks(s1.cfg)))
    else s1.(recalCountdown := left)
  }

  function Step(s: State, e: Event): (r: State)
    requires |s.data| == MAX_CHANNELS && s.cfg.calDiv > 0 && s.cfg.detDiv > 0
    ensures |r.data| == MAX_CHANNELS
    ensures r.cfg == if e.Configure? then e.cfg else s.cfg
  {
    match e
    case Loop(active, discard, reading) => ControlLoop(s, active, discard, reading)
    case Tick => TickStep(s)
    case SetEnabled(mask) => ApplyEnabled(s, mask)
    case ForceCalibration => ApplyCalibration(s)
    case EnableMonitoring => s.(monitoring := true)
    case DisableMonitoring => s.(monitoring := false)
    case SetCritical(mask) => s.(critical := mask)
    case Configure(cfg) => s.(cfg := cfg)
  }

  /** The state set-up leaves, whatever the EEPROM says. */
  function Setup(cfg: Config, enabled: Mask, critical: Mask, discard: nat): (r: State)
    ensures |r.data| == MAX_CHANNELS
  {
    var zero := ChData(0, 0, 0, 0, 0);
    var s := State(cfg, enabled, critical, {}, {}, {}, {}, enabled,
                   seq(MAX_CHANNELS, _ => zero),
                   CALIBRATION, true, false, 15, 0xFF, SelectionMap(0), 0, RecalTicks(cfg));
    SwitchMux(Recalibrate(s, enabled), 15, discard)
  }
}
