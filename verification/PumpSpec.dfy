/** The pump manager's state machine: filters, protections, states and remote requests.
    Pressures are reals, times are milliseconds of a clock that never runs backwards. */
module PumpSpec {
  import opened Bytes

  datatype PumpState = INIT | IDLE | PRESSURE_DROP | STARTING | RUNNING | RECOVERING | LOCKOUT | FAULT
  datatype Mode = MANUAL | AUTO
  datatype Demand = NO_DEMAND | UNKNOWN | HAND | TANK | LEAK_SUSPECT | PIPE_BREAK | SENSOR_LOST
  datatype Fault = NO_FAULT | SENSOR | CRITICAL_LOW | MAX_RUNTIME | DRY_RUN | TOO_MANY_STARTS

  const START_HISTORY: nat := 16
  const HOUR_MS: nat := 3_600_000
  const MANUAL_MAX_ON_S: nat := 900

  datatype Config = Config(
    onBar: real, offBar: real, criticalBar: real,
    handMinBar: real, handMaxBar: real, tankMinBar: real, tankMaxBar: real,
    filterAlpha: real, stableSlope: real, dryMinRise: real,
    dropConfirm: u32, minOn: u32, minOff: u32, maxOn: u32, dryDetect: u32, recoveryTimeout: u32,
    handMax: u32, tankMax: u32, unknownMax: u32, maxStarts: u8)

  datatype Metrics = Metrics(
    pressure: real, filtered: real, slope: real, plateau: real, demand: Demand,
    eventDuration: u32, eventStartBar: real, cycles: u32, startsLastHour: nat)

  datatype Pump = Pump(
    cfg: Config, state: PumpState, mode: Mode, fault: Fault, relayOn: bool,
    stateEnter: nat, lastUpdate: nat, pumpStart: nat, pumpStop: nat, eventStart: nat, manualUntil: nat,
    startBar: real, lastFiltered: real, starts: seq<nat>, startsIdx: nat, m: Metrics)

  function Initial(cfg: Config): Pump {
    Pump(cfg, INIT, MANUAL, NO_FAULT, false, 0, 0, 0, 0, 0, 0, 0.0, 0.0, seq(START_HISTORY, _ => 0), 0,
         Metrics(0.0, 0.0, 0.0, 0.0, NO_DEMAND, 0, 0.0, 0, 0))
  }

  function Abs(x: real): real {
    if x < 0.0 then -x else x
  }

  const TWO_64: int := 0x1_0000_0000_0000_0000

  /** `now - t` on unsigned 64-bit clock values. */
  function Since(now: nat, t: nat): int {
    if now >= t then now - t else now - t + TWO_64
  }

  /** Time since the pump was switched on, 0 if the start carries a fresher stamp. */
  function RunTime(p: Pump, now: nat): nat {
    if now > p.pumpStart then now - p.pumpStart else 0
  }

  // ---------------------------------------------------------------- helpers

  function Entered(p: Pump, state: PumpState, now: nat): Pump {
    if p.state == state then p else p.(state := state, stateEnter := now)
  }

  function Latched(p: Pump, fault: Fault, now: nat): Pump {
    Entered(p.(fault := fault, relayOn := false,
               pumpStop := if p.relayOn || p.pumpStart > p.pumpStop then now else p.pumpStop), FAULT, now)
  }

  function SwitchedOn(p: Pump, now: nat): Pump
    requires p.startsIdx < |p.starts| == START_HISTORY
  {
    p.(relayOn := true, pumpStart := now, startBar := p.m.filtered,
       m := p.m.(cycles := Wrap32(p.m.cycles + 1)),
       starts := p.starts[p.startsIdx := now], startsIdx := (p.startsIdx + 1) % START_HISTORY)
  }

  function SwitchedOff(p: Pump, now: nat): Pump {
    p.(relayOn := false, pumpStop := now, manualUntil := 0)
  }

  /** Number of entries that lie in the hour up to `now`; 0 marks an unused entry. */
  function Recent(times: seq<nat>, now: nat): nat {
    if times == [] then 0
    else Recent(times[..|times| - 1], now) + if InHour(times[|times| - 1], now) then 1 else 0
  }

  predicate InHour(t: nat, now: nat) {
    t != 0 && Since(now, t) <= HOUR_MS
  }

  function EventBegun(p: Pump, now: nat): Pump {
    p.(eventStart := now, m := p.m.(eventDuration := 0, eventStartBar := p.m.filtered, plateau := p.m.filtered))
  }

  function EventEnded(p: Pump): Pump {
    p.(eventStart := 0, m := p.m.(eventDuration := 0, demand := NO_DEMAND))
  }

  function Classified(p: Pump): Demand {
    if p.m.filtered < p.cfg.criticalBar then PIPE_BREAK
    else if p.cfg.handMinBar <= p.m.plateau <= p.cfg.handMaxBar then HAND
    else if p.cfg.tankMinBar <= p.m.plateau <= p.cfg.tankMaxBar then TANK
    else UNKNOWN
  }

  // ---------------------------------------------------------------- one tick

  function FilteredBy(p: Pump, bar: real, now: nat): Pump {
    if p.lastUpdate == 0 then
      p.(lastFiltered := bar, m := p.m.(pressure := bar, filtered := bar, slope := 0.0))
    else
      var f := p.cfg.filterAlpha * bar + (1.0 - p.cfg.filterAlpha) * p.m.filtered;
      var dt := Since(now, p.lastUpdate) as real / 1000.0;
      var slope := if dt > 0.001 then (f - p.lastFiltered) / dt else p.m.slope;
      var plateau := if p.eventStart != 0 && Abs(slope) < p.cfg.stableSlope
                     then 0.9 * p.m.plateau + 0.1 * f else p.m.plateau;
      p.(lastFiltered := f, m := p.m.(pressure := bar, filtered := f, slope := slope, plateau := plateau))
  }

  function EventTimed(p: Pump, now: nat): Pump {
    if p.eventStart == 0 then p
    else p.(m := p.m.(eventDuration := Wrap32(Since(now, p.eventStart))))
  }

  /** Run-time limit: the manual ceiling for an active timed on, else the safety limit. */
  function RunLimit(p: Pump): nat {
    if p.mode == MANUAL && p.manualUntil != 0 then MANUAL_MAX_ON_S * 1000 else p.cfg.maxOn
  }

  /** The pressure of a pressurised event has collapsed. */
  predicate Collapsed(p: Pump) {
    p.m.filtered < p.cfg.criticalBar && p.m.eventStartBar >= p.cfg.criticalBar
  }

  predicate Dry(p: Pump, now: nat) {
    RunTime(p, now) >= p.cfg.dryDetect && p.m.filtered - p.startBar < p.cfg.dryMinRise
  }

  /** The fault a global protection raises at this moment. */
  function Tripped(p: Pump, sensorOk: bool, now: nat): Fault {
    if p.state == FAULT then NO_FAULT
    else if !sensorOk then SENSOR
    else if !p.relayOn then NO_FAULT
    else if Collapsed(p) then CRITICAL_LOW
    else if RunTime(p, now) >= RunLimit(p) then MAX_RUNTIME
    else if Dry(p, now) then DRY_RUN
    else NO_FAULT
  }

  function Protected(p: Pump, sensorOk: bool, now: nat): Pump {
    var fault := Tripped(p, sensorOk, now);
    if fault == NO_FAULT then p
    else
      Latched(if fault == SENSOR then p.(m := p.m.(demand := SENSOR_LOST))
              else if fault == CRITICAL_LOW then p.(m := p.m.(demand := PIPE_BREAK)) else p, fault, now)
  }

  predicate RestOver(p: Pump, now: nat) {
    p.pumpStop == 0 || Since(now, p.pumpStop) >= p.cfg.minOff
  }

  function Dropping(p: Pump, now: nat): Pump {
    if p.mode != AUTO || p.m.filtered >= p.cfg.onBar then
      Entered(EventEnded(p), IDLE, now)
    else if Since(now, p.stateEnter) < p.cfg.dropConfirm then p
    else
      var d := p.(m := p.m.(demand := Classified(p)));
      if d.m.demand == PIPE_BREAK && p.m.eventStartBar >= p.cfg.criticalBar then Latched(d, CRITICAL_LOW, now)
      else Entered(d, STARTING, now)
  }

  function Starting(p: Pump, now: nat): Pump
    requires p.startsIdx < |p.starts| == START_HISTORY
  {
    if Recent(p.starts, now) >= p.cfg.maxStarts then Latched(p, TOO_MANY_STARTS, now)
    else if RestOver(p, now) then Entered(SwitchedOn(p, now), RUNNING, now)
    else Entered(p, LOCKOUT, now)
  }

  /** Demand during an automatic run: a classified demand that lasts too long is a
      suspected leak. */
  function RunDemand(p: Pump): Demand {
    var d := Classified(p);
    var limit := if d == HAND then p.cfg.handMax else if d == TANK then p.cfg.tankMax else p.cfg.unknownMax;
    if p.m.eventDuration > limit then LEAK_SUSPECT else d
  }

  function Running(p: Pump, now: nat): Pump {
    var q := if p.mode == AUTO then p.(m := p.m.(demand := RunDemand(p))) else p;
    var done := if p.mode == AUTO then p.m.filtered >= p.cfg.offBar
                else p.manualUntil != 0 && now >= p.manualUntil;
    if done && RunTime(p, now) >= p.cfg.minOn then Entered(SwitchedOff(q, now), RECOVERING, now) else q
  }

  function Recovering(p: Pump, now: nat): Pump {
    if (p.m.filtered >= p.cfg.onBar && Abs(p.m.slope) < p.cfg.stableSlope)
       || Since(now, p.stateEnter) >= p.cfg.recoveryTimeout
    then Entered(EventEnded(p), LOCKOUT, now) else p
  }

  function Transition(p: Pump, sensorOk: bool, now: nat): Pump
    requires p.startsIdx < |p.starts| == START_HISTORY
  {
    var q := p.(relayOn := p.state == RUNNING || (p.state == STARTING && p.relayOn));
    match p.state
    case INIT => if sensorOk then Entered(q, IDLE, now) else q
    case IDLE =>
      if p.mode == AUTO && p.m.filtered < p.cfg.onBar then Entered(EventBegun(q, now), PRESSURE_DROP, now) else q
    case PRESSURE_DROP => Dropping(q, now)
    case STARTING => Starting(q, now)
    case RUNNING => Running(q, now)
    case RECOVERING => Recovering(q, now)
    case LOCKOUT => if RestOver(q, now) then Entered(q, IDLE, now) else q
    case FAULT => q
  }

  function Tick(p: Pump, bar: real, sensorOk: bool, now: nat): (q: Pump)
    requires p.startsIdx < |p.starts| == START_HISTORY
  {
    var t := Transition(Protected(EventTimed(FilteredBy(p, bar, now), now), sensorOk, now), sensorOk, now);
    t.(lastUpdate := now, m := t.m.(startsLastHour := Recent(t.starts, now)))
  }

  // ---------------------------------------------------------------- remote requests

  predicate OnAllowed(p: Pump, now: nat) {
    && p.state != FAULT && p.state != INIT
    && p.m.filtered < p.cfg.offBar
    && (p.pumpStop != 0 ==> Since(now, p.pumpStop) >= p.cfg.minOff)
    && Recent(p.starts, now) < p.cfg.maxStarts
  }

  function RequestOn(p: Pump, duration: u32, now: nat): Pump
    requires p.startsIdx < |p.starts| == START_HISTORY
  {
    if !OnAllowed(p, now) then p
    else
      var seconds := if duration > MANUAL_MAX_ON_S then MANUAL_MAX_ON_S else duration;
      var q := p.(mode := MANUAL, manualUntil := if seconds == 0 then 0 else now + seconds * 1000);
      var e := if q.eventStart == 0 then EventBegun(q, now) else q;
      Entered(if e.relayOn then e else SwitchedOn(e, now), RUNNING, now)
  }

  function RequestOff(p: Pump, now: nat): Pump {
    var q := p.(mode := MANUAL);
    if p.state == FAULT then q
    else if p.relayOn then
      q.(manualUntil := if now > p.pumpStart + p.cfg.minOn then now else p.pumpStart + p.cfg.minOn)
    else Entered(q, IDLE, now)
  }

  function RequestRestart(p: Pump, now: nat): Pump {
    if p.state != FAULT && p.relayOn then Entered(SwitchedOff(p, now), RECOVERING, now) else p
  }

  function ModeSet(p: Pump, mode: Mode): Pump {
    if p.state != FAULT && mode == MANUAL && p.relayOn then p.(mode := mode, manualUntil := 0) else p.(mode := mode)
  }

  function FaultAcked(p: Pump, sensorOk: bool, now: nat): Pump {
    if p.state == FAULT && sensorOk then Entered(EventEnded(p.(fault := NO_FAULT)), IDLE, now) else p
  }
}
