/** The pump manager as an object whose methods update it in place, each proved against
    the state machine of `PumpSpec`. */
module PumpManager {
  import opened Bytes
  import opened PumpSpec

  class PumpManager {
    var cfg: Config
    var state: PumpState
    var mode: Mode
    var fault: Fault
    var relayOn: bool
    var stateEnter: nat
    var lastUpdate: nat
    var pumpStart: nat
    var pumpStop: nat
    var eventStart: nat
    var manualUntil: nat
    var startBar: real
    var lastFiltered: real
    const starts: array<nat>
    var startsIdx: nat
    var m: Metrics

    ghost function P(): Pump
      reads this, starts
    {
      Pump(cfg, state, mode, fault, relayOn, stateEnter, lastUpdate, pumpStart, pumpStop, eventStart,
           manualUntil, startBar, lastFiltered, starts[..], startsIdx, m)
    }

    ghost predicate Valid()
      reads this
    {
      starts.Length == START_HISTORY && startsIdx < START_HISTORY
    }

    constructor (cfg: Config)
      ensures Valid() && P() == Initial(cfg) && fresh(starts)
    {
      this.cfg, state, mode, fault, relayOn := cfg, INIT, MANUAL, NO_FAULT, false;
      stateEnter, lastUpdate, pumpStart, pumpStop, eventStart, manualUntil := 0, 0, 0, 0, 0, 0;
      startBar, lastFiltered := 0.0, 0.0;
      starts := new nat[START_HISTORY](_ => 0);
      startsIdx := 0;
      m := Metrics(0.0, 0.0, 0.0, 0.0, NO_DEMAND, 0, 0.0, 0, 0);
      new;
      assert starts[..] == seq(START_HISTORY, _ => 0);
    }

    method SetConfig(cfg: Config)
      requires Valid()
      modifies this`cfg
      ensures Valid() && P() == old(P()).(cfg := cfg)
    {
      this.cfg := cfg;
    }

    method EnterState(next: PumpState, now: nat)
      requires Valid()
      modifies this`state, this`stateEnter
      ensures Valid() && P() == Entered(old(P()), next, now)
    {
      if state == next {
        return;
      }
      state := next;
      stateEnter := now;
    }

    method LatchFault(f: Fault, now: nat)
      requires Valid()
      modifies this
      ensures Valid() && P() == Latched(old(P()), f, now)
    {
      var wasOn := relayOn;
      fault := f;
      relayOn := false;
      if wasOn || pumpStart > pumpStop {
        pumpStop := now;
      }
      EnterState(FAULT, now);
    }

    method PumpOn(now: nat)
      requires Valid()
      modifies this, starts
      ensures Valid() && P() == SwitchedOn(old(P()), now)
    {
      relayOn := true;
      pumpStart := now;
      startBar := m.filtered;
      m := m.(cycles := Wrap32(m.cycles + 1));
      starts[startsIdx] := now;
      startsIdx := (startsIdx + 1) % START_HISTORY;
    }

    method PumpOff(now: nat)
      requires Valid()
      modifies this
      ensures Valid() && P() == SwitchedOff(old(P()), now)
    {
      relayOn := false;
      pumpStop := now;
      manualUntil := 0;
    }

    method StartsInLastHour(now: nat) returns (n: nat)
      requires Valid()
      ensures n == Recent(starts[..], now) <= START_HISTORY
    {
      n := 0;
      for i := 0 to START_HISTORY
        invariant n == Recent(starts[..i], now) <= i
      {
        assert starts[..i + 1][..i] == starts[..i];
        if starts[i] != 0 && Since(now, starts[i]) <= HOUR_MS {
          n := n + 1;
        }
      }
      assert starts[..START_HISTORY] == starts[..];
    }

    method EventBegin(now: nat)
      requires Valid()
      modifies this`eventStart, this`m
      ensures Valid() && P() == EventBegun(old(P()), now)
    {
      eventStart := now;
      m := m.(eventDuration := 0);
      m := m.(eventStartBar := m.filtered);
      m := m.(plateau := m.filtered);
    }

    method EventEnd()
      requires Valid()
      modifies this`eventStart, this`m
      ensures Valid() && P() == EventEnded(old(P()))
    {
      eventStart := 0;
      m := m.(eventDuration := 0);
      m := m.(demand := NO_DEMAND);
    }

    method ClassifyDemand() returns (d: Demand)
      requires Valid()
      ensures d == Classified(P())
    {
      var p := m.plateau;
      if m.filtered < cfg.criticalBar {
        return PIPE_BREAK;
      }
      if p >= cfg.handMinBar && p <= cfg.handMaxBar {
        return HAND;
      }
      if p >= cfg.tankMinBar && p <= cfg.tankMaxBar {
        return TANK;
      }
      return UNKNOWN;
    }

    method FiltersUpdate(bar: real, now: nat)
      requires Valid()
      modifies this`m, this`lastFiltered
      ensures Valid() && P() == FilteredBy(old(P()), bar, now)
    {
      m := m.(pressure := bar);
      if lastUpdate == 0 {
        m := m.(filtered := bar);
        lastFiltered := bar;
        m := m.(slope := 0.0);
        return;
      }
      var a := cfg.filterAlpha;
      m := m.(filtered := a * bar + (1.0 - a) * m.filtered);
      var dt := Since(now, lastUpdate) as real / 1000.0;
      if dt > 0.001 {
        m := m.(slope := (m.filtered - lastFiltered) / dt);
      }
      lastFiltered := m.filtered;
      if eventStart != 0 && Abs(m.slope) < cfg.stableSlope {
        m := m.(plateau := 0.9 * m.plateau + 0.1 * m.filtered);
      }
    }

    method EventUpdate(now: nat)
      requires Valid()
      modifies this`m
      ensures Valid() && P() == EventTimed(old(P()), now)
    {
      if eventStart == 0 {
        return;
      }
      m := m.(eventDuration := Wrap32(Since(now, eventStart)));
    }

    /** Global protections, in any state but an already latched fault. */
    method Protect(sensorOk: bool, now: nat)
      requires Valid()
      modifies this
      ensures Valid() && P() == Protected(old(P()), sensorOk, now)
    {
      hide Latched;
      if state != FAULT {
        if !sensorOk {
          m := m.(demand := SENSOR_LOST);
          LatchFault(SENSOR, now);
        } else if relayOn {
          var run := if now > pumpStart then now - pumpStart else 0;
          var limit := if mode == MANUAL && manualUntil != 0 then MANUAL_MAX_ON_S * 1000 else cfg.maxOn;
          if m.filtered < cfg.criticalBar && m.eventStartBar >= cfg.criticalBar {
            m := m.(demand := PIPE_BREAK);
            LatchFault(CRITICAL_LOW, now);
          } else if run >= limit {
            LatchFault(MAX_RUNTIME, now);
          } else if run >= cfg.dryDetect && m.filtered - startBar < cfg.dryMinRise {
            LatchFault(DRY_RUN, now);
          }
        }
      }
    }

    method StepDrop(now: nat)
      requires Valid()
      modifies this
      ensures Valid() && P() == Dropping(old(P()).(relayOn := false), now)
    {
      relayOn := false;
      if mode != AUTO {
        EventEnd();
        EnterState(IDLE, now);
        return;
      }
      if m.filtered >= cfg.onBar {
        EventEnd();
        EnterState(IDLE, now);
        return;
      }
      if Since(now, stateEnter) >= cfg.dropConfirm {
        var d := ClassifyDemand();
        m := m.(demand := d);
        if m.demand == PIPE_BREAK && m.eventStartBar >= cfg.criticalBar {
          LatchFault(CRITICAL_LOW, now);
        } else {
          EnterState(STARTING, now);
        }
      }
    }

    method StepStarting(now: nat)
      requires Valid()
      modifies this, starts
      ensures Valid() && P() == Starting(old(P()), now)
    {
      var n := StartsInLastHour(now);
      if n >= cfg.maxStarts {
        LatchFault(TOO_MANY_STARTS, now);
        return;
      }
      if pumpStop == 0 || Since(now, pumpStop) >= cfg.minOff {
        PumpOn(now);
        EnterState(RUNNING, now);
      } else {
        EnterState(LOCKOUT, now);
      }
    }

    method StepRunning(now: nat)
      requires Valid()
      modifies this
      ensures Valid() && P() == Running(old(P()).(relayOn := true), now)
    {
      relayOn := true;
      var run := if now > pumpStart then now - pumpStart else 0;
      if mode == AUTO {
        var d := ClassifyDemand();
        m := m.(demand := d);
        var limit := if m.demand == HAND then cfg.handMax else if m.demand == TANK then cfg.tankMax else cfg.unknownMax;
        if m.eventDuration > limit {
          m := m.(demand := LEAK_SUSPECT);
        }
        if m.filtered >= cfg.offBar && run >= cfg.minOn {
          PumpOff(now);
          EnterState(RECOVERING, now);
        }
      } else if manualUntil != 0 && now >= manualUntil && run >= cfg.minOn {
        PumpOff(now);
        EnterState(RECOVERING, now);
      }
    }

    method StepRecovering(now: nat)
      requires Valid()
      modifies this
      ensures Valid() && P() == Recovering(old(P()).(relayOn := false), now)
    {
      relayOn := false;
      if (m.filtered >= cfg.onBar && Abs(m.slope) < cfg.stableSlope) || Since(now, stateEnter) >= cfg.recoveryTimeout {
        EventEnd();
        EnterState(LOCKOUT, now);
      }
    }

    method Advance(sensorOk: bool, now: nat)
      requires Valid()
      modifies this, starts
      ensures Valid() && P() == Transition(old(P()), sensorOk, now)
    {
      hide Dropping, Starting, Running, Recovering;
      match state {
        case INIT =>
          relayOn := false;
          if sensorOk {
            EnterState(IDLE, now);
          }
        case IDLE =>
          relayOn := false;
          if mode == AUTO && m.filtered < cfg.onBar {
            EventBegin(now);
            EnterState(PRESSURE_DROP, now);
          }
        case PRESSURE_DROP => StepDrop(now);
        case STARTING => StepStarting(now);
        case RUNNING => StepRunning(now);
        case RECOVERING => StepRecovering(now);
        case LOCKOUT =>
          relayOn := false;
          if pumpStop == 0 || Since(now, pumpStop) >= cfg.minOff {
            EnterState(IDLE, now);
          }
        case FAULT =>
          relayOn := false;
      }
    }

    /** One control tick: fresh pressure, sensor health and time. */
    method Update(bar: real, sensorOk: bool, now: nat)
      requires Valid()
      modifies this, starts
      ensures Valid() && P() == Tick(old(P()), bar, sensorOk, now)
    {
      hide FilteredBy, EventTimed, Protected, Transition;
      FiltersUpdate(bar, now);
      EventUpdate(now);
      Protect(sensorOk, now);
      Advance(sensorOk, now);
      var n := StartsInLastHour(now);
      m := m.(startsLastHour := n);
      lastUpdate := now;
    }

    method OnRequest(duration: u32, now: nat) returns (ok: bool)
      requires Valid()
      modifies this, starts
      ensures Valid() && ok == OnAllowed(old(P()), now) && P() == RequestOn(old(P()), duration, now)
    {
      hide SwitchedOn, EventBegun, Recent, Entered;
      if state == FAULT || state == INIT {
        return false;
      }
      if m.filtered >= cfg.offBar {
        return false;
      }
      if pumpStop != 0 && Since(now, pumpStop) < cfg.minOff {
        return false;
      }
      var n := StartsInLastHour(now);
      if n >= cfg.maxStarts {
        return false;
      }
      mode := MANUAL;
      var seconds := if duration > MANUAL_MAX_ON_S then MANUAL_MAX_ON_S else duration;
      manualUntil := if seconds != 0 then now + seconds * 1000 else 0;
      if eventStart == 0 {
        EventBegin(now);
      }
      if !relayOn {
        PumpOn(now);
      }
      EnterState(RUNNING, now);
      ok := true;
    }

    method OffRequest(now: nat)
      requires Valid()
      modifies this
      ensures Valid() && P() == RequestOff(old(P()), now)
    {
      mode := MANUAL;
      if state == FAULT {
        return;
      }
      if relayOn {
        var minOffAt := pumpStart + cfg.minOn;
        manualUntil := if now > minOffAt then now else minOffAt;
      } else {
        EnterState(IDLE, now);
      }
    }

    method RestartRequest(now: nat) returns (ok: bool)
      requires Valid()
      modifies this
      ensures Valid() && ok == (old(state) != FAULT) && P() == RequestRestart(old(P()), now)
    {
      if state == FAULT {
        return false;
      }
      if relayOn {
        PumpOff(now);
        EnterState(RECOVERING, now);
      }
      ok := true;
    }

    method SetMode(next: Mode)
      requires Valid()
      modifies this`mode, this`manualUntil
      ensures Valid() && P() == ModeSet(old(P()), next)
    {
      mode := next;
      if state != FAULT && next == MANUAL && relayOn {
        manualUntil := 0;
      }
    }

    method AckFault(sensorOk: bool, now: nat) returns (ok: bool)
      requires Valid()
      modifies this
      ensures Valid() && ok == (old(state) == FAULT && sensorOk) && P() == FaultAcked(old(P()), sensorOk, now)
    {
      if state != FAULT {
        return false;
      }
      if !sensorOk {
        return false;
      }
      fault := NO_FAULT;
      EventEnd();
      m := m.(demand := NO_DEMAND);
      EnterState(IDLE, now);
      ok := true;
    }
  }
}
