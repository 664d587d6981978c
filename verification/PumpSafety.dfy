/** What one call of the pump manager can do: the relay follows the state, faults stay
    latched, and the protections hold after every tick. */
module PumpSafety {
  import opened Bytes
  import opened PumpSpec

  datatype Call =
    | Update(bar: real, sensorOk: bool, at: nat)
    | On(duration: u32, at: nat)
    | Off(at: nat)
    | Restart(at: nat)
    | SetMode(mode: Mode, at: nat)
    | Ack(sensorOk: bool, at: nat)
    | Configure(cfg: Config, at: nat)

  function Applied(p: Pump, c: Call): Pump
    requires p.startsIdx < |p.starts| == START_HISTORY
  {
    match c
    case Update(bar, ok, at) => Tick(p, bar, ok, at)
    case On(duration, at) => RequestOn(p, duration, at)
    case Off(at) => RequestOff(p, at)
    case Restart(at) => RequestRestart(p, at)
    case SetMode(mode, at) => ModeSet(p, mode)
    case Ack(ok, at) => FaultAcked(p, ok, at)
    case Configure(cfg, at) => p.(cfg := cfg)
  }

  /** The relay is on exactly in RUNNING, a fault is latched exactly in FAULT, and a
      stopped pump was stopped after its last start. */
  predicate Coherent(p: Pump) {
    && p.startsIdx < |p.starts| == START_HISTORY
    && (p.relayOn <==> p.state == RUNNING)
    && (p.fault != NO_FAULT <==> p.state == FAULT)
    && (!p.relayOn ==> p.pumpStart <= p.pumpStop)
  }

  /** Nothing about switching has changed. */
  predicate SameSwitching(p: Pump, q: Pump) {
    && q.relayOn == p.relayOn && q.pumpStart == p.pumpStart && q.pumpStop == p.pumpStop
    && q.starts == p.starts && q.startsIdx == p.startsIdx
  }

  /** A start: allowed by the rest time and by the hourly guard, and recorded. */
  predicate Started(p: Pump, q: Pump, at: nat)
    requires p.startsIdx < |p.starts| == START_HISTORY
  {
    && !p.relayOn && q.relayOn
    && RestOver(p, at) && Recent(p.starts, at) < p.cfg.maxStarts
    && q.pumpStart == at && q.pumpStop == p.pumpStop
    && q.starts == p.starts[p.startsIdx := at] && q.startsIdx == (p.startsIdx + 1) % START_HISTORY
  }

  /** A stop; one made by a tick without a fault comes after the minimum run time. */
  predicate Stopped(p: Pump, q: Pump, at: nat, tick: bool) {
    && p.relayOn && !q.relayOn
    && q.pumpStop == at && q.pumpStart == p.pumpStart
    && q.starts == p.starts && q.startsIdx == p.startsIdx
    && (tick && q.fault == NO_FAULT ==> RunTime(p, at) >= p.cfg.minOn)
  }

  lemma ProtectedEffect(p: Pump, sensorOk: bool, at: nat)
    requires Coherent(p) && (p.relayOn ==> p.pumpStart <= at)
    ensures var q := Protected(p, sensorOk, at);
      && Coherent(q) && q.cfg == p.cfg
      && (SameSwitching(p, q) || (q.state == FAULT && Stopped(p, q, at, true)))
  {
  }

  lemma TransitionEffect(p: Pump, sensorOk: bool, at: nat)
    requires Coherent(p) && (p.relayOn ==> p.pumpStart <= at)
    ensures var q := Transition(p, sensorOk, at);
      && Coherent(q) && q.cfg == p.cfg
      && (SameSwitching(p, q) || Started(p, q, at) || Stopped(p, q, at, true))
      && (p.state == FAULT ==> q.state == FAULT && SameSwitching(p, q))
  {
    hide Recent, Classified, RunDemand;
  }

  /** Every call keeps the relay and the fault coherent with the state, and switches the
      pump at most once, in a permitted way. */
  lemma CallEffect(p: Pump, c: Call)
    requires Coherent(p) && (p.relayOn ==> p.pumpStart <= c.at)
    ensures var q := Applied(p, c);
      && Coherent(q)
      && (SameSwitching(p, q) || Started(p, q, c.at) || Stopped(p, q, c.at, c.Update?))
  {
    if c.Update? {
      TickEffect(p, c.bar, c.sensorOk, c.at);
    } else if c.On? {
      hide Recent;
    }
  }

  lemma TickEffect(p: Pump, bar: real, sensorOk: bool, at: nat)
    requires Coherent(p) && (p.relayOn ==> p.pumpStart <= at)
    ensures var q := Tick(p, bar, sensorOk, at);
      && Coherent(q)
      && (SameSwitching(p, q) || Started(p, q, at) || Stopped(p, q, at, true))
  {
    hide Protected, Transition, Recent;
    var e := EventTimed(FilteredBy(p, bar, at), at);
    FiltersOnlyMeasure(p, bar, at);
    ProtectedEffect(e, sensorOk, at);
    TransitionEffect(Protected(e, sensorOk, at), sensorOk, at);
  }

  lemma FiltersOnlyMeasure(p: Pump, bar: real, at: nat)
    ensures var e := EventTimed(FilteredBy(p, bar, at), at);
      SameSwitching(p, e) && e.cfg == p.cfg && e.state == p.state && e.fault == p.fault && e.mode == p.mode
      && e.startBar == p.startBar && e.manualUntil == p.manualUntil && e.m.eventStartBar == p.m.eventStartBar
  {
  }

  /** A fault is left only by an acknowledge with a healthy sensor, and every call that
      is not one leaves the pump off. */
  lemma FaultIsLatched(p: Pump, c: Call)
    requires Coherent(p) && p.state == FAULT
    ensures var q := Applied(p, c);
      && (q.state != FAULT <==> c.Ack? && c.sensorOk)
      && !q.relayOn
      && (q.state == FAULT ==> q.fault == p.fault)
  {
    hide Recent, FilteredBy;
    if c.Update? {
      FiltersOnlyMeasure(p, c.bar, c.at);
    }
  }

  /** The limits of a pump that keeps running: a healthy sensor, the run time, the pressure
      rise after the detection time, and no collapse of the pressure. */
  predicate WithinEnvelope(p: Pump, q: Pump, sensorOk: bool, at: nat) {
    && sensorOk
    && at - q.pumpStart < (if p.mode == MANUAL && p.manualUntil != 0 then 900_000 else p.cfg.maxOn)
    && (at - q.pumpStart >= p.cfg.dryDetect ==> q.m.filtered - q.startBar >= p.cfg.dryMinRise)
    && !(q.m.filtered < p.cfg.criticalBar <= q.m.eventStartBar)
    && q.state == RUNNING && q.fault == NO_FAULT && q.pumpStart == p.pumpStart
  }

  /** A tick that leaves a running pump on has found it within its limits. */
  lemma RunningIsSafe(p: Pump, bar: real, sensorOk: bool, at: nat)
    requires Coherent(p) && p.relayOn && p.pumpStart <= at
    ensures var q := Tick(p, bar, sensorOk, at); q.relayOn ==> WithinEnvelope(p, q, sensorOk, at)
  {
    hide Recent, FilteredBy, Classified, RunDemand;
    FiltersOnlyMeasure(p, bar, at);
  }

  /** Conversely a tick that stops a pump by a fault names a limit that was violated. */
  lemma FaultHasCause(p: Pump, bar: real, sensorOk: bool, at: nat)
    requires Coherent(p) && p.relayOn && p.pumpStart <= at
    ensures var e, q := EventTimed(FilteredBy(p, bar, at), at), Tick(p, bar, sensorOk, at);
      match q.fault
      case NO_FAULT => q.state != FAULT
      case SENSOR => !sensorOk
      case CRITICAL_LOW => e.m.filtered < p.cfg.criticalBar <= p.m.eventStartBar
      case MAX_RUNTIME => at - p.pumpStart >= RunLimit(p)
      case DRY_RUN => at - p.pumpStart >= p.cfg.dryDetect && e.m.filtered - p.startBar < p.cfg.dryMinRise
      case TOO_MANY_STARTS => false
  {
    hide Recent, FilteredBy, Classified, RunDemand;
    FiltersOnlyMeasure(p, bar, at);
  }

  // ---------------------------------------------------------------- requested stops

  datatype Sample = Sample(bar: real, sensorOk: bool, at: nat)

  lemma TickKeepsHistory(p: Pump, bar: real, sensorOk: bool, at: nat)
    requires p.startsIdx < |p.starts| == START_HISTORY
    ensures var q := Tick(p, bar, sensorOk, at); q.startsIdx < |q.starts| == START_HISTORY
  {
    hide FilteredBy, EventTimed, Protected, Transition, Recent;
    FiltersOnlyMeasure(p, bar, at);
    ProtectedKeepsHistory(EventTimed(FilteredBy(p, bar, at), at), sensorOk, at);
    TransitionKeepsHistory(Protected(EventTimed(FilteredBy(p, bar, at), at), sensorOk, at), sensorOk, at);
  }

  lemma ProtectedKeepsHistory(p: Pump, sensorOk: bool, at: nat)
    ensures var q := Protected(p, sensorOk, at); q.starts == p.starts && q.startsIdx == p.startsIdx
  {
    hide Tripped;
  }

  lemma TransitionKeepsHistory(p: Pump, sensorOk: bool, at: nat)
    requires p.startsIdx < |p.starts| == START_HISTORY
    ensures var q := Transition(p, sensorOk, at); q.startsIdx < |q.starts| == START_HISTORY
  {
    hide Recent, Classified, RunDemand, RestOver;
  }

  /** A stretch of ticks without any other call. */
  function Ticks(p: Pump, samples: seq<Sample>): (q: Pump)
    requires p.startsIdx < |p.starts| == START_HISTORY
    ensures q.startsIdx < |q.starts| == START_HISTORY
  {
    if samples == [] then p
    else
      var n := |samples| - 1;
      var r := Ticks(p, samples[..n]);
      TickKeepsHistory(r, samples[n].bar, samples[n].sensorOk, samples[n].at);
      Tick(r, samples[n].bar, samples[n].sensorOk, samples[n].at)
  }

  /** Samples at non-decreasing times from `t` on. */
  predicate InTime(samples: seq<Sample>, t: nat) {
    samples == [] ||
    var n := |samples| - 1;
    InTime(samples[..n], t) && LastTime(samples[..n], t) <= samples[n].at
  }

  function LastTime(samples: seq<Sample>, t: nat): nat {
    if samples == [] then t else samples[|samples| - 1].at
  }

  /** The first sample at `due` or later, their number if there is none. */
  function FirstDue(samples: seq<Sample>, due: nat): (k: nat)
    ensures k <= |samples|
    ensures forall i | 0 <= i < k :: samples[i].at < due
    ensures k < |samples| ==> samples[k].at >= due
  {
    if samples == [] then 0
    else
      var n := |samples| - 1;
      var k := FirstDue(samples[..n], due);
      if k < n || samples[n].at >= due then k else n + 1
  }

  /** Running, and to be stopped at `due`, or at once if `due` is over. */
  predicate Stopping(q: Pump, start: nat, due: nat, t: nat) {
    && Coherent(q) && q.relayOn && q.mode == MANUAL && q.pumpStart == start <= t && start + q.cfg.minOn == due
    && q.manualUntil > 0 && q.manualUntil >= due && (q.manualUntil == due || q.manualUntil <= t)
  }

  /** Stopped, with nothing that would start it again. */
  predicate AtRest(q: Pump) {
    Coherent(q) && q.mode == MANUAL && q.state in {RECOVERING, LOCKOUT, IDLE, FAULT}
  }

  lemma StoppingProtected(q: Pump, start: nat, due: nat, t: nat, sensorOk: bool, at: nat)
    requires Stopping(q, start, due, t) && at >= t
    ensures var m := Protected(q, sensorOk, at); m == q || (AtRest(m) && m.state == FAULT)
  {
    hide Dry, Collapsed;
  }

  lemma StoppingRuns(q: Pump, start: nat, due: nat, t: nat, sensorOk: bool, at: nat)
    requires Stopping(q, start, due, t) && at >= t
    ensures var m := Transition(q, sensorOk, at);
      if at < due then Stopping(m, start, due, at)
      else AtRest(m) && m.fault == NO_FAULT && m.pumpStop == at
  {
    hide Starting, Dropping, Recovering, RestOver;
  }

  lemma StoppingTick(q: Pump, start: nat, due: nat, t: nat, x: Sample)
    requires Stopping(q, start, due, t) && x.at >= t
    ensures var m := Tick(q, x.bar, x.sensorOk, x.at);
      if x.at < due then Stopping(m, start, due, x.at) || (AtRest(m) && m.fault != NO_FAULT)
      else AtRest(m) && (m.fault == NO_FAULT ==> m.pumpStop == x.at)
  {
    hide FilteredBy, EventTimed, Protected, Transition, Recent;
    FiltersOnlyMeasure(q, x.bar, x.at);
    var e := EventTimed(FilteredBy(q, x.bar, x.at), x.at);
    StoppingProtected(e, start, due, t, x.sensorOk, x.at);
    var m := Protected(e, x.sensorOk, x.at);
    if m == e {
      StoppingRuns(e, start, due, t, x.sensorOk, x.at);
    } else {
      FaultRests(m, x.sensorOk, x.at);
    }
  }

  lemma FaultRests(q: Pump, sensorOk: bool, at: nat)
    requires q.startsIdx < |q.starts| == START_HISTORY && q.state == FAULT && !q.relayOn
    ensures Transition(q, sensorOk, at) == q
  {
  }

  lemma RestingTick(q: Pump, x: Sample)
    requires AtRest(q)
    ensures var m := Tick(q, x.bar, x.sensorOk, x.at);
      AtRest(m) && (q.fault != NO_FAULT ==> m.fault != NO_FAULT) && (m.fault == NO_FAULT ==> m.pumpStop == q.pumpStop)
  {
    FiltersOnlyMeasure(q, x.bar, x.at);
  }

  /** A stop requested at `t` while the pump runs: through any number of ticks the pump stays
      on, unless a fault stops it, until the minimum run time is over; the first tick from
      then on stops it, and it stays off. */
  lemma {:induction false} OffIsHonoured(p: Pump, t: nat, samples: seq<Sample>)
    requires Coherent(p) && p.relayOn && p.pumpStart <= t && t > 0 && InTime(samples, t)
    ensures var q, k := Ticks(RequestOff(p, t), samples), FirstDue(samples, p.pumpStart + p.cfg.minOn);
      && (k == |samples| ==> q.relayOn || q.fault != NO_FAULT)
      && (k < |samples| ==> !q.relayOn && (q.fault == NO_FAULT ==> q.pumpStop == samples[k].at))
      && (if q.relayOn then Stopping(q, p.pumpStart, p.pumpStart + p.cfg.minOn, LastTime(samples, t)) else AtRest(q))
  {
    hide Tick, Stopping, AtRest;
    RequestIsTaken(p, t);
    if samples != [] {
      var n := |samples| - 1;
      OffIsHonoured(p, t, samples[..n]);
      var q := Ticks(RequestOff(p, t), samples[..n]);
      if q.relayOn {
        StoppingTick(q, p.pumpStart, p.pumpStart + p.cfg.minOn, LastTime(samples[..n], t), samples[n]);
        StoppingIsOn(Ticks(RequestOff(p, t), samples), p.pumpStart, p.pumpStart + p.cfg.minOn, samples[n].at);
      } else {
        RestingTick(q, samples[n]);
      }
      RestIsOff(Ticks(RequestOff(p, t), samples));
    }
  }

  lemma RequestIsTaken(p: Pump, t: nat)
    requires Coherent(p) && p.relayOn && p.pumpStart <= t && t > 0
    ensures Stopping(RequestOff(p, t), p.pumpStart, p.pumpStart + p.cfg.minOn, t)
  {
  }

  lemma StoppingIsOn(q: Pump, start: nat, due: nat, t: nat)
    ensures Stopping(q, start, due, t) ==> q.relayOn
  {
  }

  lemma RestIsOff(q: Pump)
    ensures AtRest(q) ==> !q.relayOn
  {
  }

  // ---------------------------------------------------------------- timed runs

  const CEILING_MS: nat := 1000 * MANUAL_MAX_ON_S

  /** Running in MANUAL mode with a deadline. */
  predicate Timed(q: Pump, start: nat, until: nat, due: nat, t: nat) {
    && Coherent(q) && q.relayOn && q.mode == MANUAL && q.pumpStart == start <= t
    && q.manualUntil == until > 0 && due == if until > start + q.cfg.minOn then until else start + q.cfg.minOn
  }

  /** Some tick falls between the time the run is due to end and the run-time fault. */
  predicate TickInTime(samples: seq<Sample>, due: nat, limit: nat) {
    exists i :: 0 <= i < |samples| && due <= samples[i].at < limit
  }

  lemma TimedProtected(q: Pump, start: nat, until: nat, due: nat, t: nat, sensorOk: bool, at: nat)
    requires Timed(q, start, until, due, t) && at >= t
    ensures var m := Protected(q, sensorOk, at);
      && (m == q || (AtRest(m) && m.state == FAULT))
      && (m == q ==> at < start + CEILING_MS)
      && (m.fault == MAX_RUNTIME ==> at >= start + CEILING_MS)
  {
    hide Dry, Collapsed;
  }

  lemma TimedRuns(q: Pump, start: nat, until: nat, due: nat, t: nat, sensorOk: bool, at: nat)
    requires Timed(q, start, until, due, t) && at >= t
    ensures var m := Transition(q, sensorOk, at);
      if at < due then Timed(m, start, until, due, at) else AtRest(m) && m.fault == NO_FAULT
  {
    hide Starting, Dropping, Recovering, RestOver;
  }

  lemma TimedTick(q: Pump, start: nat, until: nat, due: nat, t: nat, x: Sample)
    requires Timed(q, start, until, due, t) && x.at >= t
    ensures var m := Tick(q, x.bar, x.sensorOk, x.at);
      && (Timed(m, start, until, due, x.at) || AtRest(m))
      && (m.fault in {NO_FAULT, MAX_RUNTIME} ==>
            if x.at >= start + CEILING_MS then AtRest(m) && m.fault == MAX_RUNTIME
            else if x.at < due then Timed(m, start, until, due, x.at)
            else AtRest(m) && m.fault == NO_FAULT)
  {
    hide FilteredBy, EventTimed, Protected, Transition, Recent;
    FiltersOnlyMeasure(q, x.bar, x.at);
    var e := EventTimed(FilteredBy(q, x.bar, x.at), x.at);
    TimedProtected(e, start, until, due, t, x.sensorOk, x.at);
    var m := Protected(e, x.sensorOk, x.at);
    if m == e {
      TimedRuns(e, start, until, due, t, x.sensorOk, x.at);
    } else {
      FaultRests(m, x.sensorOk, x.at);
    }
  }

  lemma RestingFault(q: Pump, x: Sample)
    requires AtRest(q)
    ensures var m := Tick(q, x.bar, x.sensorOk, x.at); AtRest(m) && (m.fault == q.fault || m.fault == SENSOR)
  {
    hide FilteredBy, EventTimed, Recent;
    FiltersOnlyMeasure(q, x.bar, x.at);
  }

  /** The last tick is at or after the fault's time, and none was in time. */
  predicate TooLate(samples: seq<Sample>, due: nat, limit: nat) {
    samples != [] && samples[|samples| - 1].at >= limit && !TickInTime(samples, due, limit)
  }

  /** What a timed run has come to after some ticks, unless another protection has tripped. */
  predicate Outcome(q: Pump, start: nat, until: nat, due: nat, t: nat, samples: seq<Sample>) {
    var limit := start + CEILING_MS;
    if q.fault == MAX_RUNTIME then AtRest(q) && TooLate(samples, due, limit)
    else if q.relayOn then
      Timed(q, start, until, due, LastTime(samples, t)) && forall x <- samples :: x.at < due && x.at < limit
    else AtRest(q) && TickInTime(samples, due, limit)
  }

  lemma {:induction false} TimedOutcome(p: Pump, start: nat, until: nat, due: nat, t: nat, samples: seq<Sample>)
    requires Timed(p, start, until, due, t) && InTime(samples, t)
    ensures var q := Ticks(p, samples);
      && (q.relayOn ==> Timed(q, start, until, due, LastTime(samples, t))) && (!q.relayOn ==> AtRest(q))
      && (q.fault in {NO_FAULT, MAX_RUNTIME} ==> Outcome(q, start, until, due, t, samples))
  {
    hide Tick, Timed, AtRest, TickInTime;
    TimedIsOn(p, start, until, due, t);
    if samples != [] {
      var n := |samples| - 1;
      TimedOutcome(p, start, until, due, t, samples[..n]);
      var q, m := Ticks(p, samples[..n]), Ticks(p, samples);
      if q.relayOn {
        TimedTick(q, start, until, due, LastTime(samples[..n], t), samples[n]);
      } else {
        RestingFault(q, samples[n]);
      }
      TimedIsOn(q, start, until, due, LastTime(samples[..n], t));
      TimedIsOn(m, start, until, due, samples[n].at);
      RestIsOff(m);
      NoneInTime(samples[..n], due, start + CEILING_MS);
      OneMoreTick(samples, due, start + CEILING_MS);
      assert samples == samples[..n] + [samples[n]];
    }
  }

  lemma TimedIsOn(q: Pump, start: nat, until: nat, due: nat, t: nat)
    ensures Timed(q, start, until, due, t) ==>
      q.relayOn && q.fault == NO_FAULT && q.startsIdx < |q.starts| == START_HISTORY
  {
  }

  lemma OneMoreTick(samples: seq<Sample>, due: nat, limit: nat)
    requires samples != []
    ensures var n := |samples| - 1;
      TickInTime(samples, due, limit) <==> TickInTime(samples[..n], due, limit) || due <= samples[n].at < limit
  {
    var n := |samples| - 1;
    if i :| 0 <= i < n && due <= samples[..n][i].at < limit {
      assert samples[i] == samples[..n][i];
    }
    if i :| 0 <= i < |samples| && due <= samples[i].at < limit {
      assert i < n ==> samples[..n][i] == samples[i];
    }
  }

  /** A timed manual run, through any number of ticks and unless another protection trips:
      it ends by its deadline, without a fault, if and only if a tick falls at or after the
      deadline (and the minimum run time) and before 900 s of run time; if the first tick
      from the deadline on comes later, the run-time fault ends it. */
  lemma DeadlineEndsRun(p: Pump, t: nat, samples: seq<Sample>)
    requires Coherent(p) && p.relayOn && p.mode == MANUAL && p.manualUntil > 0 && p.pumpStart <= t && InTime(samples, t)
    ensures var q, limit := Ticks(p, samples), p.pumpStart + CEILING_MS;
      var due := if p.manualUntil > p.pumpStart + p.cfg.minOn then p.manualUntil else p.pumpStart + p.cfg.minOn;
      q.fault in {NO_FAULT, MAX_RUNTIME} ==>
        && (!q.relayOn && q.fault == NO_FAULT <==> TickInTime(samples, due, limit))
        && (q.fault == MAX_RUNTIME <==> TooLate(samples, due, limit))
  {
    hide Ticks, TickInTime, InTime;
    var due := if p.manualUntil > p.pumpStart + p.cfg.minOn then p.manualUntil else p.pumpStart + p.cfg.minOn;
    TimedOutcome(p, p.pumpStart, p.manualUntil, due, t, samples);
    NoneInTime(samples, due, p.pumpStart + CEILING_MS);
  }

  lemma NoneInTime(samples: seq<Sample>, due: nat, limit: nat)
    ensures (forall x <- samples :: x.at < due && x.at < limit) ==> !TickInTime(samples, due, limit)
  {
  }

  /** A start for 900 s or more leaves no such time: its deadline is the fault's. */
  lemma FullTimeIsFault(p: Pump, duration: u32, t: nat, samples: seq<Sample>)
    requires Coherent(p) && !p.relayOn && OnAllowed(p, t) && duration >= 900 && InTime(samples, t)
    ensures var r := RequestOn(p, duration, t);
      && r.startsIdx < |r.starts| == START_HISTORY && r.manualUntil == r.pumpStart + CEILING_MS
      && (!Ticks(r, samples).relayOn ==> Ticks(r, samples).fault != NO_FAULT)
  {
    hide Ticks, InTime, Recent;
    var r := RequestOn(p, duration, t);
    StartIsTimed(p, duration, t);
    DeadlineEndsRun(r, t, samples);
  }

  lemma StartIsTimed(p: Pump, duration: u32, t: nat)
    requires Coherent(p) && !p.relayOn && OnAllowed(p, t) && duration > 0
    ensures var r := RequestOn(p, duration, t);
      && Coherent(r) && r.relayOn && r.mode == MANUAL && r.pumpStart == t && r.cfg == p.cfg
      && r.manualUntil == t + (if duration > 900 then 900 else duration) * 1000
  {
    hide Recent;
  }

  /** A tick starts the pump exactly from STARTING with a healthy sensor, a free slot in
      the hour and the rest time over. The mode plays no part: a pump whose mode became
      MANUAL while it was in STARTING still starts. */
  lemma TickStarts(p: Pump, bar: real, sensorOk: bool, at: nat)
    requires Coherent(p) && !p.relayOn
    ensures Tick(p, bar, sensorOk, at).relayOn <==>
      p.state == STARTING && sensorOk && Recent(p.starts, at) < p.cfg.maxStarts && RestOver(p, at)
  {
    hide Recent, FilteredBy, Classified, RunDemand;
    FiltersOnlyMeasure(p, bar, at);
  }
}
