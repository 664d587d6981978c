/** The automatic cycle: a pressure drop that lasts starts the pump, enough pressure stops
    it, and it rests before the next start; with the filter that all of it looks through. */
module PumpCycle {
  import opened Bytes
  import opened PumpSpec
  import opened PumpSafety

  // ---------------------------------------------------------------- one tick, pump running

  /** Running in AUTO mode since `start`. */
  predicate AutoOn(q: Pump, start: nat, t: nat) {
    Coherent(q) && q.relayOn && q.mode == AUTO && q.pumpStart == start <= t
  }

  /** The filtered pressure is high enough to stop, and the minimum run time is over. */
  predicate Full(q: Pump, start: nat, at: nat) {
    q.m.filtered >= q.cfg.offBar && at - start >= q.cfg.minOn
  }

  /** A tick that no protection trips stops an automatic run exactly when the pressure is
      high enough after the minimum run time; then the pump recovers. */
  lemma AutoTick(q: Pump, start: nat, t: nat, x: Sample)
    requires AutoOn(q, start, t) && x.at >= t
    ensures var m := Tick(q, x.bar, x.sensorOk, x.at);
      && m.cfg == q.cfg
      && (m.fault == NO_FAULT ==>
            if Full(m, start, x.at) then !m.relayOn && m.state == RECOVERING && m.stateEnter == m.pumpStop == x.at
            else AutoOn(m, start, x.at))
  {
    hide FilteredBy, EventTimed, Recent, Classified, RunDemand, Tripped;
    FiltersOnlyMeasure(q, x.bar, x.at);
  }

  lemma FaultStays(q: Pump, x: Sample)
    requires q.startsIdx < |q.starts| == START_HISTORY && q.state == FAULT
    ensures var m := Tick(q, x.bar, x.sensorOk, x.at); m.state == FAULT && m.fault == q.fault && m.mode == q.mode
  {
    hide FilteredBy, EventTimed, Recent;
    FiltersOnlyMeasure(q, x.bar, x.at);
  }

  /** The pump after the first `k + 1` ticks. */
  function AfterTick(p: Pump, samples: seq<Sample>, k: nat): Pump
    requires p.startsIdx < |p.starts| == START_HISTORY && k < |samples|
  {
    Ticks(p, samples[..k + 1])
  }

  /** Through any ticks, as long as no fault stops it, an automatic run goes on while none of
      them finds it full; the first one that does stops it. */
  lemma {:induction false} AutoRunEnds(p: Pump, start: nat, t: nat, samples: seq<Sample>)
    requires AutoOn(p, start, t) && InTime(samples, t) && samples != []
    ensures var n, q := |samples| - 1, Ticks(p, samples);
      q.fault == NO_FAULT && (forall k | 0 <= k < n :: !Full(AfterTick(p, samples, k), start, samples[k].at)) ==>
        && q.cfg == p.cfg
        && (q.relayOn <==> !Full(q, start, samples[n].at))
        && if q.relayOn then AutoOn(q, start, samples[n].at) else q.state == RECOVERING && q.pumpStop == samples[n].at
  {
    hide Tick, AutoOn, Coherent, Full;
    AutoIsOn(p, start, t);
    var n, q := |samples| - 1, Ticks(p, samples);
    var r := Ticks(p, samples[..n]);
    if q.fault == NO_FAULT && forall k | 0 <= k < n :: !Full(AfterTick(p, samples, k), start, samples[k].at) {
      TicksCoherent(p, t, samples);
      TicksCoherent(p, t, samples[..n]);
      assert Tick(r, samples[n].bar, samples[n].sensorOk, samples[n].at) == q;
      if r.fault != NO_FAULT {
        CoherentFault(r);
        FaultStays(r, samples[n]);
      } else {
        if n > 0 {
          forall k | 0 <= k < n - 1
            ensures !Full(AfterTick(p, samples[..n], k), start, samples[..n][k].at)
          {
            assert samples[..n][..k + 1] == samples[..k + 1];
            assert !Full(AfterTick(p, samples, k), start, samples[k].at);
          }
          AutoRunEnds(p, start, t, samples[..n]);
          assert AfterTick(p, samples, n - 1) == r;
          assert samples[..n][n - 1] == samples[n - 1];
        } else {
          assert samples[..n] == [];
        }
        AutoTick(r, start, LastTime(samples[..n], t), samples[n]);
        AutoIsOn(q, start, samples[n].at);
      }
    }
  }

  lemma AutoIsOn(q: Pump, start: nat, t: nat)
    ensures AutoOn(q, start, t) ==> q.relayOn && q.pumpStart == start && q.startsIdx < |q.starts| == START_HISTORY
  {
  }

  lemma CoherentFault(q: Pump)
    requires Coherent(q)
    ensures q.fault != NO_FAULT <==> q.state == FAULT
  {
  }

  /** A run of ticks is coherent throughout. */
  lemma {:induction false} TicksCoherent(p: Pump, t: nat, samples: seq<Sample>)
    requires p.startsIdx < |p.starts| == START_HISTORY
    requires AutoOn(p, p.pumpStart, t) || (Coherent(p) && !p.relayOn)
    requires InTime(samples, t)
    ensures var q := Ticks(p, samples); Coherent(q) && (q.relayOn ==> q.pumpStart <= LastTime(samples, t))
  {
    hide Tick, Coherent;
    if samples == [] {
      CoherentStart(p, t);
    } else {
      var n := |samples| - 1;
      TicksCoherent(p, t, samples[..n]);
      var r := Ticks(p, samples[..n]);
      TickEffect(r, samples[n].bar, samples[n].sensorOk, samples[n].at);
      EffectStart(r, Ticks(p, samples), samples[n].at);
    }
  }

  lemma CoherentStart(p: Pump, t: nat)
    requires AutoOn(p, p.pumpStart, t) || (Coherent(p) && !p.relayOn)
    ensures Coherent(p) && (p.relayOn ==> p.pumpStart <= t)
  {
  }

  lemma EffectStart(r: Pump, q: Pump, at: nat)
    requires r.startsIdx < |r.starts| == START_HISTORY && (r.relayOn ==> r.pumpStart <= at)
    requires SameSwitching(r, q) || Started(r, q, at) || Stopped(r, q, at, true)
    ensures q.relayOn ==> q.pumpStart <= at
  {
  }

  // ---------------------------------------------------------------- one tick, pump off

  /** Where a tick with a healthy sensor leads while the pump is off. */
  lemma OffTick(p: Pump, bar: real, at: nat)
    requires Coherent(p) && !p.relayOn && p.state != STARTING
    ensures var q := Tick(p, bar, true, at); var f := q.m.filtered;
      q.cfg == p.cfg && q.mode == p.mode && !q.relayOn && q.pumpStop == p.pumpStop &&
      match p.state
      case INIT => q.state == IDLE
      case IDLE =>
        if p.mode == AUTO && f < p.cfg.onBar then
          && q.state == PRESSURE_DROP && q.stateEnter == q.eventStart == at
          && q.m.eventStartBar == q.m.plateau == f && q.m.eventDuration == 0
        else q.state == IDLE
      case PRESSURE_DROP =>
        if p.mode == MANUAL || f >= p.cfg.onBar then
          q.state == IDLE && q.eventStart == q.m.eventDuration == 0 && q.m.demand == NO_DEMAND
        else if Since(at, p.stateEnter) < p.cfg.dropConfirm then
          q.state == PRESSURE_DROP && q.stateEnter == p.stateEnter && q.m.eventStartBar == p.m.eventStartBar
        else if f < p.cfg.criticalBar <= p.m.eventStartBar then q.state == FAULT && q.fault == CRITICAL_LOW
        else q.state == STARTING
      case RECOVERING =>
        if (f >= p.cfg.onBar && -p.cfg.stableSlope < q.m.slope < p.cfg.stableSlope)
           || Since(at, p.stateEnter) >= p.cfg.recoveryTimeout
        then q.state == LOCKOUT && q.eventStart == q.m.eventDuration == 0 && q.m.demand == NO_DEMAND
        else q.state == RECOVERING && q.stateEnter == p.stateEnter
      case LOCKOUT => q.state == if p.pumpStop == 0 || Since(at, p.pumpStop) >= p.cfg.minOff then IDLE else LOCKOUT
      case FAULT => q.state == FAULT
  {
    hide FilteredBy, EventTimed, Recent;
    FiltersOnlyMeasure(p, bar, at);
    FiltersKeepEvent(p, bar, at);
  }

  lemma FiltersKeepEvent(p: Pump, bar: real, at: nat)
    ensures var e := EventTimed(FilteredBy(p, bar, at), at);
      && e.eventStart == p.eventStart && e.stateEnter == p.stateEnter && e.m.demand == p.m.demand
      && e.m.filtered == FilteredBy(p, bar, at).m.filtered && e.m.slope == FilteredBy(p, bar, at).m.slope
      && e.m.pressure == FilteredBy(p, bar, at).m.pressure
      && e.lastFiltered == FilteredBy(p, bar, at).lastFiltered && e.lastUpdate == p.lastUpdate
      && e.m.eventDuration == (if p.eventStart == 0 then p.m.eventDuration else Wrap32(Since(at, p.eventStart)))
  {
  }

  /** From STARTING a tick with a healthy sensor starts the pump, faults because of too many
      starts in the hour, or waits in LOCKOUT for the rest time. */
  lemma StartingTick(p: Pump, bar: real, at: nat)
    requires Coherent(p) && p.state == STARTING
    ensures var q := Tick(p, bar, true, at);
      if Recent(p.starts, at) >= p.cfg.maxStarts then q.state == FAULT && q.fault == TOO_MANY_STARTS && !q.relayOn
      else if p.pumpStop == 0 || Since(at, p.pumpStop) >= p.cfg.minOff then
        q.state == RUNNING && q.relayOn && q.pumpStart == at && q.startBar == q.m.filtered
        && q.m.cycles == Wrap32(p.m.cycles + 1)
      else q.state == LOCKOUT && !q.relayOn
  {
    hide FilteredBy, EventTimed, Recent;
    FiltersOnlyMeasure(p, bar, at);
    FiltersKeepCycles(p, bar, at);
  }

  lemma FiltersKeepCycles(p: Pump, bar: real, at: nat)
    ensures EventTimed(FilteredBy(p, bar, at), at).m.cycles == p.m.cycles
  {
  }

  /** Each tick is healthy and finds the pressure below the start pressure, but not
      critical. */
  predicate Low(p: Pump, samples: seq<Sample>)
    requires p.startsIdx < |p.starts| == START_HISTORY
  {
    forall k | 0 <= k < |samples| ::
      samples[k].sensorOk && p.cfg.criticalBar <= AfterTick(p, samples, k).m.filtered < p.cfg.onBar
  }

  /** From IDLE in AUTO mode, at low pressure: the drop is noticed at the first tick, the
      first tick that finds it to have lasted for the confirmation time leads to STARTING. */
  lemma {:induction false} DropIsConfirmed(p: Pump, t: nat, samples: seq<Sample>)
    requires Coherent(p) && !p.relayOn && p.mode == AUTO && p.state == IDLE
    requires samples != [] && InTime(samples, t) && Low(p, samples)
    requires forall k | 0 <= k < |samples| - 1 :: samples[k].at < samples[0].at + p.cfg.dropConfirm
    ensures var n, q := |samples| - 1, Ticks(p, samples);
      && Coherent(q) && !q.relayOn && q.mode == AUTO && q.cfg == p.cfg
      && if n > 0 && samples[n].at >= samples[0].at + p.cfg.dropConfirm then q.state == STARTING
         else q.state == PRESSURE_DROP && q.stateEnter == samples[0].at
  {
    hide Tick;
    var n := |samples| - 1;
    var x := samples[n];
    var r := Ticks(p, samples[..n]);
    assert AfterTick(p, samples, n) == Ticks(p, samples) == Tick(r, x.bar, x.sensorOk, x.at) by {
      assert samples[..n + 1] == samples;
    }
    if n > 0 {
      forall k | 0 <= k < n
        ensures samples[..n][k] == samples[k] && AfterTick(p, samples[..n], k) == AfterTick(p, samples, k)
      {
        assert samples[..n][..k + 1] == samples[..k + 1];
      }
      DropIsConfirmed(p, t, samples[..n]);
      LaterThanFirst(samples, t);
    } else {
      assert samples[..n] == [];
    }
    TickEffect(r, x.bar, true, x.at);
    OffTick(r, x.bar, x.at);
  }

  lemma {:induction false} LaterThanFirst(samples: seq<Sample>, t: nat)
    requires samples != [] && InTime(samples, t)
    ensures samples[0].at <= samples[|samples| - 1].at
  {
    var n := |samples| - 1;
    if n > 0 {
      LaterThanFirst(samples[..n], t);
    }
  }

  // ---------------------------------------------------------------- the filter

  function Pow(x: real, n: nat): real {
    if n == 0 then 1.0 else x * Pow(x, n - 1)
  }

  /** A tick leaves a fixed share of the distance between filtered and measured pressure;
      the first tick leaves nothing of it. The slope is the change of the filtered pressure
      per second. */
  lemma FilterStep(p: Pump, bar: real, at: nat)
    requires p.lastUpdate <= at
    ensures var q := FilteredBy(p, bar, at);
      && q.m.pressure == bar && q.lastFiltered == q.m.filtered
      && q.m.filtered - bar == (if p.lastUpdate == 0 then 0.0 else (1.0 - p.cfg.filterAlpha) * (p.m.filtered - bar))
      && (p.lastUpdate != 0 && at - p.lastUpdate > 1 ==>
            q.m.slope * ((at - p.lastUpdate) as real / 1000.0) == q.m.filtered - p.lastFiltered)
      && (p.lastUpdate != 0 && at - p.lastUpdate <= 1 ==> q.m.slope == p.m.slope)
      && (p.lastUpdate == 0 ==> q.m.slope == 0.0)
  {
  }

  /** After n ticks at one pressure the n-th power of that share is left. */
  lemma {:induction false} FilterConverges(p: Pump, t: nat, samples: seq<Sample>, bar: real)
    requires p.startsIdx < |p.starts| == START_HISTORY && 0 < p.lastUpdate <= t && InTime(samples, t)
    requires forall x <- samples :: x.bar == bar
    ensures var q := Ticks(p, samples);
      && q.cfg == p.cfg && 0 < q.lastUpdate == (if samples == [] then p.lastUpdate else LastTime(samples, t))
      && q.m.filtered - bar == Pow(1.0 - p.cfg.filterAlpha, |samples|) * (p.m.filtered - bar)
  {
    hide Tick, Pow, FilteredBy;
    PowStep(1.0 - p.cfg.filterAlpha, |samples|);
    if samples != [] {
      var n := |samples| - 1;
      assert forall x <- samples[..n] :: x in samples;
      FilterConverges(p, t, samples[..n], bar);
      var r, x := Ticks(p, samples[..n]), samples[n];
      assert x in samples;
      LaterThanStart(samples, t);
      TickFilters(r, x.bar, x.sensorOk, x.at);
      FilterStep(r, x.bar, x.at);
      Share(1.0 - p.cfg.filterAlpha, Pow(1.0 - p.cfg.filterAlpha, n), p.m.filtered - bar);
    }
  }

  lemma PowStep(x: real, n: nat)
    ensures Pow(x, n) == if n == 0 then 1.0 else x * Pow(x, n - 1)
  {
  }

  lemma Share(a: real, b: real, d: real)
    ensures a * (b * d) == (a * b) * d
  {
  }

  lemma {:induction false} LaterThanStart(samples: seq<Sample>, t: nat)
    requires InTime(samples, t)
    ensures LastTime(samples, t) >= t
  {
    if samples != [] {
      LaterThanStart(samples[..|samples| - 1], t);
    }
  }

  /** What the rest of a tick does not touch: the measurements, and the clock it leaves. */
  lemma TickFilters(p: Pump, bar: real, sensorOk: bool, at: nat)
    requires p.startsIdx < |p.starts| == START_HISTORY
    ensures var q, f := Tick(p, bar, sensorOk, at), FilteredBy(p, bar, at);
      && q.m.filtered == f.m.filtered && q.m.slope == f.m.slope && q.m.pressure == f.m.pressure
      && q.lastFiltered == f.lastFiltered && q.lastUpdate == at && q.cfg == p.cfg
      && q.m.startsLastHour == Recent(q.starts, at)
  {
    hide FilteredBy, EventTimed, Protected, Transition, Recent;
    FiltersOnlyMeasure(p, bar, at);
    FiltersKeepEvent(p, bar, at);
    var e := EventTimed(FilteredBy(p, bar, at), at);
    ProtectedMeasures(e, sensorOk, at);
    TransitionMeasures(Protected(e, sensorOk, at), sensorOk, at);
  }

  predicate SameMeasures(p: Pump, q: Pump) {
    && q.m.filtered == p.m.filtered && q.m.slope == p.m.slope && q.m.pressure == p.m.pressure
    && q.lastFiltered == p.lastFiltered && q.cfg == p.cfg
  }

  lemma ProtectedMeasures(p: Pump, sensorOk: bool, at: nat)
    ensures var q := Protected(p, sensorOk, at);
      SameMeasures(p, q) && q.starts == p.starts && q.startsIdx == p.startsIdx
  {
    hide Tripped;
  }

  lemma TransitionMeasures(p: Pump, sensorOk: bool, at: nat)
    requires p.startsIdx < |p.starts| == START_HISTORY
    ensures SameMeasures(p, Transition(p, sensorOk, at))
  {
    hide Dropping, Starting, Running, Recovering, RestOver;
    var q := p.(relayOn := p.state == RUNNING || (p.state == STARTING && p.relayOn));
    StageMeasures(q, at);
  }

  lemma StageMeasures(p: Pump, at: nat)
    requires p.startsIdx < |p.starts| == START_HISTORY
    ensures SameMeasures(p, Dropping(p, at)) && SameMeasures(p, Running(p, at))
    ensures SameMeasures(p, Starting(p, at)) && SameMeasures(p, Recovering(p, at))
  {
    hide Recent, Classified, RunDemand, RestOver;
  }

  // ---------------------------------------------------------------- demand

  /** While an event lasts and the pressure is stable, the plateau moves a tenth of the way
      to the filtered pressure; else it stays. */
  lemma PlateauStep(p: Pump, bar: real, at: nat)
    requires p.lastUpdate != 0
    ensures var q := FilteredBy(p, bar, at); var f := q.m.filtered;
      if p.eventStart != 0 && -p.cfg.stableSlope < q.m.slope < p.cfg.stableSlope then
        f - q.m.plateau == 0.9 * (f - p.m.plateau)
      else q.m.plateau == p.m.plateau
  {
  }

  /** The demand an automatic run reports: by the plateau, unless it lasts too long for that
      kind of demand or the pressure is critical. */
  lemma RunReportsDemand(p: Pump, start: nat, t: nat, x: Sample)
    requires AutoOn(p, start, t) && x.at >= t
    ensures var q, e := Tick(p, x.bar, x.sensorOk, x.at), EventTimed(FilteredBy(p, x.bar, x.at), x.at);
      q.fault == NO_FAULT && q.relayOn ==>
        var hand := p.cfg.handMinBar <= e.m.plateau <= p.cfg.handMaxBar;
        var tank := p.cfg.tankMinBar <= e.m.plateau <= p.cfg.tankMaxBar;
        var low := e.m.filtered < p.cfg.criticalBar;
        && (q.m.demand == LEAK_SUSPECT <==>
              e.m.eventDuration > (if low then p.cfg.unknownMax else if hand then p.cfg.handMax
                                   else if tank then p.cfg.tankMax else p.cfg.unknownMax))
        && (q.m.demand != LEAK_SUSPECT ==>
              && (q.m.demand == PIPE_BREAK <==> low) && (q.m.demand == HAND <==> !low && hand)
              && (q.m.demand == TANK <==> !low && !hand && tank)
              && (q.m.demand == UNKNOWN <==> !low && !hand && !tank))
  {
    hide FilteredBy, EventTimed, Recent, Tripped;
    FiltersOnlyMeasure(p, x.bar, x.at);
  }

  // ---------------------------------------------------------------- requests

  /** A remote start is taken exactly in a state other than FAULT and INIT, below the stop
      pressure, after the rest time and with a start left in the hour; its time is cut to
      900 s, 0 means no deadline. One that is refused changes nothing. */
  lemma OnTaken(p: Pump, duration: u32, t: nat)
    requires Coherent(p)
    ensures var q := RequestOn(p, duration, t);
      var taken := p.state !in {FAULT, INIT} && p.m.filtered < p.cfg.offBar && Recent(p.starts, t) < p.cfg.maxStarts
                   && (p.pumpStop == 0 || Since(t, p.pumpStop) >= p.cfg.minOff);
      if !taken then q == p
      else
        && q.state == RUNNING && q.relayOn && q.mode == MANUAL && q.cfg == p.cfg && q.fault == NO_FAULT
        && q.manualUntil == (if duration == 0 then 0 else t + 1000 * (if duration < 900 then duration else 900))
        && (if p.relayOn then q.pumpStart == p.pumpStart && q.starts == p.starts
            else q.pumpStart == t && q.startBar == p.m.filtered)
        && (if p.eventStart == 0 then
              q.eventStart == t && q.m.eventDuration == 0 && q.m.eventStartBar == q.m.plateau == p.m.filtered
            else q.eventStart == p.eventStart && q.m.eventStartBar == p.m.eventStartBar)
  {
    hide Recent;
  }

  /** The other requests: off leaves an idle pump, or a deadline for a running one; restart
      stops a running pump at once; a change to MANUAL lifts the deadline; an acknowledge
      with a healthy sensor leaves an idle pump without an event. */
  lemma OthersTaken(p: Pump, t: nat, mode: Mode)
    requires Coherent(p)
    ensures var q := RequestOff(p, t);
      && q.mode == MANUAL
      && (p.state == FAULT ==> q == p.(mode := MANUAL))
      && (p.state == RUNNING ==>
            && q.state == RUNNING && q.relayOn
            && q.manualUntil == if t > p.pumpStart + p.cfg.minOn then t else p.pumpStart + p.cfg.minOn)
      && (p.state !in {FAULT, RUNNING} ==> q.state == IDLE && !q.relayOn && q.pumpStop == p.pumpStop)
    ensures var q := RequestRestart(p, t);
      if p.relayOn then q.state == RECOVERING && !q.relayOn && q.pumpStop == q.stateEnter == t && q.manualUntil == 0
      else q == p
    ensures var q := ModeSet(p, mode);
      && q.mode == mode && q.state == p.state && q.relayOn == p.relayOn
      && q.manualUntil == if mode == MANUAL && p.relayOn then 0 else p.manualUntil
    ensures var q := FaultAcked(p, true, t);
      p.state == FAULT ==>
        && q.state == IDLE && q.fault == NO_FAULT && !q.relayOn
        && q.eventStart == q.m.eventDuration == 0 && q.m.demand == NO_DEMAND
    ensures FaultAcked(p, false, t) == p && (p.state != FAULT ==> FaultAcked(p, true, t) == p)
  {
  }

  /** A fault tells its cause in the demand as well: a lost sensor, a broken pipe; the
      run-time and dry-run faults leave the demand as it was. */
  lemma FaultShowsDemand(p: Pump, bar: real, sensorOk: bool, at: nat)
    requires Coherent(p) && p.state != FAULT
    ensures var q := Tick(p, bar, sensorOk, at);
      && (q.fault == SENSOR <==> !sensorOk)
      && (q.fault == SENSOR ==> q.m.demand == SENSOR_LOST)
      && (q.fault == CRITICAL_LOW ==> q.m.demand == PIPE_BREAK)
      && (q.fault in {MAX_RUNTIME, DRY_RUN} ==> q.m.demand == p.m.demand)
  {
    hide FilteredBy, EventTimed, Recent, Protected, Transition;
    FiltersOnlyMeasure(p, bar, at);
    FiltersKeepEvent(p, bar, at);
    var e := EventTimed(FilteredBy(p, bar, at), at);
    ProtectedDemand(e, sensorOk, at);
    TransitionDemand(Protected(e, sensorOk, at), sensorOk, at);
  }

  lemma ProtectedDemand(p: Pump, sensorOk: bool, at: nat)
    requires Coherent(p) && p.state != FAULT
    ensures var q := Protected(p, sensorOk, at);
      && (q.fault == NO_FAULT ==> q == p && sensorOk) && (q.fault != NO_FAULT ==> q.state == FAULT)
      && q.startsIdx < |q.starts| == START_HISTORY
      && (q.fault == SENSOR <==> !sensorOk) && q.fault != TOO_MANY_STARTS
      && (q.fault == SENSOR ==> q.m.demand == SENSOR_LOST) && (q.fault == CRITICAL_LOW ==> q.m.demand == PIPE_BREAK)
      && (q.fault in {MAX_RUNTIME, DRY_RUN} ==> q.m.demand == p.m.demand)
  {
    hide Dry, Collapsed;
  }

  lemma TransitionDemand(p: Pump, sensorOk: bool, at: nat)
    requires p.startsIdx < |p.starts| == START_HISTORY && (p.state == FAULT || Coherent(p))
    ensures var q := Transition(p, sensorOk, at);
      && (p.state == FAULT ==> q.fault == p.fault && q.m.demand == p.m.demand)
      && (p.state != FAULT ==> q.fault in {NO_FAULT, CRITICAL_LOW, TOO_MANY_STARTS})
      && (p.state != FAULT && q.fault == CRITICAL_LOW ==> q.m.demand == PIPE_BREAK)
  {
    hide Recent, RestOver, RunDemand;
  }
}
