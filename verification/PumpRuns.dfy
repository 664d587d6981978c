/** Whole runs of the pump manager: every call sequence keeps the wear limits, and the
    16-entry start history decides as the full history would. */
module PumpRuns {
  import opened Bytes
  import opened PumpSpec
  import opened PumpSafety

  /** The relay changed: when, to what, by what kind of call, under which configuration. */
  datatype Switch = Switch(at: nat, on: bool, tick: bool, faulted: bool, cfg: Config)

  datatype World = World(p: Pump, log: seq<Switch>, now: nat)

  function Start(cfg: Config): World {
    World(Initial(cfg), [], 0)
  }

  /** One call, observed from outside: a relay edge is logged. */
  function Next(w: World, c: Call): World
    requires w.p.startsIdx < |w.p.starts| == START_HISTORY
  {
    var q := Applied(w.p, c);
    World(q, if q.relayOn == w.p.relayOn then w.log
             else w.log + [Switch(c.at, q.relayOn, c.Update?, q.fault != NO_FAULT, w.p.cfg)], c.at)
  }

  /** Clock values are positive and never run backwards. */
  predicate InOrder(calls: seq<Call>, from: nat) {
    && (forall i | 0 <= i < |calls| :: calls[i].at > 0 && calls[i].at >= from)
    && (forall i, j | 0 <= i < j < |calls| :: calls[i].at <= calls[j].at)
  }

  function OnTimes(log: seq<Switch>): seq<nat> {
    if log == [] then []
    else
      var n := |log| - 1;
      OnTimes(log[..n]) + if log[n].on then [log[n].at] else []
  }

  function LastOn(log: seq<Switch>): nat {
    if log == [] then 0 else if log[|log| - 1].on then log[|log| - 1].at else LastOn(log[..|log| - 1])
  }

  function LastOff(log: seq<Switch>): nat {
    if log == [] then 0 else if !log[|log| - 1].on then log[|log| - 1].at else LastOff(log[..|log| - 1])
  }

  /** The wear limits on one switch, given all earlier ones: a start waits for the rest
      time after the last stop (0 means there was none) and finds fewer starts in the
      trailing hour than allowed; a stop by a tick without a fault waits for the minimum
      run time. */
  predicate WithinLimits(before: seq<Switch>, e: Switch) {
    if e.on then
      && (LastOff(before) == 0 || e.at - LastOff(before) >= e.cfg.minOff)
      && (e.cfg.maxStarts <= START_HISTORY ==> Recent(OnTimes(before), e.at) < e.cfg.maxStarts)
    else
      e.tick && !e.faulted ==> e.at - LastOn(before) >= e.cfg.minOn
  }

  predicate WearOk(log: seq<Switch>) {
    log == [] || (WearOk(log[..|log| - 1]) && WithinLimits(log[..|log| - 1], log[|log| - 1]))
  }

  predicate Alternates(log: seq<Switch>, now: nat) {
    forall i | 0 <= i < |log| ::
      && 0 < log[i].at <= now
      && (log[i].on <==> i % 2 == 0)
      && forall j | 0 <= j < i :: log[j].at <= log[i].at
  }

  // ---------------------------------------------------------------- the 16-slot ring

  /** The ring read from the oldest entry on. */
  function Rotated(ring: seq<nat>, idx: nat): seq<nat>
    requires idx <= |ring|
  {
    ring[idx..] + ring[..idx]
  }

  /** The last 16 starts, with 0 for entries not used yet. */
  function Last16(times: seq<nat>): seq<nat> {
    if |times| < START_HISTORY then seq(START_HISTORY - |times|, _ => 0) + times
    else times[|times| - START_HISTORY..]
  }

  lemma RingAppend(ring: seq<nat>, idx: nat, times: seq<nat>, t: nat)
    requires |ring| == START_HISTORY && idx < START_HISTORY && Rotated(ring, idx) == Last16(times)
    ensures Rotated(ring[idx := t], (idx + 1) % START_HISTORY) == Last16(times + [t])
  {
    var ring' := ring[idx := t];
    var idx' := (idx + 1) % START_HISTORY;
    assert Rotated(ring', idx') == Rotated(ring, idx)[1..] + [t];
    assert Last16(times + [t]) == Last16(times)[1..] + [t];
  }

  lemma {:induction false} RecentAdds(a: seq<nat>, b: seq<nat>, now: nat)
    ensures Recent(a + b, now) == Recent(a, now) + Recent(b, now)
  {
    if b == [] {
      assert a + b == a;
    } else {
      RecentAdds(a, b[..|b| - 1], now);
      assert (a + b)[..|a + b| - 1] == a + b[..|b| - 1];
    }
  }

  lemma {:induction false} RecentBounds(a: seq<nat>, now: nat)
    ensures Recent(a, now) <= |a|
    ensures (forall i | 0 <= i < |a| :: InHour(a[i], now)) <==> Recent(a, now) == |a|
    ensures (forall i | 0 <= i < |a| :: !InHour(a[i], now)) ==> Recent(a, now) == 0
  {
    if a != [] {
      RecentBounds(a[..|a| - 1], now);
    }
  }

  predicate Ascending(times: seq<nat>, now: nat) {
    forall i | 0 <= i < |times| :: 0 < times[i] <= now && forall j | 0 <= j < i :: times[j] <= times[i]
  }

  /** The ring counts every start of the trailing hour, up to its 16 entries. */
  lemma RingCount(ring: seq<nat>, idx: nat, times: seq<nat>, now: nat)
    requires |ring| == START_HISTORY && idx < START_HISTORY && Rotated(ring, idx) == Last16(times)
    requires Ascending(times, now)
    ensures Recent(ring, now) == if Recent(times, now) < START_HISTORY then Recent(times, now) else START_HISTORY
  {
    RecentAdds(ring[idx..], ring[..idx], now);
    RecentAdds(ring[..idx], ring[idx..], now);
    assert ring[..idx] + ring[idx..] == ring;
    hide Recent;
    if |times| < START_HISTORY {
      RecentPadded(START_HISTORY - |times|, times, now);
      RecentBounds(times, now);
    } else {
      RecentSuffix(times, now);
    }
  }

  lemma RecentPadded(n: nat, times: seq<nat>, now: nat)
    ensures Recent(seq(n, _ => 0) + times, now) == Recent(times, now)
  {
    var zeros := seq(n, _ => 0);
    RecentAdds(zeros, times, now);
    RecentBounds(zeros, now);
  }

  lemma RecentSuffix(times: seq<nat>, now: nat)
    requires |times| >= START_HISTORY && Ascending(times, now)
    ensures var n := Recent(times, now);
      Recent(times[|times| - START_HISTORY..], now) == if n < START_HISTORY then n else START_HISTORY
  {
    var k := |times| - START_HISTORY;
    var early, last := times[..k], times[k..];
    assert times == early + last;
    RecentAdds(early, last, now);
    RecentBounds(early, now);
    RecentBounds(last, now);
    hide Recent, InHour;
    forall i | 0 <= i < |times|
      ensures i < k && !InHour(times[k], now) ==> !InHour(early[i], now)
      ensures k <= i && InHour(times[k], now) ==> InHour(last[i - k], now)
    {
      if i < k {
        LaterInHour(times[i], times[k], now);
      } else {
        LaterInHour(times[k], times[i], now);
      }
    }
  }

  lemma LaterInHour(t: nat, t': nat, now: nat)
    requires 0 < t <= t' <= now
    ensures InHour(t, now) ==> InHour(t', now)
  {
  }

  /** The guard decides as it would on the full history, for every history, exactly for
      limits up to the ring's size: one start more and there is a history the ring
      does not see. */
  lemma GuardExact(max: nat)
    ensures max <= START_HISTORY <==>
      forall ring: seq<nat>, idx: nat, times: seq<nat>, now: nat ::
        |ring| == START_HISTORY && idx < START_HISTORY && Rotated(ring, idx) == Last16(times) && Ascending(times, now)
        ==> (Recent(ring, now) >= max <==> Recent(times, now) >= max)
  {
    if max <= START_HISTORY {
      forall ring: seq<nat>, idx: nat, times: seq<nat>, now: nat |
        |ring| == START_HISTORY && idx < START_HISTORY && Rotated(ring, idx) == Last16(times) && Ascending(times, now)
        ensures Recent(ring, now) >= max <==> Recent(times, now) >= max
      {
        RingCount(ring, idx, times, now);
      }
    } else {
      var times := seq(max, _ => 1);
      var ring := seq(START_HISTORY, _ => 1);
      assert Rotated(ring, 0) == ring == Last16(times);
      RecentBounds(times, 1);
      RecentBounds(ring, 1);
      assert Ascending(times, 1);
      assert Recent(ring, 1) < max <= Recent(times, 1);
    }
  }

  // ---------------------------------------------------------------- the run invariant

  predicate Inv(w: World) {
    && Coherent(w.p)
    && Alternates(w.log, w.now)
    && (w.p.relayOn <==> |w.log| % 2 == 1)
    && w.p.pumpStart == LastOn(w.log) && w.p.pumpStop == LastOff(w.log)
    && Rotated(w.p.starts, w.p.startsIdx) == Last16(OnTimes(w.log))
    && WearOk(w.log)
  }

  lemma {:induction false} LogTimes(log: seq<Switch>, now: nat)
    requires Alternates(log, now)
    ensures LastOn(log) <= now && LastOff(log) <= now
    ensures Ascending(OnTimes(log), now)
  {
    if log != [] {
      var n := |log| - 1;
      LogTimes(log[..n], log[n].at);
    }
  }

  lemma NextKeeps(w: World, c: Call)
    requires Inv(w) && c.at > 0 && c.at >= w.now
    ensures Inv(Next(w, c))
  {
    hide Applied, WearOk, LastOn, LastOff, OnTimes, Alternates, Rotated, Last16, Recent, WithinLimits;
    LogTimes(w.log, w.now);
    CallEffect(w.p, c);
    LaterNow(w.log, w.now, c.at);
    var q := Applied(w.p, c);
    if q.relayOn != w.p.relayOn {
      var e := Switch(c.at, q.relayOn, c.Update?, q.fault != NO_FAULT, w.p.cfg);
      SwitchAllowed(w, q, e);
      LogGrows(w.log, w.now, e);
      if e.on {
        RingAppend(w.p.starts, w.p.startsIdx, OnTimes(w.log), c.at);
      }
    }
  }

  lemma LaterNow(log: seq<Switch>, now: nat, later: nat)
    requires Alternates(log, now) && now <= later
    ensures Alternates(log, later)
  {
  }

  lemma LogGrows(log: seq<Switch>, now: nat, e: Switch)
    requires Alternates(log, now) && WearOk(log) && WithinLimits(log, e)
    requires 0 < e.at && now <= e.at && (e.on <==> |log| % 2 == 0)
    ensures Alternates(log + [e], e.at) && WearOk(log + [e])
    ensures LastOn(log + [e]) == if e.on then e.at else LastOn(log)
    ensures LastOff(log + [e]) == if e.on then LastOff(log) else e.at
    ensures OnTimes(log + [e]) == if e.on then OnTimes(log) + [e.at] else OnTimes(log)
  {
    hide WithinLimits;
    assert (log + [e])[..|log|] == log;
  }

  lemma SwitchAllowed(w: World, q: Pump, e: Switch)
    requires Inv(w) && e.at > 0 && e.at >= w.now && e.cfg == w.p.cfg
    requires if e.on then Started(w.p, q, e.at)
             else Stopped(w.p, q, e.at, e.tick) && (e.faulted <==> q.fault != NO_FAULT)
    ensures WithinLimits(w.log, e)
  {
    hide WearOk, LastOn, LastOff, OnTimes, Alternates, Rotated, Last16, Recent;
    LogTimes(w.log, w.now);
    if e.on {
      LaterAscending(OnTimes(w.log), w.now, e.at);
      RingCount(w.p.starts, w.p.startsIdx, OnTimes(w.log), e.at);
    }
  }

  lemma LaterAscending(times: seq<nat>, now: nat, later: nat)
    requires Ascending(times, now) && now <= later
    ensures Ascending(times, later)
  {
  }

  // ---------------------------------------------------------------- over whole runs

  function Run(cfg: Config, calls: seq<Call>): (w: World)
    requires InOrder(calls, 0)
    ensures Inv(w) && w.now == if calls == [] then 0 else calls[|calls| - 1].at
  {
    if calls == [] then
      StartIsOk(cfg);
      Start(cfg)
    else
      var n := |calls| - 1;
      NextKeeps(Run(cfg, calls[..n]), calls[n]);
      Next(Run(cfg, calls[..n]), calls[n])
  }

  lemma StartIsOk(cfg: Config)
    ensures Inv(Start(cfg))
  {
    assert Rotated(seq(START_HISTORY, _ => 0), 0) == seq(START_HISTORY, _ => 0) == Last16([]);
  }

  lemma {:induction false} WearAt(log: seq<Switch>, i: nat)
    requires WearOk(log) && i < |log|
    ensures WithinLimits(log[..i], log[i])
    decreases |log|
  {
    var n := |log| - 1;
    if i < n {
      WearAt(log[..n], i);
      assert log[..n][..i] == log[..i];
    }
  }

  /** Every start and every stop of every run is within the wear limits. */
  lemma EverySwitchWithinLimits(cfg: Config, calls: seq<Call>, i: nat)
    requires InOrder(calls, 0) && i < |Run(cfg, calls).log|
    ensures var log := Run(cfg, calls).log; WithinLimits(log[..i], log[i])
  {
    WearAt(Run(cfg, calls).log, i);
  }

  lemma RunStep(cfg: Config, calls: seq<Call>, i: nat)
    requires InOrder(calls, 0) && i < |calls|
    ensures InOrder(calls[..i], 0) && InOrder(calls[..i + 1], 0)
    ensures Run(cfg, calls[..i + 1]) == Next(Run(cfg, calls[..i]), calls[i])
    ensures Run(cfg, calls[..i]).now <= calls[i].at
  {
    assert calls[..i + 1][..i] == calls[..i];
  }

  /** The safety envelope over every run: after each call the relay is on exactly in RUNNING
      and a fault is latched exactly in FAULT; a fault is left by an acknowledge with a
      healthy sensor alone; and a tick that leaves a running pump on found it within its
      limits. */
  lemma EnvelopeKept(cfg: Config, calls: seq<Call>, i: nat)
    requires InOrder(calls, 0) && i < |calls|
    ensures InOrder(calls[..i], 0) && InOrder(calls[..i + 1], 0)
    ensures var p, q, c := Run(cfg, calls[..i]).p, Run(cfg, calls[..i + 1]).p, calls[i];
      && (q.relayOn <==> q.state == RUNNING) && (q.fault != NO_FAULT <==> q.state == FAULT)
      && (p.state == FAULT ==> (q.state != FAULT <==> c.Ack? && c.sensorOk))
      && (c.Update? && p.relayOn && q.relayOn ==> WithinEnvelope(p, q, c.sensorOk, c.at))
  {
    hide Run, Applied, WithinEnvelope, Rotated, Last16, OnTimes, WearOk, LastOn, LastOff;
    RunStep(cfg, calls, i);
    var w, c := Run(cfg, calls[..i]), calls[i];
    LogTimes(w.log, w.now);
    if w.p.state == FAULT {
      FaultIsLatched(w.p, c);
    }
    if c.Update? && w.p.relayOn {
      RunningIsSafe(w.p, c.bar, c.sensorOk, c.at);
      TickApplied(w.p, c);
    }
  }

  lemma TickApplied(p: Pump, c: Call)
    requires p.startsIdx < |p.starts| == START_HISTORY && c.Update?
    ensures Applied(p, c) == Tick(p, c.bar, c.sensorOk, c.at)
  {
    hide Tick;
  }

  /** Number of times in a window. */
  function Within(times: seq<nat>, lo: nat, hi: nat): nat {
    if times == [] then 0
    else Within(times[..|times| - 1], lo, hi) + if lo <= times[|times| - 1] <= hi then 1 else 0
  }

  lemma {:induction false} WindowInHour(times: seq<nat>, lo: nat, t: nat)
    requires Ascending(times, t) && t <= lo + HOUR_MS
    ensures Within(times, lo, lo + HOUR_MS) <= Recent(times, t)
  {
    if times != [] {
      WindowInHour(times[..|times| - 1], lo, t);
    }
  }

  /** With a constant limit no window of one hour, wherever it begins, holds more starts
      than allowed. */
  lemma {:induction false} HourlyBound(log: seq<Switch>, now: nat, max: nat, lo: nat)
    requires Alternates(log, now) && WearOk(log)
    requires forall i | 0 <= i < |log| :: log[i].cfg.maxStarts == max <= START_HISTORY
    ensures Within(OnTimes(log), lo, lo + HOUR_MS) <= max
  {
    hide Recent, Within, Ascending;
    if log == [] {
      WithinStep([], 0, lo, lo + HOUR_MS);
    } else {
      var n := |log| - 1;
      var e := log[n];
      var times := OnTimes(log[..n]);
      HourlyBound(log[..n], e.at, max, lo);
      LogTimes(log[..n], e.at);
      WithinStep(times, e.at, lo, lo + HOUR_MS);
      assert OnTimes(log) == if e.on then times + [e.at] else times;
      if e.on && lo <= e.at <= lo + HOUR_MS {
        WindowInHour(times, lo, e.at);
      }
    }
  }

  lemma WithinStep(times: seq<nat>, t: nat, lo: nat, hi: nat)
    ensures Within(times + [t], lo, hi) == Within(times, lo, hi) + if lo <= t <= hi then 1 else 0
    ensures Within([], lo, hi) == 0
  {
    assert (times + [t])[..|times|] == times;
  }

  /** The wear limits as they read on a run: whatever is called when, a start waits for
      the rest time, a regular stop for the minimum run time, and an hour never sees more
      starts than the (constant) limit. */
  lemma RunWear(cfg: Config, calls: seq<Call>, lo: nat)
    requires InOrder(calls, 0)
    ensures var log := Run(cfg, calls).log;
      && (forall i | 0 < i < |log| && log[i].on :: log[i].at - log[i - 1].at >= log[i].cfg.minOff)
      && (forall i | 0 < i < |log| && !log[i].on && log[i].tick && !log[i].faulted ::
            log[i].at - log[i - 1].at >= log[i].cfg.minOn)
      && ((forall i | 0 <= i < |log| :: log[i].cfg.maxStarts == cfg.maxStarts <= START_HISTORY)
          ==> Within(OnTimes(log), lo, lo + HOUR_MS) <= cfg.maxStarts)
  {
    var w := Run(cfg, calls);
    hide Run, Coherent, Rotated, Last16;
    LimitsAdjacent(w.log, w.now);
    if forall i | 0 <= i < |w.log| :: w.log[i].cfg.maxStarts == cfg.maxStarts <= START_HISTORY {
      HourlyBound(w.log, w.now, cfg.maxStarts, lo);
    }
  }

  lemma LimitsAdjacent(log: seq<Switch>, now: nat)
    requires Alternates(log, now) && WearOk(log)
    ensures forall i | 0 < i < |log| && log[i].on :: log[i].at - log[i - 1].at >= log[i].cfg.minOff
    ensures forall i | 0 < i < |log| && !log[i].on && log[i].tick && !log[i].faulted ::
      log[i].at - log[i - 1].at >= log[i].cfg.minOn
  {
    hide WearOk, OnTimes, Recent;
    forall i | 0 < i < |log|
      ensures log[i].on ==> log[i].at - log[i - 1].at >= log[i].cfg.minOff
      ensures !log[i].on && log[i].tick && !log[i].faulted ==> log[i].at - log[i - 1].at >= log[i].cfg.minOn
    {
      WearAt(log, i);
      assert log[..i][i - 1] == log[i - 1];
    }
  }

  // ---------------------------------------------------------------- a start in MANUAL mode

  const PLANT := Config(2.0, 4.0, 0.5, 1.0, 2.0, 2.0, 3.0, 1.0, 0.1, 0.1, 1000, 5000, 5000, 600_000, 10_000, 5000,
                        60_000, 60_000, 60_000, 6)

  const TO_STARTING: seq<Call> := [
    Update(3.0, true, 1000), SetMode(AUTO, 1100), Update(1.0, true, 2000), Update(1.0, true, 3000),
    SetMode(MANUAL, 3100)]

  const THEN_TICK: seq<Call> := TO_STARTING + [Update(1.0, true, 4000)]

  /** The pump off, no start on record, no fault. */
  predicate Resting(p: Pump, state: PumpState, mode: Mode) {
    && p.cfg == PLANT && p.state == state && p.mode == mode && !p.relayOn && p.pumpStart == 0 && p.pumpStop == 0
    && p.starts == seq(START_HISTORY, _ => 0) && p.startsIdx == 0 && p.fault == NO_FAULT
  }

  /** Every tick filters with factor 1, so it sees the measured pressure. */
  lemma FilteredIsBar(p: Pump, bar: real, at: nat)
    requires p.cfg == PLANT
    ensures EventTimed(FilteredBy(p, bar, at), at).m.filtered == bar
    ensures EventTimed(FilteredBy(p, bar, at), at).stateEnter == p.stateEnter
  {
  }

  /** The ticks on the way: to IDLE, to PRESSURE_DROP at low pressure in AUTO mode, and to
      STARTING a second later. */
  lemma RestingTicks(p: Pump, mode: Mode, bar: real, at: nat)
    requires bar >= 0.5
    ensures Resting(p, INIT, mode) ==> Resting(Tick(p, bar, true, at), IDLE, mode)
    ensures Resting(p, IDLE, AUTO) && bar < 2.0 ==>
      Resting(Tick(p, bar, true, at), PRESSURE_DROP, AUTO) && Tick(p, bar, true, at).stateEnter == at
    ensures Resting(p, PRESSURE_DROP, AUTO) && bar < 2.0 && at >= p.stateEnter + 1000 ==>
      Resting(Tick(p, bar, true, at), STARTING, AUTO)
  {
    hide FilteredBy, EventTimed, Recent;
    if p.cfg == PLANT {
      FilteredIsBar(p, bar, at);
      FiltersOnlyMeasure(p, bar, at);
    }
  }

  lemma StartAllowed(p: Pump, at: nat)
    requires Resting(p, STARTING, MANUAL)
    ensures Recent(p.starts, at) < p.cfg.maxStarts && RestOver(p, at) && Coherent(p)
  {
    assert forall i | 0 <= i < |p.starts| :: !InHour(p.starts[i], at);
    RecentBounds(p.starts, at);
  }

  /** State and mode after each of the five calls. */
  const STAGES := [(INIT, MANUAL), (IDLE, MANUAL), (IDLE, AUTO), (PRESSURE_DROP, AUTO), (STARTING, AUTO),
                   (STARTING, MANUAL)]

  predicate AtStage(p: Pump, i: nat)
    requires i <= 5
  {
    Resting(p, STAGES[i].0, STAGES[i].1) && (i == 3 ==> p.stateEnter == 2000)
  }

  lemma NextStage(p: Pump, i: nat)
    requires i < 5 && AtStage(p, i)
    ensures AtStage(Applied(p, TO_STARTING[i]), i + 1)
  {
    hide Tick;
    if i == 0 {
      RestingTicks(p, MANUAL, 3.0, 1000);
    } else if i == 2 {
      RestingTicks(p, AUTO, 1.0, 2000);
    } else if i == 3 {
      RestingTicks(p, AUTO, 1.0, 3000);
    }
  }

  lemma {:induction false} Stages(i: nat)
    requires i <= 5
    ensures InOrder(TO_STARTING, 0) && InOrder(TO_STARTING[..i], 0)
    ensures AtStage(Run(PLANT, TO_STARTING[..i]).p, i)
  {
    if i == 0 {
      RunNothing(PLANT);
    } else {
      hide Run, Applied, AtStage;
      Stages(i - 1);
      RunStep(PLANT, TO_STARTING, i - 1);
      NextStage(Run(PLANT, TO_STARTING[..i - 1]).p, i - 1);
    }
  }

  /** Five calls from the initial state lead to STARTING in MANUAL mode; the tick that
      follows starts the pump. */
  lemma StartsInManual()
    ensures InOrder(TO_STARTING, 0) && InOrder(THEN_TICK, 0)
    ensures var p := Run(PLANT, TO_STARTING).p; p.state == STARTING && p.mode == MANUAL && !p.relayOn
    ensures var q := Run(PLANT, THEN_TICK).p; q.mode == MANUAL && q.relayOn
  {
    hide Run, Tick, Recent, RestOver, Coherent, Last16, Rotated;
    Stages(5);
    var calls := THEN_TICK;
    assert TO_STARTING[..5] == TO_STARTING == calls[..5] && calls[..6] == calls;
    var p := Run(PLANT, TO_STARTING).p;
    RunStep(PLANT, calls, 5);
    StartAllowed(p, 4000);
    TickStarts(p, 1.0, true, 4000);
    TickKeepsMode(p, 1.0, true, 4000);
  }

  lemma RunNothing(cfg: Config)
    ensures InOrder([], 0) && Run(cfg, []) == Start(cfg)
  {
  }

  lemma TickKeepsMode(p: Pump, bar: real, sensorOk: bool, at: nat)
    requires p.startsIdx < |p.starts| == START_HISTORY
    ensures Tick(p, bar, sensorOk, at).mode == p.mode
  {
    hide FilteredBy, EventTimed, Recent, Classified, RunDemand, Tripped;
    FiltersOnlyMeasure(p, bar, at);
  }

  // ---------------------------------------------------------------- a timed run that faults

  const FULL_TIME: seq<Call> := [
    Update(3.0, true, 1000), On(900, 2000), Update(3.5, true, 901_999), Update(3.5, true, 902_000)]

  /** Started for 900 s with a deadline at 902,000 ms. */
  predicate FullTimeRun(p: Pump) {
    && p.cfg == PLANT && p.state == RUNNING && p.mode == MANUAL && p.relayOn && p.fault == NO_FAULT
    && p.pumpStart == 2000 && p.manualUntil == 902_000 && p.startBar == 3.0 && p.m.eventStartBar == 3.0
  }

  lemma FullTimeStarts(p: Pump)
    requires Resting(p, IDLE, MANUAL) && p.m.filtered == 3.0 && p.eventStart == 0
    ensures FullTimeRun(Applied(p, On(900, 2000)))
  {
    assert forall i | 0 <= i < |p.starts| :: !InHour(p.starts[i], 2000);
    RecentBounds(p.starts, 2000);
    hide Recent;
  }

  lemma FullTimeTick(p: Pump, at: nat)
    requires FullTimeRun(p) && p.startsIdx < |p.starts| == START_HISTORY
    ensures at == 901_999 ==> FullTimeRun(Tick(p, 3.5, true, at))
    ensures at == 902_000 ==> var q := Tick(p, 3.5, true, at); q.fault == MAX_RUNTIME && !q.relayOn
  {
    hide FilteredBy, EventTimed, Recent;
    FilteredIsBar(p, 3.5, at);
    FiltersOnlyMeasure(p, 3.5, at);
  }

  lemma FirstTick(p: Pump)
    requires p == Initial(PLANT)
    ensures var q := Tick(p, 3.0, true, 1000); Resting(q, IDLE, MANUAL) && q.m.filtered == 3.0 && q.eventStart == 0
  {
    hide Recent;
  }

  predicate FullTimeStage(p: Pump, i: nat) {
    match i
    case 0 => p == Initial(PLANT)
    case 1 => Resting(p, IDLE, MANUAL) && p.m.filtered == 3.0 && p.eventStart == 0
    case 2 | 3 => FullTimeRun(p)
    case _ => p.fault == MAX_RUNTIME && !p.relayOn
  }

  lemma NextFullTime(p: Pump, i: nat)
    requires i < 4 && FullTimeStage(p, i) && p.startsIdx < |p.starts| == START_HISTORY
    ensures FullTimeStage(Applied(p, FULL_TIME[i]), i + 1)
  {
    hide Tick, RequestOn, FullTimeRun;
    match i
    case 0 => FirstTick(p);
    case 1 => FullTimeStarts(p);
    case 2 => FullTimeTick(p, 901_999);
    case 3 => FullTimeTick(p, 902_000);
  }

  lemma {:induction false} FullTimeStages(i: nat)
    requires i <= 4
    ensures InOrder(FULL_TIME, 0) && InOrder(FULL_TIME[..i], 0)
    ensures FullTimeStage(Run(PLANT, FULL_TIME[..i]).p, i)
  {
    if i == 0 {
      RunNothing(PLANT);
    } else {
      hide Run, Applied, FullTimeStage;
      FullTimeStages(i - 1);
      RunStep(PLANT, FULL_TIME, i - 1);
      NextFullTime(Run(PLANT, FULL_TIME[..i - 1]).p, i - 1);
    }
  }

  /** A pump started for 900 s and ticked one millisecond before its deadline and at it: the
      run-time fault, not the deadline, ends the run. */
  lemma FaultAtDeadline()
    ensures InOrder(FULL_TIME, 0) && InOrder(FULL_TIME[..3], 0)
    ensures FullTimeRun(Run(PLANT, FULL_TIME[..3]).p)
    ensures var q := Run(PLANT, FULL_TIME).p; q.fault == MAX_RUNTIME && !q.relayOn
  {
    hide Run, Coherent, Last16, Rotated, FullTimeRun;
    FullTimeStages(3);
    FullTimeStages(4);
    assert FULL_TIME[..4] == FULL_TIME;
  }
}
