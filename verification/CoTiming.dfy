/** Timing of TPDOs over whole runs: the inhibit time, the event timer, the SYNC count. The
    node sees a 32-bit millisecond clock; the statements are about the time it counts. */
module CoTiming {
  import opened Bytes
  import opened CoTypes
  import opened CoDictionary
  import opened CoPdo
  import opened CoSdo
  import opened CoNet
  import opened CoInvariant
  import opened CoEffects

  // ---------------------------------------------------------------- steps and the clock

  /** NMT start or a reset for this node: its TPDOs count as never sent. */
  predicate Restarts(n: nat, f: Frame) {
    f.id == 0 && f.dlc >= 2 && (f.data[1] == 0 || f.data[1] == n) && f.data[0] in {0x01, 0x81, 0x82}
  }

  /** Steps that lift the inhibit time of TPDO `i`: a restart, a request by the owner, a new
      configuration, a write to its parameters. */
  predicate Lifts<A>(n: Node<A>, m: Node<A>, s: Step<A>, i: nat) {
    || (s.Rx? && Restarts(n.cfg.nodeId, s.f))
    || (s.RequestTpdo? && s.i == i)
    || (s.ConfigureTpdo? && s.i == i)
    || ParamWrites(m.trace, i) != ParamWrites(n.trace, i)
  }

  /** A step at real time `t`, in milliseconds: the node is told the low 32 bits. */
  predicate Dated<A>(s: Step<A>, t: nat) {
    (s.Rx? || s.Tick? ==> s.now == Wrap32(t)) && (s.EmergencyCall? ==> |s.mfr| == 5)
  }

  /** A node and what an observer of TPDO `i` with a real clock remembers: the time, when it
      was last sent, whether the inhibit time has been in force since, the last tick. */
  datatype World<A> = World(n: Node<A>, t: nat, sent: bool, last: nat, bound: bool, tick: nat)

  ghost function After<A(!new)>(w: World<A>, env: Env<A>, i: nat, t: nat, s: Step<A>): World<A>
    requires NodeOk(w.n) && EnvOk(env) && i < TPDO_COUNT && Dated(s, t) && t >= w.t
  {
    var m := Next(w.n, env, s);
    var goes := Sends(m.trace, i) > Sends(w.n.trace, i);
    World(m, t, w.sent || goes, if goes then t else w.last,
          goes || (w.bound && !Lifts(w.n, m, s, i)), if s.Tick? then t else w.tick)
  }

  /** The node's 32-bit record of the last transmission agrees with the observer's. */
  predicate Agrees<A>(w: World<A>, i: nat)
    requires i < TPDO_COUNT
  {
    && NodeOk(w.n) && w.last <= w.t && w.tick <= w.t
    && (w.n.tpdo[i].haveLast ==> w.sent && w.n.tpdo[i].lastTx == Wrap32(w.last))
    && (w.bound ==> w.sent && w.n.tpdo[i].haveLast)
  }

  // ---------------------------------------------------------------- every step

  /** TPDO `i` is sent, or its record of the last transmission is kept, or at most dropped. */
  predicate Summary<A>(n: Node<A>, m: Node<A>, s: Step<A>, i: nat)
    requires Shape(n) && Shape(m) && i < TPDO_COUNT
  {
    var p, q := n.tpdo[i], m.tpdo[i];
    || ((s.Rx? || s.Tick?) && Sends(m.trace, i) == Sends(n.trace, i) + 1 && q.haveLast && q.lastTx == s.now)
    || (Sends(m.trace, i) == Sends(n.trace, i) && Kept(p, q) && (!Lifts(n, m, s, i) ==> q.haveLast == p.haveLast))
  }

  lemma OutcomeSummary<A>(n: Node<A>, m: Node<A>, env: Env<A>, s: Step<A>, i: nat, q: TPdo, wants: bool)
    requires Shape(n) && Shape(m) && (s.Rx? || s.Tick?) && i < TPDO_COUNT && q.mapCount <= |q.entries|
    requires Shape(n.(now := s.now)) && Outcome(n.(now := s.now), m, env, i, q, wants)
    requires q.lastTx == n.tpdo[i].lastTx && q.haveLast == n.tpdo[i].haveLast
    ensures Summary(n, m, s, i)
  {
    hide Current, AlwaysAccepts, Sends, Lifts, Shape;
  }

  lemma LeftAloneSummary<A>(n: Node<A>, m: Node<A>, s: Step<A>, i: nat)
    requires Shape(n) && Shape(m) && i < TPDO_COUNT && s.Rx?
    requires Shape(n.(now := s.now)) && LeftAlone(n.(now := s.now), m, i)
    ensures Summary(n, m, s, i)
  {
    hide Sends, Shape, ParamWrites;
  }

  lemma NmtSummary<A>(n: Node<A>, f: Frame, now: u32, i: nat)
    requires Shape(n) && i < TPDO_COUNT && f.id == 0
    ensures var m := NmtReceived(n.(now := now), f); Shape(m) && Summary(n, m, Rx(f, now), i)
  {
    hide Sends, ParamWrites;
  }

  lemma RxSummary<A(!new)>(n: Node<A>, env: Env<A>, f: Frame, now: u32, i: nat)
    requires NodeOk(n) && EnvOk(env) && i < TPDO_COUNT
    ensures var m := Received(n, env, f, now); Shape(n) && Shape(m) && Summary(n, m, Rx(f, now), i)
  {
    hide NodeOk, SyncReceived, SdoReceived, PdoReceived, NmtReceived, Summary, Outcome, LeftAlone, MappingsOk,
        SyncWants, Counted, Shape, SdoOk, EnvOk, FindTpdo;
    ReceivedOk(n, env, f, now);
    NodeParts(Received(n, env, f, now));
    NodeParts(n);
    AtTime(n, now);
    var a := n.(now := now);
    NodeParts(a);
    if f.id == 0 {
      NmtSummary(n, f, now, i);
    } else if f.id == 0x80 && !f.rtr {
      if a.nmt == OPERATIONAL {
        SyncEffect(a, env, i);
        CountedCount(n.tpdo[i]);
        OutcomeSummary(n, Received(n, env, f, now), env, Rx(f, now), i, Counted(n.tpdo[i]), SyncWants(a, env,
            n.tpdo[i]));
      } else {
        SyncIdle(a, env);
        SameEffect(a, i);
        LeftAloneSummary(n, a, Rx(f, now), i);
      }
    } else if a.nmt == STOPPED {
      SameEffect(a, i);
      LeftAloneSummary(n, a, Rx(f, now), i);
    } else if f.id == 0x600 + a.cfg.nodeId {
      SdoEffect(a, env, f, i);
      LeftAloneSummary(n, Received(n, env, f, now), Rx(f, now), i);
    } else {
      PdoEffect(a, env, f, i);
      OutcomeSummary(n, Received(n, env, f, now), env, Rx(f, now), i, n.tpdo[i],
                     a.nmt == OPERATIONAL && f.rtr && FindTpdo(a.tpdo, f.id, 0) == i);
    }
  }

  lemma SyncIdle<A>(n: Node<A>, env: Env<A>)
    requires MappingsOk(n) && n.nmt != OPERATIONAL
    ensures SyncReceived(n, env) == n
  {
  }

  /** Parts of the invariant. */
  lemma NodeParts<A>(n: Node<A>)
    requires NodeOk(n)
    ensures Shape(n) && MappingsOk(n) && SdoOk(n.sdo) && n.nmt != INITIALISING
    ensures forall i | 0 <= i < TPDO_COUNT :: n.tpdo[i].mapCount <= |n.tpdo[i].entries|
  {
  }

  lemma ConfigureSummary<A(!new)>(n: Node<A>, env: Env<A>, s: Step<A>, i: nat)
    requires NodeOk(n) && EnvOk(env) && i < TPDO_COUNT && (s.ConfigureTpdo? || s.ConfigureRpdo?)
    ensures var m := Next(n, env, s); Shape(n) && Shape(m) && Summary(n, m, s, i)
  {
    hide SdoOk, TraceOk, MappingOk, MapValidate, Sends, ParamWrites;
  }

  lemma CallSummary<A(!new)>(n: Node<A>, env: Env<A>, s: Step<A>, i: nat)
    requires NodeOk(n) && EnvOk(env) && i < TPDO_COUNT && (s.RequestTpdo? || s.SetHeartbeat? || s.AppChange?)
    ensures var m := Next(n, env, s); Shape(n) && Shape(m) && Summary(n, m, s, i)
  {
    hide SdoOk, TraceOk, MappingOk, MapValidate, Sends, ParamWrites;
  }

  lemma EmergencySummary<A(!new)>(n: Node<A>, env: Env<A>, s: Step<A>, i: nat)
    requires NodeOk(n) && i < TPDO_COUNT && s.EmergencyCall? && |s.mfr| == 5
    ensures var m := Next(n, env, s); Shape(n) && Shape(m) && Summary(n, m, s, i)
  {
    hide SdoOk, TraceOk, MappingOk, Sends, ParamWrites, Emergency;
    EmergencyEffect(n, env, s.code, s.errBits, s.mfr, i);
  }

  lemma TickSummary<A(!new)>(n: Node<A>, env: Env<A>, now: u32, i: nat)
    requires NodeOk(n) && i < TPDO_COUNT
    ensures var m := Ticked(n, env, now); Shape(n) && Shape(m) && Summary(n, m, Tick(now), i)
  {
    hide NodeOk, Ticked, Shape, Summary, Outcome, Due;
    TickEffect(n, env, now, i);
    NodeParts(n);
    var a := n.(now := now);
    OutcomeSummary(n, Ticked(n, env, now), env, Tick(now), i, n.tpdo[i], n.nmt == OPERATIONAL && Due(a, env,
        n.tpdo[i]));
  }

  lemma StepSummary<A(!new)>(n: Node<A>, env: Env<A>, s: Step<A>, i: nat)
    requires NodeOk(n) && EnvOk(env) && i < TPDO_COUNT && (s.EmergencyCall? ==> |s.mfr| == 5)
    ensures var m := Next(n, env, s); Shape(n) && Shape(m) && Summary(n, m, s, i)
  {
    hide NodeOk, Shape, Summary, Received, Ticked, EnvOk, ConfiguredTpdo, ConfiguredRpdo, Emergency;
    match s
    case Rx(f, now) => RxSummary(n, env, f, now, i);
    case Tick(now) => TickSummary(n, env, now, i);
    case EmergencyCall(_, _, _) => EmergencySummary(n, env, s, i);
    case ConfigureTpdo(_, _, _, _, _, _) => ConfigureSummary(n, env, s, i);
    case ConfigureRpdo(_, _, _, _) => ConfigureSummary(n, env, s, i);
    case _ => CallSummary(n, env, s, i);
  }

  lemma AgreesKept<A(!new)>(w: World<A>, env: Env<A>, i: nat, t: nat, s: Step<A>)
    requires i < TPDO_COUNT && Agrees(w, i) && EnvOk(env) && Dated(s, t) && t >= w.t
    ensures Agrees(After(w, env, i, t, s), i)
  {
    hide NodeOk, Next, Sends, Lifts, EnvOk, Shape;
    NextOk(w.n, env, s);
    NodeParts(w.n);
    NodeParts(Next(w.n, env, s));
    StepSummary(w.n, env, s, i);
  }

  // ---------------------------------------------------------------- inhibit time

  datatype Timed<A> = At(t: nat, s: Step<A>)

  function EndTime<A>(t0: nat, steps: seq<Timed<A>>): nat {
    if steps == [] then t0 else steps[|steps| - 1].t
  }

  /** Steps at non-decreasing times from `t0` on. */
  predicate InOrder<A>(t0: nat, steps: seq<Timed<A>>) {
    steps == [] ||
    var k := |steps| - 1;
    Dated(steps[k].s, steps[k].t) && EndTime(t0, steps[..k]) <= steps[k].t && InOrder(t0, steps[..k])
  }

  /** The world after a run from initialisation at time `t0`. */
  ghost function WorldRun<A(!new)>(cfg: Config, app: A, t0: nat, env: Env<A>, i: nat,
          steps: seq<Timed<A>>): (w: World<A>)
    requires EnvOk(env) && i < TPDO_COUNT && InOrder(t0, steps)
    ensures Agrees(w, i) && w.t == EndTime(t0, steps)
  {
    if steps == [] then
      StartOk(cfg, app, Wrap32(t0));
      World(Initialised(cfg, app, Wrap32(t0)), t0, false, t0, false, t0)
    else
      var k := |steps| - 1;
      var w := WorldRun(cfg, app, t0, env, i, steps[..k]);
      AgreesKept(w, env, i, steps[k].t, steps[k].s);
      After(w, env, i, steps[k].t, steps[k].s)
  }

  /** In every run, a tick that sends a TPDO sends an event-driven one, once, and, as long as
      the node remembers the last transmission, no sooner after it than the inhibit time,
      rounded up to milliseconds; the clock may have wrapped any number of times. The node
      does remember it unless a step has lifted the inhibit time. */
  lemma InhibitTimeKept<A(!new)>(cfg: Config, app: A, t0: nat, env: Env<A>, i: nat, steps: seq<Timed<A>>, t: nat)
    requires EnvOk(env) && i < TPDO_COUNT && InOrder(t0, steps)
    requires var w := WorldRun(cfg, app, t0, env, i, steps);
      t >= w.t && Sends(After(w, env, i, t, Tick(Wrap32(t))).n.trace, i) > Sends(w.n.trace, i)
    ensures var w := WorldRun(cfg, app, t0, env, i, steps);
      && Shape(w.n) && w.n.tpdo[i].Enabled() && w.n.tpdo[i].transType >= 254
      && Sends(After(w, env, i, t, Tick(Wrap32(t))).n.trace, i) == Sends(w.n.trace, i) + 1
      && (w.n.tpdo[i].haveLast ==> t - w.last >= InhibitMs(w.n.tpdo[i]))
      && (w.bound ==> w.n.tpdo[i].haveLast)
  {
    hide WorldRun, NodeOk, Ticked, Shape, Changed, Current, SentNow, Sends;
    var w := WorldRun(cfg, app, t0, env, i, steps);
    NodeParts(w.n);
    TickEffect(w.n, env, Wrap32(t), i);
    TickSummary(w.n, env, Wrap32(t), i);
    ClockGap(t, w.last);
  }

  /** The 32-bit clock never shows more than the time that has passed. */
  lemma ClockGap(t: nat, last: nat)
    requires last <= t
    ensures Sub32(Wrap32(t), Wrap32(last)) <= t - last
    ensures t - last < TWO_32 ==> Sub32(Wrap32(t), Wrap32(last)) == t - last
  {
  }

  // ---------------------------------------------------------------- event timer

  /** The longest time the event timer and the inhibit time leave between transmissions. */
  function Pace(p: TPdo): nat {
    if p.eventMs > InhibitMs(p) then p.eventMs else InhibitMs(p)
  }

  predicate EventDriven(p: TPdo) {
    p.Enabled() && p.transType >= 254 && p.eventMs > 0
  }

  /** The node is OPERATIONAL with TPDO `i` configured as in `p`, the last tick was at most
      `d` ago, and a tick finds the mapped objects readable. */
  ghost predicate Steady<A>(w: World<A>, env: Env<A>, i: nat, p: TPdo, d: nat, x: Timed<A>)
    requires i < TPDO_COUNT && NodeOk(w.n)
  {
    && w.t <= x.t <= w.tick + d && Dated(x.s, x.t)
    && w.n.nmt == OPERATIONAL && SameTpdo(p, w.n.tpdo[i])
    && (x.s.Tick? ==> Current(w.n.(now := x.s.now), env, w.n.tpdo[i]).Payload?)
  }

  /** The observer's side of the bound: at the last tick the TPDO was not overdue. */
  predicate OnPace<A>(w: World<A>, p: TPdo) {
    w.sent && w.tick <= w.last + Pace(p)
  }

  /** A tick that does not send finds the last transmission recent. */
  lemma TickIsPrompt<A(!new)>(w: World<A>, env: Env<A>, i: nat, p: TPdo, d: nat, t: nat)
    requires i < TPDO_COUNT && Agrees(w, i) && EnvOk(env) && AlwaysAccepts(env) && EventDriven(p)
    requires Steady(w, env, i, p, d, At(t, Tick(Wrap32(t))))
    requires w.n.tpdo[i].haveLast ==> t - w.last < TWO_32
    ensures var m := Ticked(w.n, env, Wrap32(t));
      Sends(m.trace, i) > Sends(w.n.trace, i) || (w.sent && t <= w.last + Pace(p))
  {
    hide NodeOk, Ticked, Shape, Changed, Current, Sends, Dated, AlwaysAccepts, EnvOk;
    NodeParts(w.n);
    TickEffect(w.n, env, Wrap32(t), i);
    TickSummary(w.n, env, Wrap32(t), i);
    ClockGap(t, w.last);
  }

  lemma PaceKept<A(!new)>(w: World<A>, env: Env<A>, i: nat, p: TPdo, d: nat, x: Timed<A>)
    requires i < TPDO_COUNT && Agrees(w, i) && EnvOk(env) && AlwaysAccepts(env) && EventDriven(p)
    requires Steady(w, env, i, p, d, x) && OnPace(w, p) && Pace(p) + d < TWO_32
    ensures OnPace(After(w, env, i, x.t, x.s), p) && x.t <= w.last + Pace(p) + d
  {
    hide NodeOk, Ticked, Received, Current, Sends, Lifts, AlwaysAccepts, EnvOk, ConfiguredTpdo, ConfiguredRpdo,
        Emergency, Pace, EventDriven;
    if x.s.Tick? {
      TickIsPrompt(w, env, i, p, d, x.t);
    }
  }

  /** Every step of a run is steady. */
  ghost predicate SteadyRun<A(!new)>(w: World<A>, env: Env<A>, i: nat, p: TPdo, d: nat, steps: seq<Timed<A>>)
    requires i < TPDO_COUNT && Agrees(w, i) && EnvOk(env)
    decreases |steps|
  {
    steps == [] ||
    (Steady(w, env, i, p, d, steps[0]) &&
     (AgreesKept(w, env, i, steps[0].t, steps[0].s);
      SteadyRun(After(w, env, i, steps[0].t, steps[0].s), env, i, p, d, steps[1..])))
  }

  /** The world after a steady run. */
  ghost function SteadyEnd<A(!new)>(w: World<A>, env: Env<A>, i: nat, p: TPdo, d: nat,
          steps: seq<Timed<A>>): (e: World<A>)
    requires i < TPDO_COUNT && Agrees(w, i) && EnvOk(env) && SteadyRun(w, env, i, p, d, steps)
    ensures Agrees(e, i)
    decreases |steps|
  {
    if steps == [] then w
    else
      AgreesKept(w, env, i, steps[0].t, steps[0].s);
      SteadyEnd(After(w, env, i, steps[0].t, steps[0].s), env, i, p, d, steps[1..])
  }

  /** The longest time without a transmission: at every step, whether or not it sends, the
      time since the last one before it. */
  ghost function LongestWait<A(!new)>(w: World<A>, env: Env<A>, i: nat, p: TPdo, d: nat, steps: seq<Timed<A>>): nat
    requires i < TPDO_COUNT && Agrees(w, i) && EnvOk(env) && SteadyRun(w, env, i, p, d, steps)
    decreases |steps|
  {
    if steps == [] then 0
    else
      AgreesKept(w, env, i, steps[0].t, steps[0].s);
      var rest := LongestWait(After(w, env, i, steps[0].t, steps[0].s), env, i, p, d, steps[1..]);
      if steps[0].t - w.last > rest then steps[0].t - w.last else rest
  }

  /** With frames accepted, objects readable and ticks at most `d` apart, an event-driven
      TPDO is never left unsent for longer than the event time or the inhibit time, whichever
      is longer, plus `d`; and at the last tick of the run it was not overdue. */
  lemma {:induction false} EventTimerKept<A(!new)>(w: World<A>, env: Env<A>, i: nat, p: TPdo, d: nat,
          steps: seq<Timed<A>>)
    requires i < TPDO_COUNT && Agrees(w, i) && EnvOk(env) && AlwaysAccepts(env) && EventDriven(p)
    requires SteadyRun(w, env, i, p, d, steps) && OnPace(w, p) && Pace(p) + d < TWO_32
    ensures LongestWait(w, env, i, p, d, steps) <= Pace(p) + d
    ensures OnPace(SteadyEnd(w, env, i, p, d, steps), p)
    decreases |steps|
  {
    hide Agrees, After, Steady, EnvOk, AlwaysAccepts, EventDriven, OnPace, Pace, Sends;
    if steps != [] {
      StepsOn(w, env, i, p, d, steps[0]);
      PaceKept(w, env, i, p, d, steps[0]);
      AgreesKept(w, env, i, steps[0].t, steps[0].s);
      EventTimerKept(After(w, env, i, steps[0].t, steps[0].s), env, i, p, d, steps[1..]);
    }
  }

  lemma StepsOn<A>(w: World<A>, env: Env<A>, i: nat, p: TPdo, d: nat, x: Timed<A>)
    requires i < TPDO_COUNT && Agrees(w, i) && Steady(w, env, i, p, d, x)
    ensures NodeOk(w.n) && Dated(x.s, x.t) && x.t >= w.t
  {
  }

  /** The first tick after a restart, a request or a reconfiguration sends. */
  lemma FirstTickSends<A(!new)>(w: World<A>, env: Env<A>, i: nat, p: TPdo, d: nat, t: nat)
    requires i < TPDO_COUNT && Agrees(w, i) && EnvOk(env) && AlwaysAccepts(env) && EventDriven(p)
    requires !w.n.tpdo[i].haveLast && Steady(w, env, i, p, d, At(t, Tick(Wrap32(t))))
    ensures var m := After(w, env, i, t, Tick(Wrap32(t))); m.last == t && OnPace(m, p)
  {
    hide NodeOk, Ticked, Shape, Changed, Current, Sends, Dated, AlwaysAccepts, EnvOk;
    NodeParts(w.n);
    TickEffect(w.n, env, Wrap32(t), i);
    TickSummary(w.n, env, Wrap32(t), i);
  }
}
