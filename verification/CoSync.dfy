/** Cyclic TPDOs: a TPDO of type k goes out on every k-th SYNC. */
module CoSync {
  import opened Bytes
  import opened CoTypes
  import opened CoDictionary
  import opened CoPdo
  import opened CoSdo
  import opened CoNet
  import opened CoInvariant
  import opened CoEffects
  import opened CoTiming

  predicate IsSync<A>(s: Step<A>) {
    s.Rx? && s.f.id == 0x80 && !s.f.rtr
  }

  predicate Cyclic(p: TPdo) {
    p.Enabled() && 1 <= p.transType <= 240 && p.syncCount < p.transType
  }

  /** A step of a run in which TPDO `i` is left to the SYNCs: the node is and stays
      OPERATIONAL, nobody writes or replaces the TPDO's parameters, no remote request asks
      for it, and a SYNC finds its objects readable. */
  ghost predicate Undisturbed<A(!new)>(n: Node<A>, env: Env<A>, i: nat, s: Step<A>)
    requires NodeOk(n) && i < TPDO_COUNT && (s.EmergencyCall? ==> |s.mfr| == 5)
  {
    var m := Next(n, env, s);
    && n.nmt == OPERATIONAL == m.nmt && ParamWrites(m.trace, i) == ParamWrites(n.trace, i)
    && !(s.ConfigureTpdo? && s.i == i)
    && (s.Rx? && s.f.rtr ==> s.f.id != n.tpdo[i].cobId % 0x800)
    && (IsSync(s) ==> Current(n.(now := s.now), env, n.tpdo[i]).Payload?)
  }

  /** What a step leaves of a TPDO it neither counts nor sends. */
  predicate SameCount(p: TPdo, q: TPdo) {
    q == p.(haveLast := q.haveLast)
  }

  /** A SYNC counts; the k-th one sends and starts over. */
  lemma SyncCounts<A(!new)>(n: Node<A>, env: Env<A>, i: nat, s: Step<A>)
    requires NodeOk(n) && EnvOk(env) && AlwaysAccepts(env) && i < TPDO_COUNT && IsSync(s)
    requires Undisturbed(n, env, i, s) && Cyclic(n.tpdo[i])
    ensures var m, p := Next(n, env, s), n.tpdo[i];
      && i < |m.tpdo| && Cyclic(m.tpdo[i]) && m.tpdo[i].transType == p.transType
      && (if p.syncCount + 1 == p.transType
          then m.tpdo[i].syncCount == 0 && Sends(m.trace, i) == Sends(n.trace, i) + 1
          else m.tpdo[i].syncCount == p.syncCount + 1 && Sends(m.trace, i) == Sends(n.trace, i))
  {
    hide NodeOk, SyncReceived, Current, Sends, Shape, MappingsOk, EnvOk, AlwaysAccepts, Changed;
    AtTime(n, s.now);
    var a := n.(now := s.now);
    NodeParts(n);
    NodeParts(a);
    SyncEffect(a, env, i);
    CountedCount(n.tpdo[i]);
    HasTpdos(SyncReceived(a, env));
    CurrentOf(a, env, n.tpdo[i], Counted(n.tpdo[i]));
  }

  lemma HasTpdos<A>(n: Node<A>)
    requires MappingsOk(n)
    ensures Shape(n) && |n.tpdo| == TPDO_COUNT
  {
  }

  lemma CurrentOf<A>(n: Node<A>, env: Env<A>, p: TPdo, q: TPdo)
    requires Shape(n) && p.mapCount <= |p.entries| && q.mapCount == p.mapCount && q.entries == p.entries
    ensures Current(n, env, q) == Current(n, env, p)
  {
  }

  /** Any other step leaves the count alone. */
  lemma OthersDoNotCount<A(!new)>(n: Node<A>, env: Env<A>, i: nat, s: Step<A>)
    requires NodeOk(n) && EnvOk(env) && i < TPDO_COUNT && !IsSync(s) && (s.EmergencyCall? ==> |s.mfr| == 5)
    requires Undisturbed(n, env, i, s) && Cyclic(n.tpdo[i])
    ensures var m := Next(n, env, s);
      i < |m.tpdo| && SameCount(n.tpdo[i], m.tpdo[i]) && Sends(m.trace, i) == Sends(n.trace, i)
  {
    hide NodeOk, Received, Ticked, EnvOk, ConfiguredTpdo, ConfiguredRpdo, Emergency, ParamWrites, Sends, Current;
    match s
    case Rx(f, now) => FrameDoesNotCount(n, env, i, f, now);
    case Tick(now) => TickDoesNotCount(n, env, i, now);
    case EmergencyCall(code, errBits, mfr) =>
      NodeParts(n);
      EmergencyEffect(n, env, code, errBits, mfr, i);
    case ConfigureTpdo(_, _, _, _, _, _) => ConfigureDoesNotCount(n, env, i, s);
    case ConfigureRpdo(_, _, _, _) => ConfigureDoesNotCount(n, env, i, s);
    case _ => NodeParts(n);
  }

  lemma ConfigureDoesNotCount<A(!new)>(n: Node<A>, env: Env<A>, i: nat, s: Step<A>)
    requires NodeOk(n) && i < TPDO_COUNT && (s.ConfigureRpdo? || (s.ConfigureTpdo? && s.i != i))
    ensures var m := Next(n, env, s); |m.tpdo| == TPDO_COUNT && m.tpdo[i] == n.tpdo[i] && m.trace == n.trace
  {
    hide SdoOk, TraceOk, MappingOk, MapValidate;
  }

  lemma TickDoesNotCount<A(!new)>(n: Node<A>, env: Env<A>, i: nat, now: u32)
    requires NodeOk(n) && i < TPDO_COUNT && Cyclic(n.tpdo[i])
    ensures var m := Ticked(n, env, now);
      |m.tpdo| == TPDO_COUNT && m.tpdo[i] == n.tpdo[i] && Sends(m.trace, i) == Sends(n.trace, i)
  {
    hide NodeOk, Ticked, Changed, Current, Sends, AlwaysAccepts;
    TickEffect(n, env, now, i);
    NodeParts(n);
  }

  lemma FrameDoesNotCount<A(!new)>(n: Node<A>, env: Env<A>, i: nat, f: Frame, now: u32)
    requires NodeOk(n) && EnvOk(env) && i < TPDO_COUNT && !(f.id == 0x80 && !f.rtr)
    requires var m := Received(n, env, f, now);
      && n.nmt == OPERATIONAL == m.nmt && ParamWrites(m.trace, i) == ParamWrites(n.trace, i)
      && (f.rtr ==> f.id != n.tpdo[i].cobId % 0x800)
    ensures var m := Received(n, env, f, now);
      |m.tpdo| == TPDO_COUNT && SameCount(n.tpdo[i], m.tpdo[i]) && Sends(m.trace, i) == Sends(n.trace, i)
  {
    hide NodeOk, SdoReceived, PdoReceived, NmtReceived, Outcome, ParamWrites, Sends, MappingsOk, SdoOk, EnvOk, FindTpdo;
    AtTime(n, now);
    NodeParts(n);
    var a := n.(now := now);
    NodeParts(a);
    if f.id == 0 {
      StartDoesNotCount(a, f, i);
    } else if f.id == 0x600 + a.cfg.nodeId {
      SdoEffect(a, env, f, i);
    } else {
      PdoEffect(a, env, f, i);
      FoundMatches(a.tpdo, f.id, 0);
      HasTpdos(PdoReceived(a, env, f));
      NotWanted(a, PdoReceived(a, env, f), env, i, a.tpdo[i]);
    }
  }

  lemma StartDoesNotCount<A>(n: Node<A>, f: Frame, i: nat)
    requires Shape(n) && i < TPDO_COUNT && NmtReceived(n, f).nmt == OPERATIONAL
    ensures var m := NmtReceived(n, f); |m.tpdo| == TPDO_COUNT && SameCount(n.tpdo[i], m.tpdo[i]) && m.trace == n.trace
  {
  }

  lemma NotWanted<A>(n: Node<A>, m: Node<A>, env: Env<A>, i: nat, q: TPdo)
    requires Shape(n) && Shape(m) && i < TPDO_COUNT && q.mapCount <= |q.entries| && Outcome(n, m, env, i, q, false)
    ensures m.tpdo[i] == q && Sends(m.trace, i) == Sends(n.trace, i) && |m.tpdo| == TPDO_COUNT
  {
  }

  lemma {:induction false} FoundMatches(tpdo: seq<TPdo>, id: u16, i: nat)
    requires i <= |tpdo|
    ensures var k := FindTpdo(tpdo, id, i); k < |tpdo| ==> tpdo[k].cobId % 0x800 == id
    decreases |tpdo| - i
  {
    if i < |tpdo| {
      FoundMatches(tpdo, id, i + 1);
    }
  }

  // ---------------------------------------------------------------- runs

  ghost predicate SyncRun<A(!new)>(n: Node<A>, env: Env<A>, i: nat, steps: seq<Step<A>>)
    requires NodeOk(n) && EnvOk(env) && i < TPDO_COUNT
    decreases |steps|
  {
    steps == [] ||
    ((steps[0].EmergencyCall? ==> |steps[0].mfr| == 5) && Undisturbed(n, env, i, steps[0]) &&
     (NextOk(n, env, steps[0]); SyncRun(Next(n, env, steps[0]), env, i, steps[1..])))
  }

  ghost function EndOf<A(!new)>(n: Node<A>, env: Env<A>, i: nat, steps: seq<Step<A>>): (m: Node<A>)
    requires NodeOk(n) && EnvOk(env) && i < TPDO_COUNT && SyncRun(n, env, i, steps)
    ensures NodeOk(m)
    decreases |steps|
  {
    if steps == [] then n
    else
      NextOk(n, env, steps[0]);
      EndOf(Next(n, env, steps[0]), env, i, steps[1..])
  }

  function SyncsIn<A>(steps: seq<Step<A>>): nat {
    if steps == [] then 0 else (if IsSync(steps[0]) then 1 else 0) + SyncsIn(steps[1..])
  }

  /** Quotient and remainder are unique. */
  lemma DivMod(x: nat, k: nat, q: nat, r: nat)
    requires x == q * k + r && r < k
    ensures x / k == q && x % k == r
  {
    var d := q - x / k;
    assert d * k == x % k - r;
    assert d >= 1 ==> d * k >= k;
    assert d <= -1 ==> d * k + k <= 0;
  }

  lemma Distribute(x: int, y: int, k: int)
    ensures (x + y) * k == x * k + y * k
  {
  }

  lemma StepCounted<A(!new)>(n: Node<A>, env: Env<A>, i: nat, s: Step<A>)
    requires NodeOk(n) && EnvOk(env) && AlwaysAccepts(env) && i < TPDO_COUNT && (s.EmergencyCall? ==> |s.mfr| == 5)
    requires Undisturbed(n, env, i, s) && i < |n.tpdo| && Cyclic(n.tpdo[i])
    ensures var m, p := Next(n, env, s), n.tpdo[i];
      && i < |m.tpdo| && Cyclic(m.tpdo[i]) && m.tpdo[i].transType == p.transType
      && Sends(m.trace, i) >= Sends(n.trace, i)
      && (Sends(m.trace, i) - Sends(n.trace, i)) * p.transType + m.tpdo[i].syncCount
         == p.syncCount + if IsSync(s) then 1 else 0
  {
    hide NodeOk, Next, Undisturbed, EnvOk, AlwaysAccepts, Sends, IsSync;
    if IsSync(s) {
      SyncCounts(n, env, i, s);
    } else {
      OthersDoNotCount(n, env, i, s);
    }
  }

  lemma {:induction false} SyncsCounted<A(!new)>(n: Node<A>, env: Env<A>, i: nat, steps: seq<Step<A>>)
    requires NodeOk(n) && EnvOk(env) && AlwaysAccepts(env) && i < TPDO_COUNT
    requires SyncRun(n, env, i, steps) && Cyclic(n.tpdo[i])
    ensures var m, p := EndOf(n, env, i, steps), n.tpdo[i];
      && i < |m.tpdo| && Cyclic(m.tpdo[i]) && m.tpdo[i].transType == p.transType
      && Sends(m.trace, i) >= Sends(n.trace, i)
      && (Sends(m.trace, i) - Sends(n.trace, i)) * p.transType + m.tpdo[i].syncCount == p.syncCount + SyncsIn(steps)
    decreases |steps|
  {
    hide NodeOk, Next, Undisturbed, EnvOk, AlwaysAccepts, Sends, IsSync, Cyclic;
    NodeParts(n);
    if steps != [] {
      var m := Next(n, env, steps[0]);
      NextOk(n, env, steps[0]);
      NodeParts(m);
      StepCounted(n, env, i, steps[0]);
      SyncsCounted(m, env, i, steps[1..]);
      var e := EndOf(m, env, i, steps[1..]);
      Distribute(Sends(e.trace, i) - Sends(m.trace, i), Sends(m.trace, i) - Sends(n.trace, i), n.tpdo[i].transType);
    }
  }

  /** Starting from a count of `c`, a type-k TPDO is sent (c + N) / k times on N SYNCs:
      from a fresh count exactly floor(N / k) times. The run stays OPERATIONAL, frames are
      accepted, the mapped objects can be read at each SYNC, the parameters of the TPDO are
      not rewritten and nobody requests it remotely; anything else may happen in between. */
  lemma EveryKthSync<A(!new)>(n: Node<A>, env: Env<A>, i: nat, steps: seq<Step<A>>)
    requires NodeOk(n) && EnvOk(env) && AlwaysAccepts(env) && i < TPDO_COUNT
    requires SyncRun(n, env, i, steps) && Cyclic(n.tpdo[i])
    ensures var m, p := EndOf(n, env, i, steps), n.tpdo[i];
      && Sends(m.trace, i) - Sends(n.trace, i) == (p.syncCount + SyncsIn(steps)) / p.transType
      && i < |m.tpdo| && m.tpdo[i].syncCount == (p.syncCount + SyncsIn(steps)) % p.transType
  {
    hide NodeOk, EndOf, SyncRun, EnvOk, AlwaysAccepts, Sends, SyncsIn;
    NodeParts(n);
    SyncsCounted(n, env, i, steps);
    var m, p := EndOf(n, env, i, steps), n.tpdo[i];
    DivMod(p.syncCount + SyncsIn(steps), p.transType, Sends(m.trace, i) - Sends(n.trace, i), m.tpdo[i].syncCount);
  }
}
