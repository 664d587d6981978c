/** The node as a state machine: frames, ticks and calls of the owner, and what every
    sequence of them keeps. */
module CoNet {
  import opened Bytes
  import opened CoTypes
  import opened CoDictionary
  import opened CoPdo
  import opened CoSdo

  // ---------------------------------------------------------------- NMT, heartbeat

  function FreshTpdo(nodeId: nat, i: nat): TPdo
    requires 1 <= nodeId <= 127 && i < TPDO_COUNT
  {
    TPdo(COB_INVALID + 0x180 + 0x100 * i + nodeId, 255, 0, 0, 0, seq(MAP_MAX, _ => 0), 0, false, [], 0)
  }

  function FreshRpdo(nodeId: nat, i: nat): RPdo
    requires 1 <= nodeId <= 127 && i < RPDO_COUNT
  {
    RPdo(COB_INVALID + 0x200 + 0x100 * i + nodeId, 255, 0, seq(MAP_MAX, _ => 0), false, 0, [0, 0, 0, 0, 0, 0, 0, 0])
  }

  /** Reset of the node or of its communication: all PDOs disabled, boot-up pending. The
      owner's reset callback is a sequence of calls that follows. */
  function Reset<A>(n: Node<A>, resetNode: bool): Node<A>
    requires 1 <= n.cfg.nodeId <= 127
  {
    n.(sdo := Idle,
       tpdo := seq(TPDO_COUNT, i requires 0 <= i < TPDO_COUNT => FreshTpdo(n.cfg.nodeId, i)),
       rpdo := seq(RPDO_COUNT, i requires 0 <= i < RPDO_COUNT => FreshRpdo(n.cfg.nodeId, i)),
       errorRegister := if resetNode then 0 else n.errorRegister,
       bootup := true, hbLast := n.now, nmt := PREOPERATIONAL)
  }

  function Initialised<A>(cfg: Config, app: A, now: u32): Node<A> {
    var c := cfg.(nodeId := if 1 <= cfg.nodeId <= 127 then cfg.nodeId else 127);
    Reset(Node(c, INITIALISING, 0, now, 0, false, Idle, [], [], app, []), true)
  }

  function Restarted(tpdo: seq<TPdo>): seq<TPdo> {
    seq(|tpdo|, i requires 0 <= i < |tpdo| => tpdo[i].(haveLast := false))
  }

  function NmtReceived<A>(n: Node<A>, f: Frame): Node<A>
    requires Shape(n)
  {
    if f.dlc < 2 || (f.data[1] != 0 && f.data[1] != n.cfg.nodeId) then n
    else if f.data[0] == 0x01 then n.(nmt := OPERATIONAL, tpdo := Restarted(n.tpdo))
    else if f.data[0] == 0x02 then n.(nmt := STOPPED, sdo := Idle)
    else if f.data[0] == 0x80 then n.(nmt := PREOPERATIONAL)
    else if f.data[0] == 0x81 then Reset(n, true)
    else if f.data[0] == 0x82 then Reset(n, false)
    else n
  }

  function HeartbeatTick<A>(n: Node<A>, env: Env<A>): Node<A> {
    var id := 0x700 + n.cfg.nodeId;
    if n.bootup then
      var m := Sent(n, env, id, [0], HEARTBEAT);
      if Accepted(n, env, id, [0]) then m.(bootup := false, hbLast := n.now) else m
    else if n.cfg.heartbeat == 0 || Sub32(n.now, n.hbLast) < n.cfg.heartbeat then n
    else Sent(n, env, id, [NmtCode(n.nmt)], HEARTBEAT).(hbLast := n.now)
  }

  // ---------------------------------------------------------------- steps

  function Received<A>(n: Node<A>, env: Env<A>, f: Frame, now: u32): Node<A>
    requires NodeOk(n)
  {
    var m := n.(now := now);
    if f.id == 0 then NmtReceived(m, f)
    else if m.nmt == INITIALISING then m
    else if f.id == 0x80 && !f.rtr then SyncReceived(m, env)
    else if m.nmt == STOPPED then m
    else if f.id == 0x600 + m.cfg.nodeId then SdoReceived(m, env, f)
    else PdoReceived(m, env, f)
  }

  function TimedOut<A>(n: Node<A>, env: Env<A>): Node<A> {
    if !n.sdo.Idle? && Sub32(n.now, n.sdo.last) > SDO_TIMEOUT_MS then AbortedTransfer(n, env, ABORT_TIMEOUT) else n
  }

  function Ticked<A>(n: Node<A>, env: Env<A>, now: u32): Node<A>
    requires NodeOk(n)
  {
    var m := TimedOut(HeartbeatTick(n.(now := now), env), env);
    assert Shape(m);
    TpdoTick(m, env)
  }

  function ConfiguredTpdo<A>(n: Node<A>, env: Env<A>, i: nat, cobId: u16, transType: u8, inhibitMs: u16,
          eventMs: u16, entries: seq<u32>): Node<A>
    requires Shape(n)
  {
    if i >= TPDO_COUNT || |entries| > MAP_MAX then n
    else if MapValidate(n, env, entries, |entries|, true, 0, 0) != 0 then n
    else
      var p := n.tpdo[i];
      n.(tpdo := n.tpdo[i := p.(
        cobId := if cobId != 0 then cobId % 0x800 else 0x180 + 0x100 * i + n.cfg.nodeId,
        transType := transType, inhibit := inhibitMs * 10 % 0x1_0000, eventMs := eventMs,
        mapCount := |entries|, entries := entries + p.entries[|entries|..],
        haveLast := false, syncCount := 0)])
  }

  function ConfiguredRpdo<A>(n: Node<A>, env: Env<A>, i: nat, cobId: u16, transType: u8, entries: seq<u32>): Node<A>
    requires Shape(n)
  {
    if i >= RPDO_COUNT || |entries| > MAP_MAX then n
    else if MapValidate(n, env, entries, |entries|, false, 0, 0) != 0 then n
    else
      var p := n.rpdo[i];
      n.(rpdo := n.rpdo[i := p.(
        cobId := if cobId != 0 then cobId % 0x800 else 0x200 + 0x100 * i + n.cfg.nodeId,
        transType := transType, mapCount := |entries|, entries := entries + p.entries[|entries|..], pending := false)])
  }

  datatype Step<A> =
    | Rx(f: Frame, now: u32)
    | Tick(now: u32)
    | EmergencyCall(code: u16, errBits: u8, mfr: seq<u8>)
    | ConfigureTpdo(i: nat, cobId: u16, transType: u8, inhibitMs: u16, eventMs: u16, entries: seq<u32>)
    | ConfigureRpdo(i: nat, cobId: u16, transType: u8, entries: seq<u32>)
    | RequestTpdo(i: nat)
    | SetHeartbeat(ms: u16)
    | AppChange(app: A)

  function Next<A>(n: Node<A>, env: Env<A>, s: Step<A>): Node<A>
    requires NodeOk(n) && (s.EmergencyCall? ==> |s.mfr| == 5)
  {
    match s
    case Rx(f, now) => Received(n, env, f, now)
    case Tick(now) => Ticked(n, env, now)
    case EmergencyCall(code, errBits, mfr) => Emergency(n, env, code, errBits, mfr)
    case ConfigureTpdo(i, cobId, transType, inhibitMs, eventMs, entries) =>
      ConfiguredTpdo(n, env, i, cobId, transType, inhibitMs, eventMs, entries)
    case ConfigureRpdo(i, cobId, transType, entries) => ConfiguredRpdo(n, env, i, cobId, transType, entries)
    case RequestTpdo(i) => if i < TPDO_COUNT then n.(tpdo := n.tpdo[i := n.tpdo[i].(haveLast := false)]) else n
    case SetHeartbeat(ms) => n.(cfg := n.cfg.(heartbeat := ms), hbLast := n.now)
    case AppChange(app) => n.(app := app)
  }

  // ---------------------------------------------------------------- the invariant

  /** Valid mappings, a well-formed transfer, no transfer while stopped, and a trace in
      which every frame was sent in a state that permits it and every segmented write came
      from a complete download. */
  predicate NodeOk<A>(n: Node<A>) {
    MappingsOk(n) && SdoOk(n.sdo) && (n.nmt == STOPPED ==> n.sdo.Idle?) && n.nmt != INITIALISING && TraceOk(n.trace)
  }

  lemma TraceGrows(trace: seq<Event>, e: Event)
    requires TraceOk(trace) && EventOk(e)
    ensures TraceOk(trace + [e])
  {
    hide EventOk;
  }

  lemma SentOk<A>(n: Node<A>, env: Env<A>, id: nat, data: seq<u8>, kind: Kind)
    requires NodeOk(n) && |data| <= 8
    requires kind.PDO? ==> n.nmt == OPERATIONAL
    requires kind == SDO || kind == EMCY ==> n.nmt != STOPPED
    requires kind == HEARTBEAT ==> |data| == 1 && (data[0] == 0 || data[0] == NmtCode(n.nmt))
    ensures NodeOk(Sent(n, env, id, data, kind))
  {
    hide MappingOk, SdoOk, TraceOk, EventOk;
    SentEventOk(n, env, id, data, kind);
    var m := Sent(n, env, id, data, kind);
    TraceGrows(n.trace, m.trace[|n.trace|]);
  }

  lemma SentEventOk<A>(n: Node<A>, env: Env<A>, id: nat, data: seq<u8>, kind: Kind)
    requires |data| <= 8 && n.nmt != INITIALISING
    requires kind.PDO? ==> n.nmt == OPERATIONAL
    requires kind == SDO || kind == EMCY ==> n.nmt != STOPPED
    requires kind == HEARTBEAT ==> |data| == 1 && (data[0] == 0 || data[0] == NmtCode(n.nmt))
    ensures var m := Sent(n, env, id, data, kind);
      |m.trace| == |n.trace| + 1 && m.trace == n.trace + [m.trace[|n.trace|]] && EventOk(m.trace[|n.trace|])
  {
  }
}
