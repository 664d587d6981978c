/** What the node says without being asked for data: refusals of the SDO server, the end of
    a transfer nobody continues, boot-up message and heartbeat. */
module CoAnswers {
  import opened Bytes
  import opened CoTypes
  import opened CoDictionary
  import opened CoPdo
  import opened CoSdo
  import opened CoNet
  import opened CoInvariant

  // ---------------------------------------------------------------- SDO errors

  /** The abort frame of section 7.2.4.3.17 of CiA 301. */
  function AbortFrame(nodeId: nat, index: u16, sub: u8, code: u32): Frame
    requires nodeId <= 127
  {
    Frame(0x580 + nodeId, 8, false, [0x80] + Le16(index) + [sub] + Le32(code))
  }

  /** The transfer has been ended with this code, and nothing else has happened. */
  ghost predicate AbortedWith<A>(n: Node<A>, m: Node<A>, env: Env<A>, index: u16, sub: u8, code: u32)
    requires Shape(n)
  {
    var f := AbortFrame(n.cfg.nodeId, index, sub, code);
    m == n.(sdo := Idle, trace := n.trace + [Tx(f, env.accepts(n.trace, f), SDO, n.nmt)])
  }

  lemma AbortSends<A>(n: Node<A>, env: Env<A>, index: u16, sub: u8, code: u32)
    requires Shape(n)
    ensures AbortedWith(n, Aborted(n, env, index, sub, code), env, index, sub, code)
  {
    hide Le16, Le32;
    var d := Multiplexed(0x80, index, sub, Le32(code));
    assert Pad8(d) == d == [0x80] + Le16(index) + [sub] + Le32(code);
  }

  /** A request that does not fit the state of the server. */
  lemma WrongCommand<A>(n: Node<A>, env: Env<A>, f: Frame, now: u32)
    requires NodeOk(n) && n.nmt != STOPPED && f.id == 0x600 + n.cfg.nodeId
    ensures var a, m, command := n.(now := now), Received(n, env, f, now), f.data[0] / 32;
      Shape(a) &&
      if f.dlc < 8 || f.rtr then m == a
      else if command == 4 then m == a.(sdo := Idle)
      else if command >= 5 then AbortedWith(a, m, env, FromLe16(f.data[1..3]), f.data[3], 0x0504_0001)
      else if command == 3 && !n.sdo.Uploading? then AbortedWith(a, m, env, 0, 0, 0x0504_0001)
      else if command == 0 && !n.sdo.Downloading? then AbortedWith(a, m, env, 0, 0, 0x0504_0001)
      else command == 2 && OdRead(a, env, FromLe16(f.data[1..3]), f.data[3]).Abort? ==>
        AbortedWith(a, m, env, FromLe16(f.data[1..3]), f.data[3],
                    OdRead(a, env, FromLe16(f.data[1..3]), f.data[3]).code)
  {
    hide NodeOk, Aborted, DownloadStarted, FromLe16, SdoOk, OdRead, AbortedWith;
    AtTime(n, now);
    NodeTransferOk(n);
    NodeTransferOk(n.(now := now));
    Number(n);
    var a := n.(now := now);
    AbortSends(a, env, Index(f), Sub(f), ABORT_CMD);
    AbortSends(a, env, 0, 0, ABORT_CMD);
    if f.data[0] / 32 == 2 && OdRead(a, env, Index(f), Sub(f)).Abort? {
      AbortSends(a, env, Index(f), Sub(f), OdRead(a, env, Index(f), Sub(f)).code);
    }
  }

  lemma Number<A>(n: Node<A>)
    requires NodeOk(n)
    ensures 1 <= n.cfg.nodeId <= 127 && n.nmt != INITIALISING
  {
  }

  /** A segment that does not continue its transfer: the wrong toggle bit, more bytes than
      fit, or in the end another number than expected; and a request that announces more
      than fits. */
  lemma WrongSegment<A>(n: Node<A>, env: Env<A>, f: Frame, now: u32)
    requires NodeOk(n) && n.nmt != STOPPED && f.id == 0x600 + n.cfg.nodeId && f.dlc >= 8 && !f.rtr
    ensures var a, m, command := n.(now := now), Received(n, env, f, now), f.data[0] / 32;
      var toggle, last, length := f.data[0] / 16 % 2, f.data[0] % 2 == 1, 7 - f.data[0] / 2 % 8;
      Shape(a) && match n.sdo
      case Idle => true
      case Uploading(index, sub, _, _, t, _) =>
        command == 3 && toggle != t ==> AbortedWith(a, m, env, index, sub, 0x0503_0000)
      case Downloading(index, sub, expected, got, t, _, _) =>
        command == 0 ==>
          if toggle != t then AbortedWith(a, m, env, index, sub, 0x0503_0000)
          else if |got| + length > 128 then AbortedWith(a, m, env, index, sub, 0x0504_0005)
          else last && expected != 0 && |got| + length != expected ==>
            AbortedWith(a, m, env, index, sub, 0x0607_0010)
    ensures var a, m := n.(now := now), Received(n, env, f, now);
      Shape(a) &&
      (f.data[0] / 32 == 1 && f.data[0] / 2 % 2 == 0 && f.data[0] % 2 == 1 && FromLe32(f.data[4..8]) > 128 ==>
        AbortedWith(a, m, env, FromLe16(f.data[1..3]), f.data[3], 0x0504_0005))
  {
    hide NodeOk, Aborted, FromLe16, FromLe32, SdoOk, OdRead, OdWrite, AbortedWith, Multiplexed;
    AtTime(n, now);
    NodeTransferOk(n);
    NodeTransferOk(n.(now := now));
    Number(n);
    var a := n.(now := now);
    AbortSends(a, env, Index(f), Sub(f), ABORT_OUT_OF_MEMORY);
    if !n.sdo.Idle? {
      AbortSends(a, env, n.sdo.index, n.sdo.sub, ABORT_TOGGLE);
      AbortSends(a, env, n.sdo.index, n.sdo.sub, ABORT_OUT_OF_MEMORY);
      AbortSends(a, env, n.sdo.index, n.sdo.sub, ABORT_TYPE_MISMATCH);
    }
  }

  // ---------------------------------------------------------------- NMT

  /** The command reaches this node: to all nodes or to its number. */
  predicate Addressed<A>(n: Node<A>, f: Frame) {
    f.id == 0 && f.dlc >= 2 && (f.data[1] == 0 || f.data[1] == n.cfg.nodeId)
  }

  /** What the NMT commands do. Start makes every TPDO forget what it last sent; stop ends a
      transfer; a reset brings the predefined connection set with all PDOs disabled and
      without a mapping, and the boot-up message; only a reset of the whole node clears the
      error register. Any other command, and one for another node, changes nothing. */
  lemma Commands<A>(n: Node<A>, env: Env<A>, f: Frame, now: u32)
    requires NodeOk(n) && f.id == 0
    ensures var a, m := n.(now := now), Received(n, env, f, now);
      if !Addressed(n, f) || f.data[0] !in {0x01, 0x02, 0x80, 0x81, 0x82} then m == a
      else if f.data[0] == 0x01 then
        m == a.(nmt := OPERATIONAL, tpdo := m.tpdo) && |m.tpdo| == |n.tpdo|
        && forall i | 0 <= i < |n.tpdo| :: m.tpdo[i] == n.tpdo[i].(haveLast := false)
      else if f.data[0] == 0x02 then m == a.(nmt := STOPPED, sdo := Idle)
      else if f.data[0] == 0x80 then m == a.(nmt := PREOPERATIONAL)
      else
        && m == a.(nmt := PREOPERATIONAL, sdo := Idle, bootup := true, hbLast := now, tpdo := m.tpdo, rpdo := m.rpdo,
                   errorRegister := if f.data[0] == 0x81 then 0 else n.errorRegister)
        && |m.tpdo| == TPDO_COUNT && |m.rpdo| == RPDO_COUNT
        && (forall i | 0 <= i < TPDO_COUNT :: DefaultTpdo(m.tpdo[i], 0x180 + 0x100 * i + n.cfg.nodeId))
        && (forall i | 0 <= i < RPDO_COUNT :: DefaultRpdo(m.rpdo[i], 0x200 + 0x100 * i + n.cfg.nodeId))
  {
    hide TraceOk, SdoOk, MappingOk;
  }

  /** Disabled at this identifier, event-driven, without mapping and timers. */
  predicate DefaultTpdo(p: TPdo, id: nat) {
    && p.cobId == 0x8000_0000 + id && p.transType == 255 && p.inhibit == 0 && p.eventMs == 0
    && p.mapCount == 0 && p.entries == [0, 0, 0, 0, 0, 0, 0, 0] && !p.haveLast && p.syncCount == 0
  }

  predicate DefaultRpdo(p: RPdo, id: nat) {
    && p.cobId == 0x8000_0000 + id && p.transType == 255
    && p.mapCount == 0 && p.entries == [0, 0, 0, 0, 0, 0, 0, 0] && !p.pending
  }

  // ---------------------------------------------------------------- the owner

  /** Objects read as they were, apart from those of one TPDO. */
  predicate ReadsTpdo<A>(n: Node<A>, env: Env<A>, i: nat, id: nat, transType: u8, inhibitMs: u16, eventMs: u16,
          entries: seq<u32>)
    requires Shape(n) && i < TPDO_COUNT && |entries| <= 8 && id < 0x800
  {
    && OdRead(n, env, 0x1800 + i, 1) == Data(Le32(id))
    && OdRead(n, env, 0x1800 + i, 2) == Data([transType])
    && OdRead(n, env, 0x1800 + i, 3) == Data(Le16(inhibitMs * 10 % 0x1_0000))
    && OdRead(n, env, 0x1800 + i, 5) == Data(Le16(eventMs))
    && OdRead(n, env, 0x1A00 + i, 0) == Data([|entries|])
    && forall k | 0 <= k < |entries| :: OdRead(n, env, 0x1A00 + i, k + 1) == Data(Le32(entries[k]))
  }

  predicate ReadsRpdo<A>(n: Node<A>, env: Env<A>, i: nat, id: nat, transType: u8, entries: seq<u32>)
    requires Shape(n) && i < RPDO_COUNT && |entries| <= 8 && id < 0x800
  {
    && OdRead(n, env, 0x1400 + i, 1) == Data(Le32(id))
    && OdRead(n, env, 0x1400 + i, 2) == Data([transType])
    && OdRead(n, env, 0x1600 + i, 0) == Data([|entries|])
    && forall k | 0 <= k < |entries| :: OdRead(n, env, 0x1600 + i, k + 1) == Data(Le32(entries[k]))
  }

  /** A configuration by the owner reads back through the object dictionary: the identifier
      given or the predefined one, the type, the timers, the mapping. One with an invalid
      mapping, too many entries or no such PDO changes nothing. */
  lemma OwnerConfiguresTpdo<A>(n: Node<A>, env: Env<A>, i: nat, cobId: u16, transType: u8, inhibitMs: u16, eventMs: u16,
          entries: seq<u32>)
    requires NodeOk(n)
    ensures Shape(n)
    ensures var m := Next(n, env, ConfigureTpdo(i, cobId, transType, inhibitMs, eventMs, entries));
      if i >= 4 || |entries| > 8 || MapValidate(n, env, entries, |entries|, true, 0, 0) != 0 then m == n
      else
        && Shape(m) && m == n.(tpdo := m.tpdo) && !m.tpdo[i].haveLast && m.tpdo[i].syncCount == 0
        && (forall j | 0 <= j < TPDO_COUNT && j != i :: m.tpdo[j] == n.tpdo[j])
        && ReadsTpdo(m, env, i, if cobId != 0 then cobId % 0x800 else 0x180 + 0x100 * i + n.cfg.nodeId, transType,
                     inhibitMs, eventMs, entries)
  {
    hide TraceOk, SdoOk, MappingOk, MapValidate, Le32, Le16;
  }

  lemma OwnerConfiguresRpdo<A>(n: Node<A>, env: Env<A>, i: nat, cobId: u16, transType: u8, entries: seq<u32>)
    requires NodeOk(n)
    ensures Shape(n)
    ensures var m := Next(n, env, ConfigureRpdo(i, cobId, transType, entries));
      if i >= 2 || |entries| > 8 || MapValidate(n, env, entries, |entries|, false, 0, 0) != 0 then m == n
      else
        && Shape(m) && m == n.(rpdo := m.rpdo) && !m.rpdo[i].pending
        && (forall j | 0 <= j < RPDO_COUNT && j != i :: m.rpdo[j] == n.rpdo[j])
        && ReadsRpdo(m, env, i, if cobId != 0 then cobId % 0x800 else 0x200 + 0x100 * i + n.cfg.nodeId, transType,
                     entries)
  {
    hide TraceOk, SdoOk, MappingOk, MapValidate, Le32, Le16;
  }

  /** The other calls of the owner. */
  lemma OwnerCalls<A>(n: Node<A>, env: Env<A>, i: nat, ms: u16, app: A)
    requires NodeOk(n)
    ensures var m := Next(n, env, RequestTpdo(i));
      && m == n.(tpdo := m.tpdo) && |m.tpdo| == |n.tpdo|
      && forall j | 0 <= j < |n.tpdo| :: m.tpdo[j] == if j == i then n.tpdo[j].(haveLast := false) else n.tpdo[j]
    ensures var m := Next(n, env, SetHeartbeat(ms));
      Shape(m) && m == n.(cfg := m.cfg, hbLast := n.now) && OdRead(m, env, 0x1017, 0) == Data(Le16(ms))
    ensures Next(n, env, AppChange(app)).app == app
  {
    hide TraceOk, SdoOk, MappingOk, Le16;
  }

  /** An emergency sets or clears its bits of the error register, and tells code, register
      and manufacturer bytes at 0x80 + node, unless the node is stopped. */
  lemma EmergencyTells<A>(n: Node<A>, env: Env<A>, code: u16, bits: u8, mfr: seq<u8>)
    requires NodeOk(n) && |mfr| == 5
    ensures var m := Next(n, env, EmergencyCall(code, bits, mfr));
      && m.errorRegister == (if code == 0 then AndNot8(n.errorRegister, bits) else Or8(n.errorRegister, bits))
      && m == n.(errorRegister := m.errorRegister, trace := m.trace)
      && if n.nmt == STOPPED then m.trace == n.trace
         else
           var d := Le16(code) + [m.errorRegister] + mfr;
           |d| == 8 &&
           var f := Frame(0x80 + n.cfg.nodeId, 8, false, d);
           m.trace == n.trace + [Tx(f, env.accepts(n.trace, f), EMCY, n.nmt)]
  {
    hide TraceOk, SdoOk, MappingOk, Or8, AndNot8, Le16;
    var m := Next(n, env, EmergencyCall(code, bits, mfr));
    var d := Le16(code) + [m.errorRegister] + mfr;
    assert |d| == 8 && Pad8(d) == d;
  }

  // ---------------------------------------------------------------- ticks

  /** A transfer that nobody continues for more than a second is ended by the next tick, with
      the abort frame for it; until then a tick leaves it alone. */
  lemma Timeout<A>(n: Node<A>, env: Env<A>, now: u32)
    requires NodeOk(n)
    ensures var m := Ticked(n, env, now);
      if n.sdo.Idle? || Sub32(now, n.sdo.last) <= 1000 then m.sdo == n.sdo
      else m.sdo == Idle && 1 <= n.cfg.nodeId <= 127 && Tells(m.trace, |n.trace|, n.cfg.nodeId, n.sdo.index, n.sdo.sub)
  {
    hide NodeOk, HeartbeatTick, TimedOut, TpdoTickFrom, Sub32, Tells, Beats;
    NodeTransferOk(n);
    Number(n);
    var a := n.(now := now);
    var h := HeartbeatTick(a, env);
    var t := TimedOut(h, env);
    BeatGrows(a, env);
    TimedOutBeats(h, env);
    TimedOutTells(h, env);
    TickFromGrows(t, env, 0);
    if !n.sdo.Idle? && Sub32(now, n.sdo.last) > 1000 {
      TellsLater(t.trace, Ticked(n, env, now).trace, |h.trace|, |n.trace|, n.cfg.nodeId, n.sdo.index, n.sdo.sub);
    }
  }

  /** From `k` on the trace has the abort frame for a transfer that timed out. */
  predicate Tells(trace: seq<Event>, k: nat, nodeId: nat, index: u16, sub: u8)
    requires nodeId <= 127
  {
    exists i :: k <= i < |trace| && trace[i].Tx? && trace[i].kind == SDO
                && trace[i].frame == AbortFrame(nodeId, index, sub, 0x0504_0000)
  }

  lemma TimedOutTells<A>(h: Node<A>, env: Env<A>)
    requires Shape(h)
    ensures var t := TimedOut(h, env);
      if h.sdo.Idle? || Sub32(h.now, h.sdo.last) <= 1000 then t == h
      else t.sdo == Idle && Tells(t.trace, |h.trace|, h.cfg.nodeId, h.sdo.index, h.sdo.sub)
  {
    hide Aborted, Sub32, AbortFrame;
    if !h.sdo.Idle? && Sub32(h.now, h.sdo.last) > 1000 {
      AbortSends(h, env, h.sdo.index, h.sdo.sub, ABORT_TIMEOUT);
      assert TimedOut(h, env).trace[|h.trace|].Tx?;
    }
  }

  lemma TellsLater(a: seq<Event>, b: seq<Event>, k: nat, j: nat, nodeId: nat, index: u16, sub: u8)
    requires nodeId <= 127 && j <= k && |a| <= |b| && b[..|a|] == a && Tells(a, k, nodeId, index, sub)
    ensures Tells(b, j, nodeId, index, sub)
  {
    var i :| k <= i < |a| && a[i].Tx? && a[i].kind == SDO
             && a[i].frame == AbortFrame(nodeId, index, sub, 0x0504_0000);
    assert b[i] == b[..|a|][i];
  }

  /** The bytes of a heartbeat: boot-up until the driver has taken one, then the state. */
  function BeatFrame(nodeId: nat, state: u8): Frame
    requires nodeId <= 127
  {
    Frame(0x700 + nodeId, 1, false, [state, 0, 0, 0, 0, 0, 0, 0])
  }

  /** The first thing a tick does: the boot-up message until the driver takes it, then a
      heartbeat whenever the period, if there is one, has passed since the last. */
  lemma BeatGrows<A>(a: Node<A>, env: Env<A>)
    requires Shape(a)
    ensures var h := HeartbeatTick(a, env);
      var beat := BeatFrame(a.cfg.nodeId, if a.bootup then 0 else NmtCode(a.nmt));
      var due := a.bootup || (a.cfg.heartbeat != 0 && Sub32(a.now, a.hbLast) >= a.cfg.heartbeat);
      var ok := env.accepts(a.trace, beat);
      && h == a.(bootup := h.bootup, hbLast := h.hbLast, trace := h.trace)
      && h.trace == (if due then a.trace + [Tx(beat, ok, HEARTBEAT, a.nmt)] else a.trace)
      && h.bootup == (a.bootup && !ok)
      && h.hbLast == if due && (ok || !a.bootup) then a.now else a.hbLast
  {
    assert forall x: u8 :: Pad8([x]) == [x, 0, 0, 0, 0, 0, 0, 0];
  }

  /** Number of heartbeats and boot-up messages in a trace. */
  function Beats(trace: seq<Event>): nat {
    if trace == [] then 0
    else
      var e := trace[|trace| - 1];
      Beats(trace[..|trace| - 1]) + if e.Tx? && e.kind == HEARTBEAT then 1 else 0
  }

  lemma BeatsStep(trace: seq<Event>, e: Event)
    ensures Beats(trace + [e]) == Beats(trace) + if e.Tx? && e.kind == HEARTBEAT then 1 else 0
  {
    assert (trace + [e])[..|trace|] == trace;
  }

  predicate NoBeats<A>(a: Node<A>, m: Node<A>) {
    && Beats(m.trace) == Beats(a.trace) && m.hbLast == a.hbLast && m.bootup == a.bootup
    && m.cfg == a.cfg && m.nmt == a.nmt && m.now == a.now && m.sdo == a.sdo
    && |a.trace| <= |m.trace| && m.trace[..|a.trace|] == a.trace
  }

  lemma TpdoSentGrows<A>(a: Node<A>, env: Env<A>, i: nat)
    requires Shape(a) && i < TPDO_COUNT
    ensures NoBeats(a, TpdoSent(a, env, i))
  {
    hide Packed, Beats;
    var p, r := a.tpdo[i], Current(a, env, a.tpdo[i]);
    if r.Payload? {
      var f := Frame(p.cobId % 0x800 % 0x800, |r.bytes|, false, Pad8(r.bytes));
      BeatsStep(a.trace, Tx(f, env.accepts(a.trace, f), PDO(i), a.nmt));
    }
  }

  lemma {:induction false} TickFromGrows<A>(a: Node<A>, env: Env<A>, i: nat)
    requires Shape(a) && i <= TPDO_COUNT
    ensures NoBeats(a, TpdoTickFrom(a, env, i))
    decreases TPDO_COUNT - i
  {
    hide Shape, TpdoSent, Due, Beats;
    if i < TPDO_COUNT {
      TpdoCount(a);
      TpdoSentGrows(a, env, i);
      var b := if Due(a, env, a.tpdo[i]) then TpdoSent(a, env, i) else a;
      TickFromGrows(b, env, i + 1);
      var m := TpdoTickFrom(b, env, i + 1);
      assert m.trace[..|a.trace|] == m.trace[..|b.trace|][..|a.trace|];
    }
  }

  lemma TpdoCount<A>(a: Node<A>)
    requires Shape(a)
    ensures |a.tpdo| == TPDO_COUNT && forall i | 0 <= i < TPDO_COUNT :: a.tpdo[i].mapCount <= |a.tpdo[i].entries|
  {
  }

  lemma TimedOutBeats<A>(h: Node<A>, env: Env<A>)
    ensures var t := TimedOut(h, env);
      && Beats(t.trace) == Beats(h.trace) && t.hbLast == h.hbLast && t.bootup == h.bootup && t.cfg == h.cfg
      && t.nmt == h.nmt && t.now == h.now && (Shape(h) ==> Shape(t))
  {
    hide Beats, Multiplexed;
    if !h.sdo.Idle? && Sub32(h.now, h.sdo.last) > SDO_TIMEOUT_MS {
      var d := Multiplexed(0x80, h.sdo.index, h.sdo.sub, Le32(ABORT_TIMEOUT));
      var f := Frame((0x580 + h.cfg.nodeId) % 0x800, 8, false, Pad8(d));
      BeatsStep(h.trace, Tx(f, env.accepts(h.trace, f), SDO, h.nmt));
    }
  }

  /** One tick of a booted node: a heartbeat exactly when the period has passed. */
  lemma BeatTick<A>(n: Node<A>, env: Env<A>, now: u32)
    requires NodeOk(n) && !n.bootup
    ensures var m := Ticked(n, env, now);
      var due := n.cfg.heartbeat != 0 && Sub32(now, n.hbLast) >= n.cfg.heartbeat;
      && Beats(m.trace) == Beats(n.trace) + (if due then 1 else 0)
      && m.hbLast == (if due then now else n.hbLast) && !m.bootup && m.cfg == n.cfg
  {
    hide NodeOk, HeartbeatTick, TimedOut, TpdoTickFrom, Sub32, Beats, BeatFrame;
    NodeTransferOk(n);
    var a := n.(now := now);
    var h := HeartbeatTick(a, env);
    BeatGrows(a, env);
    var beat := BeatFrame(a.cfg.nodeId, NmtCode(a.nmt));
    BeatsStep(a.trace, Tx(beat, env.accepts(a.trace, beat), HEARTBEAT, a.nmt));
    TimedOutBeats(h, env);
    TickFromGrows(TimedOut(h, env), env, 0);
  }

  /** The node after ticks at these times (in milliseconds that do not wrap). */
  function TickedAt<A>(n: Node<A>, env: Env<A>, times: seq<nat>): (m: Node<A>)
    requires NodeOk(n)
    ensures NodeOk(m)
  {
    if times == [] then n
    else
      var m := TickedAt(n, env, times[..|times| - 1]);
      TickedOk(m, env, Wrap32(times[|times| - 1]));
      Ticked(m, env, Wrap32(times[|times| - 1]))
  }

  /** Times do not run backwards, and stay within a clock period of `from`. */
  predicate Ascending(times: seq<nat>, from: nat) {
    && (forall i | 0 <= i < |times| :: from <= times[i] < from + TWO_32)
    && forall i, j | 0 <= i < j < |times| :: times[i] <= times[j]
  }

  /** A heartbeat follows the one before at the first tick after its period, and not
      before: through ticks at any times, with the last heartbeat at `from`. */
  lemma {:induction false} HeartbeatOnTime<A>(n: Node<A>, env: Env<A>, from: nat, times: seq<nat>)
    requires NodeOk(n) && !n.bootup && n.cfg.heartbeat > 0 && n.hbLast == Wrap32(from) && Ascending(times, from)
    requires forall i | 0 <= i < |times| - 1 :: times[i] < from + n.cfg.heartbeat
    ensures var m := TickedAt(n, env, times);
      && !m.bootup && m.cfg == n.cfg
      && if times != [] && times[|times| - 1] >= from + n.cfg.heartbeat then
           Beats(m.trace) == Beats(n.trace) + 1 && m.hbLast == Wrap32(times[|times| - 1])
         else Beats(m.trace) == Beats(n.trace) && m.hbLast == n.hbLast
  {
    hide NodeOk, Ticked, Beats;
    if times != [] {
      var k := |times| - 1;
      HeartbeatOnTime(n, env, from, times[..k]);
      var m := TickedAt(n, env, times[..k]);
      BeatTick(m, env, Wrap32(times[k]));
      ClockSince(times[k], from);
      assert k > 0 ==> times[..k][k - 1] == times[k - 1];
    }
  }

  lemma ClockSince(t: nat, from: nat)
    requires from <= t < from + TWO_32
    ensures Sub32(Wrap32(t), Wrap32(from)) == t - from
  {
  }
}
