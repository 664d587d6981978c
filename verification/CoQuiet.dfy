/** Steps that do not concern an SDO transfer: whatever they do, the transfer, the SDO
    frames sent and the objects written by SDO stay as they are. */
module CoQuiet {
  import opened Bytes
  import opened CoTypes
  import opened CoDictionary
  import opened CoPdo
  import opened CoSdo
  import opened CoNet
  import opened CoInvariant

  predicate IsSdo(e: Event) {
    if e.Tx? then e.kind == SDO else !e.source.Mapped?
  }

  /** The SDO part of a trace. */
  function View(trace: seq<Event>): seq<Event> {
    if trace == [] then []
    else View(trace[..|trace| - 1]) + if IsSdo(trace[|trace| - 1]) then [trace[|trace| - 1]] else []
  }

  lemma ViewStep(trace: seq<Event>, e: Event)
    ensures View(trace + [e]) == View(trace) + if IsSdo(e) then [e] else []
  {
    assert (trace + [e])[..|trace|] == trace;
  }

  /** `m` differs from `n` in nothing an SDO client can notice. */
  predicate Unnoticed<A>(n: Node<A>, m: Node<A>) {
    && m.sdo == n.sdo && m.cfg.nodeId == n.cfg.nodeId && View(m.trace) == View(n.trace)
    && (n.nmt != STOPPED ==> m.nmt != STOPPED)
  }

  lemma SentUnnoticed<A>(n: Node<A>, env: Env<A>, id: nat, data: seq<u8>, kind: Kind)
    requires |data| <= 8 && kind != SDO
    ensures Unnoticed(n, Sent(n, env, id, data, kind))
  {
    hide View;
    var f := Frame(id % 0x800, |data|, false, Pad8(data));
    ViewStep(n.trace, Tx(f, env.accepts(n.trace, f), kind, n.nmt));
  }

  lemma TpdoSentUnnoticed<A>(n: Node<A>, env: Env<A>, i: nat)
    requires Shape(n) && i < TPDO_COUNT
    ensures Unnoticed(n, TpdoSent(n, env, i))
  {
    hide View, Sent, Packed;
    var p := n.tpdo[i];
    if Current(n, env, p).Payload? {
      SentUnnoticed(n, env, p.cobId % 0x800, Current(n, env, p).bytes, PDO(i));
      SameButTrace(n, env, p.cobId % 0x800, Current(n, env, p).bytes, PDO(i));
    }
  }

  lemma {:induction false} TpdoTickUnnoticed<A>(n: Node<A>, env: Env<A>, i: nat)
    requires Shape(n) && i <= TPDO_COUNT
    ensures Unnoticed(n, TpdoTickFrom(n, env, i))
    decreases TPDO_COUNT - i
  {
    hide View, TpdoSent, Due, SameParameters;
    if i < TPDO_COUNT {
      var m := if Due(n, env, n.tpdo[i]) then TpdoSent(n, env, i) else n;
      TpdoSentUnnoticed(n, env, i);
      TpdoTickUnnoticed(m, env, i + 1);
    }
  }

  lemma {:induction false} SyncTpdosUnnoticed<A>(n: Node<A>, env: Env<A>, i: nat)
    requires Shape(n) && i <= TPDO_COUNT
    ensures Unnoticed(n, SyncTpdos(n, env, i))
    decreases TPDO_COUNT - i
  {
    hide View, SyncTpdo, SameParameters;
    if i < TPDO_COUNT {
      SyncTpdoUnnoticed(n, env, i);
      SyncTpdosUnnoticed(SyncTpdo(n, env, i), env, i + 1);
    }
  }

  lemma SyncTpdoUnnoticed<A>(n: Node<A>, env: Env<A>, i: nat)
    requires Shape(n) && i < TPDO_COUNT
    ensures Unnoticed(n, SyncTpdo(n, env, i))
  {
    hide View, TpdoSent, Changed, SameParameters;
    var p := n.tpdo[i];
    var m := n.(tpdo := n.tpdo[i := p.(syncCount := (p.syncCount + 1) % 0x100)]);
    TpdoSentUnnoticed(n, env, i);
    TpdoSentUnnoticed(m, env, i);
  }

  lemma EmergencyUnnoticed<A>(n: Node<A>, env: Env<A>, code: u16, errBits: u8, mfr: seq<u8>)
    requires |mfr| == 5
    ensures Unnoticed(n, Emergency(n, env, code, errBits, mfr))
  {
    hide View, Sent, Or8, AndNot8;
    var reg := if code == 0 then AndNot8(n.errorRegister, errBits) else Or8(n.errorRegister, errBits);
    SentUnnoticed(n.(errorRegister := reg), env, 0x80 + n.cfg.nodeId, Le16(code) + [reg] + mfr, EMCY);
  }

  lemma {:induction false} MappedWritesUnnoticed<A>(n: Node<A>, env: Env<A>, entries: seq<u32>, count: nat,
          data: Bytes8, i: nat)
    requires Shape(n) && MappingOk(entries, count, false) && i <= count
    ensures Unnoticed(n, MappedWrites(n, env, entries, count, data, i))
    decreases count - i
  {
    if i == count {
      assert MappedWrites(n, env, entries, count, data, i) == n;
    } else {
      MappedUnfold(n, env, entries, count, data, i);
      var part := data[NeedBytes(entries, i)..NeedBytes(entries, i) + EntryBits(entries[i]) / 8];
      var m := MappedWriteUnnoticed(n, env, entries[i], part);
      hide View, OdWrite, EntryIndex, EntrySub, EntryBits, Shape, NeedBytes, MappedWrites, MappingOk;
      MappedWritesUnnoticed(m, env, entries, count, data, i + 1);
    }
  }

  lemma MappedWriteUnnoticed<A>(n: Node<A>, env: Env<A>, e: u32, part: seq<u8>) returns (m: Node<A>)
    requires Shape(n) && EntryIndex(e) >= 0x2000
    ensures m == OdWrite(n, env, EntryIndex(e), EntrySub(e), part, Mapped).0 && Unnoticed(n, m)
  {
    hide View, EntryIndex, EntrySub, OdWrite, Shape;
    WriteBeyondProfile(n, env, EntryIndex(e), EntrySub(e), part, Mapped);
    var (m', code) := OdWrite(n, env, EntryIndex(e), EntrySub(e), part, Mapped);
    ViewStep(n.trace, Wrote(EntryIndex(e), EntrySub(e), part, code, Mapped));
    m := m';
  }

  lemma RpdoUnnoticed<A>(n: Node<A>, env: Env<A>, p: RPdo, data: Bytes8, len: u8)
    requires MappingsOk(n) && MappingOk(p.entries, p.mapCount, false)
    ensures Unnoticed(n, RpdoApplied(n, env, p, data, len))
  {
    hide View, Emergency, MappedWrites, MappingOk, Unnoticed;
    EmergencyUnnoticed(n, env, 0x8210, 1, [0, 0, 0, 0, 0]);
    MappedWritesUnnoticed(n, env, p.entries, p.mapCount, data, 0);
  }

  lemma SyncRpdoUnnoticed<A>(n: Node<A>, env: Env<A>, i: nat)
    requires MappingsOk(n) && i < RPDO_COUNT
    ensures Unnoticed(n, SyncRpdo(n, env, i))
  {
    hide View, RpdoApplied, MappingOk;
    var p := n.rpdo[i];
    var m := n.(rpdo := n.rpdo[i := p.(pending := false)]);
    assert MappingsOk(m);
    if p.pending {
      RpdoUnnoticed(m, env, p, p.data, p.len);
    }
  }

  lemma SyncUnnoticed<A>(n: Node<A>, env: Env<A>)
    requires NodeOk(n)
    ensures MappingsOk(n) && Unnoticed(n, SyncReceived(n, env))
  {
    if n.nmt == OPERATIONAL {
      var a := SyncTpdos(n, env, 0);
      SyncTpdosOk(n, env, 0);
      SyncTpdosUnnoticed(n, env, 0);
      SyncRpdoOk(a, env, 0);
      SyncRpdoUnnoticed(a, env, 0);
      SyncRpdoUnnoticed(SyncRpdo(a, env, 0), env, 1);
      hide View, SyncTpdos, SyncRpdo, MappingsOk, NodeOk;
      assert SyncReceived(n, env) == SyncRpdo(SyncRpdo(a, env, 0), env, 1);
    }
  }

  lemma PdoUnnoticed<A>(n: Node<A>, env: Env<A>, f: Frame)
    requires NodeOk(n)
    ensures MappingsOk(n) && Unnoticed(n, PdoReceived(n, env, f))
  {
    hide View, SdoOk, TraceOk, TpdoSent, RpdoApplied, MappingOk, FindTpdo, FindRpdo;
    if n.nmt == OPERATIONAL {
      if f.rtr {
        var k := FindTpdo(n.tpdo, f.id, 0);
        if k < TPDO_COUNT {
          TpdoSentUnnoticed(n, env, k);
        }
      } else {
        var k := FindRpdo(n.rpdo, f.id, 0);
        if k < RPDO_COUNT {
          RpdoUnnoticed(n, env, n.rpdo[k], f.data, f.dlc);
        }
      }
    }
  }

  /** A step that does not concern the transfer: no SDO request, no NMT stop or reset, and
      a tick only within the transfer timeout. */
  predicate Quiet<A>(n: Node<A>, s: Step<A>) {
    match s
    case Rx(f, now) =>
      && f.id != 0x600 + n.cfg.nodeId
      && (f.id == 0 && f.dlc >= 2 && (f.data[1] == 0 || f.data[1] == n.cfg.nodeId) ==> f.data[0] !in {0x02, 0x81, 0x82})
    case Tick(now) => n.sdo.Idle? || Sub32(now, n.sdo.last) <= SDO_TIMEOUT_MS
    case EmergencyCall(_, _, mfr) => |mfr| == 5
    case _ => true
  }

  lemma TickUnnoticed<A>(n: Node<A>, env: Env<A>, now: u32)
    requires NodeOk(n) && Quiet(n, Tick(now))
    ensures Unnoticed(n, Ticked(n, env, now))
  {
    AtTime(n, now);
    var a := n.(now := now);
    HeartbeatTickOk(a, env);
    HeartbeatUnnoticed(a, env);
    var b := HeartbeatTick(a, env);
    NodeTransferOk(b);
    hide View, HeartbeatTick, NodeOk, TpdoTickFrom, Shape;
    assert TimedOut(b, env) == b by { HeartbeatKeepsNow(a, env); }
    TpdoTickUnnoticed(b, env, 0);
  }

  lemma HeartbeatKeepsNow<A>(n: Node<A>, env: Env<A>)
    ensures HeartbeatTick(n, env).now == n.now && HeartbeatTick(n, env).nmt == n.nmt
  {
  }

  lemma HeartbeatUnnoticed<A>(n: Node<A>, env: Env<A>)
    ensures Unnoticed(n, HeartbeatTick(n, env))
  {
    hide View, Sent, Accepted;
    SentUnnoticed(n, env, 0x700 + n.cfg.nodeId, [0], HEARTBEAT);
    SentUnnoticed(n, env, 0x700 + n.cfg.nodeId, [NmtCode(n.nmt)], HEARTBEAT);
  }

  lemma QuietUnnoticed<A>(n: Node<A>, env: Env<A>, s: Step<A>)
    requires NodeOk(n) && Quiet(n, s)
    ensures Unnoticed(n, Next(n, env, s))
  {
    match s
    case Rx(f, now) =>
      AtTime(n, now);
      var m := n.(now := now);
      NodeTransferOk(m);
      hide NodeOk, View, SyncReceived, PdoReceived, SdoReceived;
      if f.id == 0 {
      } else if f.id == 0x80 && !f.rtr {
        SyncUnnoticed(m, env);
      } else {
        PdoUnnoticed(m, env, f);
      }
    case Tick(now) => TickUnnoticed(n, env, now);
    case EmergencyCall(code, errBits, mfr) => EmergencyUnnoticed(n, env, code, errBits, mfr);
    case _ => hide View, NodeOk, MapValidate;
  }
}
