/** What ticks, SYNCs and remote requests do to one TPDO: whether it is sent, and what
    becomes of its run-time state. */
module CoEffects {
  import opened Bytes
  import opened CoTypes
  import opened CoDictionary
  import opened CoPdo
  import opened CoSdo
  import opened CoNet
  import opened CoInvariant

  /** How often TPDO `i` went out: frames the driver took. */
  function Sends(trace: seq<Event>, i: nat): nat {
    if trace == [] then 0
    else
      var e := trace[|trace| - 1];
      Sends(trace[..|trace| - 1], i) + if e.Tx? && e.kind == PDO(i) && e.accepted then 1 else 0
  }

  lemma SendsStep(trace: seq<Event>, e: Event, i: nat)
    ensures Sends(trace + [e], i) == Sends(trace, i) + if e.Tx? && e.kind == PDO(i) && e.accepted then 1 else 0
  {
    assert (trace + [e])[..|trace|] == trace;
  }

  /** Nothing happened to TPDO `i`. */
  predicate Untouched<A>(n: Node<A>, m: Node<A>, i: nat)
    requires Shape(n) && Shape(m) && i < TPDO_COUNT
  {
    m.tpdo[i] == n.tpdo[i] && Sends(m.trace, i) == Sends(n.trace, i)
  }

  /** TPDO `i`, until then in state `p`, was sent once, with the values its objects have. */
  predicate SentNow<A>(n: Node<A>, m: Node<A>, env: Env<A>, i: nat, p: TPdo)
    requires Shape(n) && Shape(m) && i < TPDO_COUNT && p.mapCount <= |p.entries|
  {
    var r := Current(n, env, p);
    && r.Payload? && Sends(m.trace, i) == Sends(n.trace, i) + 1
    && m.tpdo[i] == p.(lastTx := n.now, haveLast := true, lastData := r.bytes, syncCount := 0)
  }

  ghost predicate AlwaysAccepts<A>(env: Env<A>) {
    forall trace, f :: env.accepts(trace, f)
  }

  /** The objects read the same in both states. */
  ghost predicate ReadsAlike<A>(n: Node<A>, m: Node<A>)
    requires Shape(n) && Shape(m)
  {
    && SameParameters(n, m.(sdo := n.sdo, hbLast := n.hbLast, bootup := n.bootup))
    && m.errorRegister == n.errorRegister && m.app == n.app
  }

  lemma OdReadsAlike<A>(n: Node<A>, m: Node<A>, env: Env<A>, index: u16, sub: u8)
    requires Shape(n) && Shape(m) && ReadsAlike(n, m)
    ensures OdRead(n, env, index, sub) == OdRead(m, env, index, sub)
  {
    hide Le32, Le16, MapRead, Str;
  }

  lemma {:induction false} PackedAlike<A>(n: Node<A>, m: Node<A>, env: Env<A>, entries: seq<u32>, count: nat)
    requires Shape(n) && Shape(m) && ReadsAlike(n, m) && count <= |entries|
    ensures Packed(n, env, entries, count) == Packed(m, env, entries, count)
  {
    hide OdRead, EntryIndex, EntrySub, EntryBits, Shape, ReadsAlike;
    if count > 0 {
      PackedAlike(n, m, env, entries, count - 1);
      OdReadsAlike(n, m, env, EntryIndex(entries[count - 1]), EntrySub(entries[count - 1]));
    }
  }

  /** Sending TPDO `i` if it can be read and the driver takes it. */
  lemma SendEffect<A>(n: Node<A>, env: Env<A>, i: nat)
    requires Shape(n) && i < TPDO_COUNT
    ensures var m := TpdoSent(n, env, i);
      && ReadsAlike(n, m)
      && (Untouched(n, m, i) || SentNow(n, m, env, i, n.tpdo[i]))
      && (Current(n, env, n.tpdo[i]).Payload? && AlwaysAccepts(env) ==> SentNow(n, m, env, i, n.tpdo[i]))
      && forall j | 0 <= j < TPDO_COUNT && j != i :: Untouched(n, m, j)
  {
    hide Packed, Sends;
    var p := n.tpdo[i];
    var r := Current(n, env, p);
    if r.Payload? {
      var f := Frame(p.cobId % 0x800 % 0x800, |r.bytes|, false, Pad8(r.bytes));
      forall j: nat | j < TPDO_COUNT
        ensures Sends(TpdoSent(n, env, i).trace, j)
             == Sends(n.trace, j) + if j == i && env.accepts(n.trace, f) then 1 else 0
      {
        SendsStep(n.trace, Tx(f, env.accepts(n.trace, f), PDO(i), n.nmt), j);
      }
    }
  }

  /** TPDO `i` becomes `q`; if it wants to be sent and can be read it is sent, unless the
      driver does not take the frame. */
  ghost predicate Outcome<A>(n: Node<A>, m: Node<A>, env: Env<A>, i: nat, q: TPdo, wants: bool)
    requires Shape(n) && Shape(m) && i < TPDO_COUNT && q.mapCount <= |q.entries|
  {
    || (wants && SentNow(n, m, env, i, q))
    || (m.tpdo[i] == q && Sends(m.trace, i) == Sends(n.trace, i)
        && (wants && Current(n, env, q).Payload? ==> !AlwaysAccepts(env)))
  }

  // ---------------------------------------------------------------- ticks

  lemma DueAlike<A>(n: Node<A>, m: Node<A>, env: Env<A>, p: TPdo)
    requires Shape(n) && Shape(m) && ReadsAlike(n, m) && p.mapCount <= |p.entries|
    ensures Current(n, env, p) == Current(m, env, p)
    ensures Due(n, env, p) == Due(m, env, p) && Changed(n, env, p) == Changed(m, env, p)
  {
    hide Packed, Shape;
    PackedAlike(n, m, env, p.entries, p.mapCount);
  }

  /** What happens from a state that looks like `n` to TPDO `i` happens from `n`. */
  lemma OutcomeAlike<A>(n: Node<A>, k: Node<A>, m: Node<A>, env: Env<A>, i: nat, q: TPdo, wants: bool)
    requires Shape(n) && Shape(k) && Shape(m) && i < TPDO_COUNT && q.mapCount <= |q.entries|
    requires ReadsAlike(n, k) && Sends(k.trace, i) == Sends(n.trace, i) && Outcome(k, m, env, i, q, wants)
    ensures Outcome(n, m, env, i, q, wants)
  {
    hide Packed, Shape, Sends, Due, Changed, AlwaysAccepts, Current;
    DueAlike(n, k, env, q);
  }

  /** ... and what happens afterwards to other PDOs leaves it at that. */
  lemma OutcomeThen<A>(n: Node<A>, k: Node<A>, m: Node<A>, env: Env<A>, i: nat, q: TPdo, wants: bool)
    requires Shape(n) && Shape(k) && Shape(m) && i < TPDO_COUNT && q.mapCount <= |q.entries|
    requires Outcome(n, k, env, i, q, wants) && Untouched(k, m, i)
    ensures Outcome(n, m, env, i, q, wants)
  {
    hide Packed, Shape, Sends, AlwaysAccepts, Current;
  }

  lemma AlikeTransitive<A>(a: Node<A>, b: Node<A>, c: Node<A>)
    requires Shape(a) && Shape(b) && Shape(c) && ReadsAlike(a, b) && ReadsAlike(b, c)
    ensures ReadsAlike(a, c)
  {
  }

  /** One TPDO's turn in a tick. */
  function TickOne<A>(n: Node<A>, env: Env<A>, j: nat): (m: Node<A>)
    requires Shape(n) && j < TPDO_COUNT
    ensures Shape(m)
  {
    if Due(n, env, n.tpdo[j]) then TpdoSent(n, env, j) else n
  }

  lemma TickOneEffect<A>(n: Node<A>, env: Env<A>, j: nat, i: nat)
    requires Shape(n) && i < TPDO_COUNT && j < TPDO_COUNT
    ensures var m := TickOne(n, env, j);
      && ReadsAlike(n, m)
      && if i == j then Outcome(n, m, env, i, n.tpdo[i], Due(n, env, n.tpdo[i])) else Untouched(n, m, i)
  {
    hide Due, TpdoSent, Sends, Current, AlwaysAccepts;
    SendEffect(n, env, j);
  }

  lemma {:induction false} TickFromEffect<A>(n: Node<A>, env: Env<A>, j: nat, i: nat)
    requires Shape(n) && i < TPDO_COUNT && j <= TPDO_COUNT
    ensures var m := TpdoTickFrom(n, env, j);
      if i >= j then Outcome(n, m, env, i, n.tpdo[i], Due(n, env, n.tpdo[i])) else Untouched(n, m, i)
    decreases TPDO_COUNT - j
  {
    hide Due, TpdoSent, Sends, Current, AlwaysAccepts, ReadsAlike, Outcome, SentNow, SameParameters;
    if j < TPDO_COUNT {
      var k := TickOne(n, env, j);
      var m := TpdoTickFrom(k, env, j + 1);
      TickOneEffect(n, env, j, i);
      TickFromEffect(k, env, j + 1, i);
      if i == j {
        OutcomeThen(n, k, m, env, i, n.tpdo[i], Due(n, env, n.tpdo[i]));
      } else if i > j {
        DueAlike(n, k, env, n.tpdo[i]);
        OutcomeAlike(n, k, m, env, i, n.tpdo[i], Due(n, env, n.tpdo[i]));
      }
    }
  }

  lemma OtherSentAlike<A>(n: Node<A>, env: Env<A>, id: nat, data: seq<u8>, kind: Kind, i: nat)
    requires |data| <= 8 && !kind.PDO?
    ensures Sends(Sent(n, env, id, data, kind).trace, i) == Sends(n.trace, i)
  {
    hide Sends;
    var f := Frame(id % 0x800, |data|, false, Pad8(data));
    SendsStep(n.trace, Tx(f, env.accepts(n.trace, f), kind, n.nmt), i);
  }

  /** Heartbeat and transfer timeout come first and concern no PDO. */
  lemma BeforeTpdos<A>(n: Node<A>, env: Env<A>, i: nat)
    requires Shape(n) && i < TPDO_COUNT
    ensures var m := TimedOut(HeartbeatTick(n, env), env);
      Shape(m) && ReadsAlike(n, m) && Untouched(n, m, i)
  {
    hide Sends, Sent, Accepted, Multiplexed;
    var id := 0x700 + n.cfg.nodeId;
    OtherSentAlike(n, env, id, [0], HEARTBEAT, i);
    OtherSentAlike(n, env, id, [NmtCode(n.nmt)], HEARTBEAT, i);
    SameButTrace(n, env, id, [0], HEARTBEAT);
    SameButTrace(n, env, id, [NmtCode(n.nmt)], HEARTBEAT);
    var h := HeartbeatTick(n, env);
    TimeoutEffect(h, env, i);
  }

  lemma TimeoutEffect<A>(h: Node<A>, env: Env<A>, i: nat)
    requires Shape(h) && i < TPDO_COUNT
    ensures var m := TimedOut(h, env);
      Shape(m) && ReadsAlike(h, m) && Untouched(h, m, i)
  {
    hide Sends, Sent, Multiplexed;
    if !h.sdo.Idle? {
      var d := Multiplexed(0x80, h.sdo.index, h.sdo.sub, Le32(ABORT_TIMEOUT));
      OtherSentAlike(h.(sdo := Idle), env, 0x580 + h.cfg.nodeId, d, SDO, i);
      SameButTrace(h.(sdo := Idle), env, 0x580 + h.cfg.nodeId, d, SDO);
    }
  }

  /** A tick sends a TPDO if it is due, and does nothing else to it. */
  lemma TickEffect<A>(n: Node<A>, env: Env<A>, now: u32, i: nat)
    requires NodeOk(n) && i < TPDO_COUNT
    ensures var m := Ticked(n, env, now); var a := n.(now := now);
      Shape(a) && Shape(m) && Outcome(a, m, env, i, n.tpdo[i], n.nmt == OPERATIONAL && Due(a, env, n.tpdo[i]))
  {
    hide NodeOk, TimedOut, HeartbeatTick, Outcome, ReadsAlike, TpdoTickFrom, Due;
    NodeTransferOk(n);
    var a := n.(now := now);
    BeforeTpdos(a, env, i);
    var k := TimedOut(HeartbeatTick(a, env), env);
    TickFromEffect(k, env, 0, i);
    DueAlike(a, k, env, n.tpdo[i]);
    TickKeepsNmt(a, k);
    NothingYet(k, env, i);
    OutcomeAlike(a, k, Ticked(n, env, now), env, i, n.tpdo[i], n.nmt == OPERATIONAL && Due(a, env, n.tpdo[i]));
  }

  lemma NothingYet<A>(k: Node<A>, env: Env<A>, i: nat)
    requires Shape(k) && i < TPDO_COUNT
    ensures Outcome(k, k, env, i, k.tpdo[i], false)
  {
  }

  lemma TickKeepsNmt<A>(a: Node<A>, k: Node<A>)
    requires Shape(a) && Shape(k) && ReadsAlike(a, k)
    ensures k.nmt == a.nmt
  {
  }

  // ---------------------------------------------------------------- SYNC

  function Counted(p: TPdo): TPdo {
    if p.Enabled() && 1 <= p.transType <= 240 then p.(syncCount := (p.syncCount + 1) % 0x100) else p
  }

  /** A SYNC sends an acyclic TPDO if its data has changed, and a cyclic one if it has now
      seen as many SYNCs as its type says. */
  predicate SyncWants<A>(n: Node<A>, env: Env<A>, p: TPdo)
    requires Shape(n) && p.mapCount <= |p.entries|
  {
    && p.Enabled()
    && if p.transType == 0 then Changed(n, env, p) else p.transType <= 240 && Counted(p).syncCount >= p.transType
  }

  lemma SyncTpdoEffect<A>(n: Node<A>, env: Env<A>, j: nat, i: nat)
    requires Shape(n) && i < TPDO_COUNT && j < TPDO_COUNT
    ensures var m := SyncTpdo(n, env, j);
      && ReadsAlike(n, m)
      && if i == j then Outcome(n, m, env, i, Counted(n.tpdo[i]), SyncWants(n, env, n.tpdo[i]))
         else Untouched(n, m, i)
  {
    hide Due, TpdoSent, Sends, Current, AlwaysAccepts, Changed, Outcome, SentNow, ReadsAlike;
    var p := n.tpdo[j];
    var m := n.(tpdo := n.tpdo[j := Counted(p)]);
    SendEffect(n, env, j);
    SendEffect(m, env, j);
    CountedAlike(n, j);
    AlikeTransitive(n, m, TpdoSent(m, env, j));
    if i == j {
      SentOutcome(n, env, i);
      SentOutcome(m, env, i);
      NothingYet(n, env, i);
      CountedOutcome(n, env, i);
      OutcomeAlike(n, m, TpdoSent(m, env, i), env, i, Counted(p), true);
    } else {
      assert Untouched(n, TpdoSent(n, env, j), i) && Untouched(m, TpdoSent(m, env, j), i);
    }
  }

  lemma SentOutcome<A>(n: Node<A>, env: Env<A>, i: nat)
    requires Shape(n) && i < TPDO_COUNT
    ensures Outcome(n, TpdoSent(n, env, i), env, i, n.tpdo[i], true)
  {
    hide TpdoSent, Sends, Current, AlwaysAccepts;
    SendEffect(n, env, i);
  }

  lemma CountedAlike<A>(n: Node<A>, j: nat)
    requires Shape(n) && j < TPDO_COUNT
    ensures var m := n.(tpdo := n.tpdo[j := Counted(n.tpdo[j])]);
      Shape(m) && ReadsAlike(n, m) && ReadsAlike(n, n)
  {
  }

  lemma CountedOutcome<A>(n: Node<A>, env: Env<A>, i: nat)
    requires Shape(n) && i < TPDO_COUNT
    ensures var m := n.(tpdo := n.tpdo[i := Counted(n.tpdo[i])]);
      Shape(m) && Outcome(n, m, env, i, Counted(n.tpdo[i]), false)
  {
  }

  lemma WantsAlike<A>(n: Node<A>, m: Node<A>, env: Env<A>, p: TPdo)
    requires Shape(n) && Shape(m) && ReadsAlike(n, m) && p.mapCount <= |p.entries|
    ensures SyncWants(n, env, p) == SyncWants(m, env, p)
  {
    hide Changed, Shape, ReadsAlike, Counted;
    DueAlike(n, m, env, p);
  }

  lemma {:induction false} SyncTpdosEffect<A>(n: Node<A>, env: Env<A>, j: nat, i: nat)
    requires Shape(n) && i < TPDO_COUNT && j <= TPDO_COUNT
    ensures var m := SyncTpdos(n, env, j);
      if i >= j then Outcome(n, m, env, i, Counted(n.tpdo[i]), SyncWants(n, env, n.tpdo[i])) else Untouched(n, m, i)
    decreases TPDO_COUNT - j
  {
    hide SyncTpdo, SyncWants, Counted, Sends, AlwaysAccepts, ReadsAlike, Outcome, SameParameters;
    if j < TPDO_COUNT {
      var k := SyncTpdo(n, env, j);
      var m := SyncTpdos(k, env, j + 1);
      SyncTpdoEffect(n, env, j, i);
      SyncTpdosEffect(k, env, j + 1, i);
      var p := n.tpdo[i];
      CountedCount(p);
      if i == j {
        OutcomeThen(n, k, m, env, i, Counted(p), SyncWants(n, env, p));
      } else if i > j {
        WantsAlike(n, k, env, p);
        OutcomeAlike(n, k, m, env, i, Counted(p), SyncWants(n, env, p));
      }
    }
  }

  lemma CountedCount(p: TPdo)
    ensures Counted(p) == p.(syncCount := Counted(p).syncCount)
  {
  }

  // ---------------------------------------------------------------- writes and RPDOs

  lemma {:induction false} MappedWritesSends<A>(n: Node<A>, env: Env<A>, entries: seq<u32>, count: nat, data: Bytes8,
          k: nat, i: nat)
    requires Shape(n) && MappingOk(entries, count, false) && k <= count
    ensures Sends(MappedWrites(n, env, entries, count, data, k).trace, i) == Sends(n.trace, i)
    decreases count - k
  {
    hide OdWrite, EntryIndex, EntrySub, EntryBits, NeedBytes, Shape, Sends, MappingOk;
    if k < count {
      MappedUnfold(n, env, entries, count, data, k);
      var part := data[NeedBytes(entries, k)..NeedBytes(entries, k) + EntryBits(entries[k]) / 8];
      WriteSends(n, env, EntryIndex(entries[k]), EntrySub(entries[k]), part, Mapped, i);
      MappedWritesSends(OdWrite(n, env, EntryIndex(entries[k]), EntrySub(entries[k]), part, Mapped).0, env, entries,
          count, data, k + 1, i);
    } else {
      assert MappedWrites(n, env, entries, count, data, k) == n;
    }
  }

  lemma WriteSends<A>(n: Node<A>, env: Env<A>, index: u16, sub: u8, data: seq<u8>, source: Source, i: nat)
    requires Shape(n)
    ensures Sends(OdWrite(n, env, index, sub, data, source).0.trace, i) == Sends(n.trace, i)
  {
    hide Sends, InternalWrite;
    WriteTrace(n, env, index, sub, data);
    SendsStep(n.trace, Wrote(index, sub, data, OdWrite(n, env, index, sub, data, source).1, source), i);
  }

  lemma WriteTrace<A>(n: Node<A>, env: Env<A>, index: u16, sub: u8, data: seq<u8>)
    requires Shape(n)
    ensures InternalWrite(n, env, index, sub, data).0.trace == n.trace
  {
    hide MapValidate;
  }

  lemma RpdoEffect<A>(n: Node<A>, env: Env<A>, p: RPdo, data: Bytes8, len: u8, i: nat)
    requires MappingsOk(n) && MappingOk(p.entries, p.mapCount, false) && i < TPDO_COUNT
    ensures Untouched(n, RpdoApplied(n, env, p, data, len), i)
  {
    hide Sends, MappingOk, Sent, MappedWrites, NeedBytes, Or8, AndNot8;
    MappedWritesSends(n, env, p.entries, p.mapCount, data, 0, i);
    EmergencyEffect(n, env, 0x8210, 1, [0, 0, 0, 0, 0], i);
  }

  lemma EmergencyEffect<A>(n: Node<A>, env: Env<A>, code: u16, errBits: u8, mfr: seq<u8>, i: nat)
    requires Shape(n) && |mfr| == 5 && i < TPDO_COUNT
    ensures Shape(Emergency(n, env, code, errBits, mfr)) && Untouched(n, Emergency(n, env, code, errBits, mfr), i)
  {
    hide Sends, Or8, AndNot8, Le16;
    var reg := if code == 0 then AndNot8(n.errorRegister, errBits) else Or8(n.errorRegister, errBits);
    OtherSentAlike(n.(errorRegister := reg), env, 0x80 + n.cfg.nodeId, Le16(code) + [reg] + mfr, EMCY, i);
  }

  lemma SyncRpdoEffect<A>(n: Node<A>, env: Env<A>, j: nat, i: nat)
    requires MappingsOk(n) && j < RPDO_COUNT && i < TPDO_COUNT
    ensures Untouched(n, SyncRpdo(n, env, j), i)
  {
    hide Sends, MappingOk, RpdoApplied;
    var p := n.rpdo[j];
    var m := n.(rpdo := n.rpdo[j := p.(pending := false)]);
    assert MappingsOk(m);
    if p.pending {
      RpdoEffect(m, env, p, p.data, p.len, i);
    }
  }

  /** What a SYNC does to a TPDO. */
  lemma SyncEffect<A>(n: Node<A>, env: Env<A>, i: nat)
    requires MappingsOk(n) && n.nmt == OPERATIONAL && i < TPDO_COUNT
    ensures Outcome(n, SyncReceived(n, env), env, i, Counted(n.tpdo[i]), SyncWants(n, env, n.tpdo[i]))
  {
    hide Sends, MappingsOk, SyncTpdos, SyncRpdo, Outcome, SyncWants, Counted, SameParameters;
    ShapeOf(n);
    SyncTpdosEffect(n, env, 0, i);
    var a := SyncTpdos(n, env, 0);
    SameKeepsMappings(n, a);
    var b := SyncRpdo(a, env, 0);
    SyncRpdoEffect(a, env, 0, i);
    var c := SyncRpdo(b, env, 1);
    SyncRpdoEffect(b, env, 1, i);
    ShapeOf(b);
    ShapeOf(c);
    CountedCount(n.tpdo[i]);
    OutcomeThen(n, a, b, env, i, Counted(n.tpdo[i]), SyncWants(n, env, n.tpdo[i]));
    OutcomeThen(n, b, c, env, i, Counted(n.tpdo[i]), SyncWants(n, env, n.tpdo[i]));
  }

  lemma ShapeOf<A>(n: Node<A>)
    requires MappingsOk(n)
    ensures Shape(n)
  {
  }

  /** A PDO frame: a remote request sends the first TPDO with that COB-ID, nothing else
      touches a TPDO. */
  lemma PdoEffect<A>(n: Node<A>, env: Env<A>, f: Frame, i: nat)
    requires MappingsOk(n) && i < TPDO_COUNT
    ensures Outcome(n, PdoReceived(n, env, f), env, i, n.tpdo[i],
                    n.nmt == OPERATIONAL && f.rtr && FindTpdo(n.tpdo, f.id, 0) == i)
  {
    hide Sends, MappingOk, TpdoSent, RpdoApplied, FindTpdo, FindRpdo, SentNow, Current, AlwaysAccepts;
    if n.nmt == OPERATIONAL {
      if f.rtr {
        var k := FindTpdo(n.tpdo, f.id, 0);
        if k < TPDO_COUNT {
          SendEffect(n, env, k);
          assert k != i ==> Untouched(n, TpdoSent(n, env, k), i);
        }
      } else {
        var k := FindRpdo(n.rpdo, f.id, 0);
        if k < RPDO_COUNT {
          RpdoEffect(n, env, n.rpdo[k], f.data, f.dlc, i);
        }
      }
    }
  }

  // ---------------------------------------------------------------- SDO

  /** A write to the communication or mapping parameters of TPDO `i`. */
  predicate WritesTpdo(e: Event, i: nat) {
    e.Wrote? && e.index in {0x1800 + i, 0x1A00 + i}
  }

  function ParamWrites(trace: seq<Event>, i: nat): nat {
    if trace == [] then 0
    else ParamWrites(trace[..|trace| - 1], i) + if WritesTpdo(trace[|trace| - 1], i) then 1 else 0
  }

  lemma ParamWritesStep(trace: seq<Event>, e: Event, i: nat)
    ensures ParamWrites(trace + [e], i) == ParamWrites(trace, i) + if WritesTpdo(e, i) then 1 else 0
  {
    assert (trace + [e])[..|trace|] == trace;
  }

  /** A TPDO that was not sent: it may at most count as never sent from now on. */
  predicate Kept(p: TPdo, q: TPdo) {
    q.haveLast ==> p.haveLast && q.lastTx == p.lastTx
  }

  /** Nothing is sent, and TPDO `i` stays as it is unless its parameters are written. */
  predicate LeftAlone<A>(n: Node<A>, m: Node<A>, i: nat)
    requires Shape(n) && Shape(m) && i < TPDO_COUNT
  {
    && Sends(m.trace, i) == Sends(n.trace, i) && ParamWrites(m.trace, i) >= ParamWrites(n.trace, i)
    && Kept(n.tpdo[i], m.tpdo[i])
    && (ParamWrites(m.trace, i) == ParamWrites(n.trace, i) ==> m.tpdo[i] == n.tpdo[i])
  }

  lemma WriteEffect<A>(n: Node<A>, env: Env<A>, index: u16, sub: u8, data: seq<u8>, source: Source, i: nat)
    requires Shape(n) && i < TPDO_COUNT
    ensures Shape(OdWrite(n, env, index, sub, data, source).0)
    ensures LeftAlone(n, OdWrite(n, env, index, sub, data, source).0, i)
  {
    hide Sends, ParamWrites, InternalWrite;
    WriteSends(n, env, index, sub, data, source, i);
    WriteTrace(n, env, index, sub, data);
    OtherParameters(n, env, index, sub, data, i);
    ParamWritesStep(n.trace, Wrote(index, sub, data, OdWrite(n, env, index, sub, data, source).1, source), i);
  }

  lemma OtherParameters<A>(n: Node<A>, env: Env<A>, index: u16, sub: u8, data: seq<u8>, i: nat)
    requires Shape(n) && i < TPDO_COUNT
    ensures var m := InternalWrite(n, env, index, sub, data).0;
      && Shape(m) && Kept(n.tpdo[i], m.tpdo[i])
      && (index !in {0x1800 + i, 0x1A00 + i} ==> m.tpdo[i] == n.tpdo[i])
  {
    hide MapValidate, FromLe32, FromLe16;
  }

  lemma ReplyEffect<A>(n: Node<A>, env: Env<A>, d: Bytes8, i: nat)
    requires Shape(n) && i < TPDO_COUNT
    ensures var m := Replied(n, env, d); Shape(m) && LeftAlone(n, m, i)
  {
    hide Sends, ParamWrites;
    OtherSentAlike(n, env, 0x580 + n.cfg.nodeId, d, SDO, i);
    var f := Frame((0x580 + n.cfg.nodeId) % 0x800, |d|, false, Pad8(d));
    ParamWritesStep(n.trace, Tx(f, env.accepts(n.trace, f), SDO, n.nmt), i);
  }

  lemma AbortEffect<A>(n: Node<A>, env: Env<A>, index: u16, sub: u8, code: u32, i: nat)
    requires Shape(n) && i < TPDO_COUNT
    ensures var m := Aborted(n, env, index, sub, code); Shape(m) && LeftAlone(n, m, i)
  {
    hide Sends, ParamWrites, Replied, Multiplexed;
    ReplyEffect(n.(sdo := Idle), env, Multiplexed(0x80, index, sub, Le32(code)), i);
  }

  /** A write and its answer. */
  lemma WrittenEffect<A>(n: Node<A>, env: Env<A>, index: u16, sub: u8, data: seq<u8>, source: Source, ok: Bytes8,
          i: nat)
    requires Shape(n) && i < TPDO_COUNT
    ensures var (m, code) := OdWrite(n, env, index, sub, data, source);
      && Shape(m) && Shape(Aborted(m, env, index, sub, code)) && Shape(Replied(m.(sdo := Idle), env, ok))
      && LeftAlone(n, Aborted(m, env, index, sub, code), i) && LeftAlone(n, Replied(m.(sdo := Idle), env, ok), i)
  {
    hide Sends, ParamWrites, OdWrite, Replied, Aborted;
    WriteEffect(n, env, index, sub, data, source, i);
    var (m, code) := OdWrite(n, env, index, sub, data, source);
    AbortEffect(m, env, index, sub, code, i);
    ReplyEffect(m.(sdo := Idle), env, ok, i);
  }

  lemma SdoEffect<A>(n: Node<A>, env: Env<A>, f: Frame, i: nat)
    requires Shape(n) && SdoOk(n.sdo) && i < TPDO_COUNT
    ensures var m := SdoReceived(n, env, f); Shape(m) && LeftAlone(n, m, i)
  {
    hide Sends, ParamWrites, Shape, SdoOk, UploadStarted, UploadSegment, DownloadStarted, DownloadSegment, Aborted,
        Ccs, Index, Sub;
    if f.dlc >= 8 && !f.rtr {
      TransferBounds(n.sdo);
      match Ccs(f)
      case 0 => DownloadSegmentEffect(n, env, f, i);
      case 1 => DownloadStartedEffect(n, env, f, i);
      case 2 => UploadStartedEffect(n, env, Index(f), Sub(f), i);
      case 3 => UploadSegmentEffect(n, env, f, i);
      case 4 => IdleEffect(n, i);
      case _ => AbortEffect(n, env, Index(f), Sub(f), ABORT_CMD, i);
    } else {
      SameEffect(n, i);
    }
  }

  lemma TransferBounds(t: Transfer)
    requires SdoOk(t)
    ensures t.Uploading? ==> t.pos <= |t.data| && t.toggle <= 1
    ensures t.Downloading? ==> t.toggle <= 1
  {
  }

  lemma SameEffect<A>(n: Node<A>, i: nat)
    requires Shape(n) && i < TPDO_COUNT
    ensures LeftAlone(n, n, i)
  {
  }

  lemma IdleEffect<A>(n: Node<A>, i: nat)
    requires Shape(n) && i < TPDO_COUNT
    ensures Shape(n.(sdo := Idle)) && LeftAlone(n, n.(sdo := Idle), i)
  {
  }

  lemma UploadStartedEffect<A>(n: Node<A>, env: Env<A>, index: u16, sub: u8, i: nat)
    requires Shape(n) && i < TPDO_COUNT
    ensures var m := UploadStarted(n, env, index, sub); Shape(m) && LeftAlone(n, m, i)
  {
    hide Sends, ParamWrites, Replied, Aborted, OdRead, Multiplexed;
    var r := OdRead(n, env, index, sub);
    if r.Abort? {
      AbortEffect(n, env, index, sub, r.code, i);
    } else if |r.bytes| <= 4 {
      ReplyEffect(n.(sdo := Idle), env,
                  Multiplexed(0x43 + 4 * (4 - |r.bytes|), index, sub, r.bytes + seq(4 - |r.bytes|, _ => 0)), i);
    } else {
      ReplyEffect(n.(sdo := Uploading(index, sub, r.bytes, 0, 0, n.now)), env,
                  Multiplexed(0x41, index, sub, Le32(Wrap32(|r.bytes|))), i);
    }
  }

  lemma UploadSegmentEffect<A>(n: Node<A>, env: Env<A>, f: Frame, i: nat)
    requires Shape(n) && i < TPDO_COUNT && (n.sdo.Uploading? ==> n.sdo.pos <= |n.sdo.data| && n.sdo.toggle <= 1)
    ensures var m := UploadSegment(n, env, f); Shape(m) && LeftAlone(n, m, i)
  {
    hide Sends, ParamWrites, Replied, Aborted, ToggleBit;
    if !n.sdo.Uploading? {
      AbortEffect(n, env, 0, 0, ABORT_CMD, i);
    } else if ToggleBit(f) != n.sdo.toggle {
      AbortEffect(n, env, n.sdo.index, n.sdo.sub, ABORT_TOGGLE, i);
    } else {
      var t := n.sdo;
      var remain := |t.data| - t.pos;
      var k := if remain > 7 then 7 else remain;
      var last := k == remain;
      var d := [t.toggle * 16 + (7 - k) * 2 + (if last then 1 else 0)] + t.data[t.pos..t.pos + k] + seq(7 - k, _ => 0);
      ReplyEffect(n.(sdo := if last then Idle else t.(pos := t.pos + k, toggle := 1 - t.toggle, last := n.now)),
          env, d, i);
    }
  }

  lemma DownloadStartedEffect<A>(n: Node<A>, env: Env<A>, f: Frame, i: nat)
    requires Shape(n) && i < TPDO_COUNT
    ensures var m := DownloadStarted(n, env, f); Shape(m) && LeftAlone(n, m, i)
  {
    hide Sends, ParamWrites, Replied, Aborted, OdWrite, Multiplexed, Index, Sub, Expected, IsExpedited, Shape;
    var ok := Multiplexed(0x60, Index(f), Sub(f), [0, 0, 0, 0]);
    if IsExpedited(f) {
      WrittenEffect(n, env, Index(f), Sub(f), f.data[4..4 + ExpeditedLength(f)], Expedited, ok, i);
    } else if Expected(f) > SDO_BUF {
      AbortEffect(n, env, Index(f), Sub(f), ABORT_OUT_OF_MEMORY, i);
    } else {
      var a := n.(sdo := Downloading(Index(f), Sub(f), Expected(f), [], 0, n.now, [f]));
      WithTransferEffect(n, a.sdo);
      ReplyEffect(a, env, ok, i);
    }
  }

  lemma WithTransferEffect<A>(n: Node<A>, t: Transfer)
    requires Shape(n)
    ensures Shape(n.(sdo := t)) && n.(sdo := t).tpdo == n.tpdo
  {
  }

  lemma DownloadSegmentEffect<A>(n: Node<A>, env: Env<A>, f: Frame, i: nat)
    requires Shape(n) && i < TPDO_COUNT && (n.sdo.Downloading? ==> n.sdo.toggle <= 1)
    ensures var m := DownloadSegment(n, env, f); Shape(m) && LeftAlone(n, m, i)
  {
    hide Sends, ParamWrites, Replied, Aborted, OdWrite, ToggleBit, LastBit, SegLength, Shape;
    if !n.sdo.Downloading? {
      AbortEffect(n, env, 0, 0, ABORT_CMD, i);
    } else {
      var t := n.sdo;
      var got := t.got + f.data[1..1 + SegLength(f)];
      var d: seq<u8> := [0x20 + t.toggle * 16, 0, 0, 0, 0, 0, 0, 0];
      AbortEffect(n, env, t.index, t.sub, ABORT_TOGGLE, i);
      AbortEffect(n, env, t.index, t.sub, ABORT_OUT_OF_MEMORY, i);
      AbortEffect(n, env, t.index, t.sub, ABORT_TYPE_MISMATCH, i);
      WrittenEffect(n, env, t.index, t.sub, got, Segmented(t.frames + [f]), d, i);
      var next := t.(got := got, toggle := 1 - t.toggle, last := n.now, frames := t.frames + [f]);
      WithTransferEffect(n, next);
      ReplyEffect(n.(sdo := next), env, d, i);
    }
  }

  // ---------------------------------------------------------------- spelled out

  /** What a tick sends, if the driver takes it: an enabled event-driven TPDO in OPERATIONAL
      whose objects can be read, at once if nothing is remembered as sent, else when the
      inhibit time (in units of 100 us) has passed, and the event time has or the data has
      changed. Nothing else is sent, and no more than once. */
  lemma TickSendsExactly<A>(n: Node<A>, env: Env<A>, now: u32, i: nat)
    requires NodeOk(n) && i < TPDO_COUNT && AlwaysAccepts(env)
    ensures Shape(n.(now := now)) && |n.tpdo| == TPDO_COUNT
    ensures var a, m, p := n.(now := now), Ticked(n, env, now), n.tpdo[i];
      var r, elapsed := Current(a, env, p), Sub32(now, p.lastTx);
      Sends(m.trace, i) == Sends(n.trace, i) +
        if n.nmt == OPERATIONAL && Answers(p, p.cobId % 0x800) && p.transType >= 254 && r.Payload?
           && (!p.haveLast || (10 * elapsed >= p.inhibit
                               && ((p.eventMs != 0 && elapsed >= p.eventMs) || r.bytes != p.lastData)))
        then 1 else 0
  {
    hide NodeOk, Ticked, Sends, Packed, Sub32;
    NodeTransferOk(n);
    TickEffect(n, env, now, i);
  }

  /** A SYNC sends this TPDO: it is enabled, its objects can be read, and it is of type 0 and
      its data has changed, or of type k and this is at least the k-th SYNC since it was
      last sent. */
  predicate SyncSends<A>(n: Node<A>, env: Env<A>, p: TPdo)
    requires Shape(n) && p.mapCount <= |p.entries|
  {
    var r := Current(n, env, p);
    && Answers(p, p.cobId % 0x800) && r.Payload?
    && ((p.transType == 0 && (!p.haveLast || r.bytes != p.lastData))
        || (1 <= p.transType <= 240 && p.syncCount + 1 >= p.transType))
  }

  /** After a SYNC the TPDO has been sent once or not at all, and has counted the SYNC if it
      is a cyclic one. */
  predicate AfterSync<A>(n: Node<A>, m: Node<A>, env: Env<A>, i: nat)
    requires Shape(n) && Shape(m) && i < TPDO_COUNT
  {
    var p := n.tpdo[i];
    && Sends(m.trace, i) == Sends(n.trace, i) + (if SyncSends(n, env, p) then 1 else 0)
    && m.tpdo[i].syncCount == if SyncSends(n, env, p) then 0
                              else if Answers(p, p.cobId % 0x800) && 1 <= p.transType <= 240 then p.syncCount + 1
                              else p.syncCount
  }

  /** What a SYNC sends, if the driver takes it. */
  lemma SyncSendsExactly<A>(n: Node<A>, env: Env<A>, i: nat)
    requires MappingsOk(n) && n.nmt == OPERATIONAL && i < TPDO_COUNT && AlwaysAccepts(env)
    requires Shape(n) && n.tpdo[i].syncCount < 255
    ensures AfterSync(n, SyncReceived(n, env), env, i)
  {
    hide SyncReceived, Sends, Packed, MappingOk;
    SyncEffect(n, env, i);
    CountedReads(n, env, n.tpdo[i]);
  }

  lemma CountedReads<A>(n: Node<A>, env: Env<A>, p: TPdo)
    requires Shape(n) && p.mapCount <= |p.entries|
    ensures Counted(p).mapCount <= |Counted(p).entries| && Current(n, env, Counted(p)) == Current(n, env, p)
  {
  }
}
