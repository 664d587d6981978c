/** Where everything comes from: each frame the node sends carries its own identifier and
    the values of its objects, each object an RPDO writes comes from a frame received at its
    identifier. */
module CoProvenance {
  import opened Bytes
  import opened CoTypes
  import opened CoDictionary
  import opened CoPdo
  import opened CoSdo
  import opened CoNet
  import opened CoInvariant
  import opened CoEffects
  import opened CoDispatch

  // ---------------------------------------------------------------- one step

  /** The bytes are those of a mapped object in this frame. */
  predicate PartOf(p: RPdo, d: Bytes8, e: Event) {
    exists i :: 0 <= i < p.mapCount && i < |p.entries| && WritesEntry(e, p.entries, i, d)
  }

  /** The frame of this step, or the one kept for this SYNC, carries the write. */
  predicate Carries<A>(p: RPdo, s: Step<A>, e: Event) {
    && s.Rx? && !s.f.rtr
    && ((Listens(p, s.f.id) && p.transType > 240 && PartOf(p, s.f.data, e))
        || (s.f.id == 0x80 && p.pending && PartOf(p, p.data, e)))
  }

  /** What an event of a step from `n` may be: SDO replies at 0x580 + node, heartbeats at
      0x700 + node, emergencies at 0x80 + node, a PDO at the identifier of that PDO with its
      current values; and writes by RPDOs that a frame carries. */
  predicate Justified<A>(n: Node<A>, env: Env<A>, s: Step<A>, e: Event)
    requires Shape(n)
  {
    match e
    case Tx(f, _, kind, _) =>
      !f.rtr && (match kind
                 case SDO => f.id == 0x580 + n.cfg.nodeId && f.dlc == 8
                 case HEARTBEAT => f.id == 0x700 + n.cfg.nodeId && f.dlc == 1
                 case EMCY => f.id == 0x80 + n.cfg.nodeId && f.dlc == 8
                 case PDO(i) => i < TPDO_COUNT && Answers(n.tpdo[i], f.id) && ShowsValues(n, env, n.tpdo[i], f))
    case Wrote(_, _, _, _, source) =>
      source == Mapped ==> n.nmt == OPERATIONAL && exists k :: 0 <= k < RPDO_COUNT && Carries(n.rpdo[k], s, e)
  }

  /** The frame holds the values of the mapped objects. */
  predicate ShowsValues<A>(n: Node<A>, env: Env<A>, p: TPdo, f: Frame)
    requires Shape(n) && p.mapCount <= |p.entries|
  {
    var r := Current(n, env, p);
    r.Payload? && f.dlc == |r.bytes| && f.data == Pad8(r.bytes)
  }

  /** From `a` to `b` the trace has grown by justified events. */
  predicate Grown<A>(n: Node<A>, env: Env<A>, s: Step<A>, a: seq<Event>, b: seq<Event>)
    requires Shape(n)
  {
    |a| <= |b| && b[..|a|] == a && forall i | |a| <= i < |b| :: Justified(n, env, s, b[i])
  }

  lemma GrownOn<A>(n: Node<A>, env: Env<A>, s: Step<A>, a: seq<Event>, b: seq<Event>, c: seq<Event>)
    requires Shape(n) && Grown(n, env, s, a, b) && Grown(n, env, s, b, c)
    ensures Grown(n, env, s, a, c)
  {
    hide Justified, Shape;
    assert c[..|a|] == c[..|b|][..|a|];
    forall i | |a| <= i < |c| ensures Justified(n, env, s, c[i]) {
      if i < |b| {
        assert c[i] == c[..|b|][i] == b[i];
      }
    }
  }

  lemma GrownOne<A>(n: Node<A>, env: Env<A>, s: Step<A>, a: seq<Event>, e: Event)
    requires Shape(n) && Justified(n, env, s, e)
    ensures Grown(n, env, s, a, a + [e])
  {
    hide Justified, Shape;
  }

  lemma SentGrown<A>(n: Node<A>, env: Env<A>, s: Step<A>, a: Node<A>, id: nat, data: seq<u8>, kind: Kind)
    requires Shape(n) && |data| <= 8 && id < 0x800
    requires forall ok, nmt :: Justified(n, env, s, Tx(Frame(id, |data|, false, Pad8(data)), ok, kind, nmt))
    ensures Grown(n, env, s, a.trace, Sent(a, env, id, data, kind).trace)
  {
    hide Justified, Shape;
    var f := Frame(id % 0x800, |data|, false, Pad8(data));
    GrownOne(n, env, s, a.trace, Tx(f, env.accepts(a.trace, f), kind, a.nmt));
  }

  // ---------------------------------------------------------------- TPDOs

  lemma TpdoSentGrown<A>(n: Node<A>, env: Env<A>, s: Step<A>, a: Node<A>, i: nat)
    requires Shape(n) && Shape(a) && ReadsAlike(n, a) && i < TPDO_COUNT && a.tpdo[i].Enabled()
    ensures Grown(n, env, s, a.trace, TpdoSent(a, env, i).trace) && ReadsAlike(n, TpdoSent(a, env, i))
  {
    hide Packed, Sends;
    PackedAlike(n, a, env, a.tpdo[i].entries, a.tpdo[i].mapCount);
    SendEffect(a, env, i);
    AlikeTransitive(n, a, TpdoSent(a, env, i));
    var r := Current(a, env, a.tpdo[i]);
    if r.Payload? {
      var id := a.tpdo[i].cobId % 0x800;
      forall ok, nmt
        ensures Justified(n, env, s, Tx(Frame(id, |r.bytes|, false, Pad8(r.bytes)), ok, PDO(i), nmt))
      {
      }
      SentGrown(n, env, s, a, id, r.bytes, PDO(i));
    }
  }

  lemma {:induction false} TpdoTickGrown<A>(n: Node<A>, env: Env<A>, s: Step<A>, a: Node<A>, i: nat)
    requires Shape(n) && Shape(a) && ReadsAlike(n, a) && i <= TPDO_COUNT
    ensures Grown(n, env, s, a.trace, TpdoTickFrom(a, env, i).trace)
    decreases TPDO_COUNT - i
  {
    hide Shape, ReadsAlike, TpdoSent, Grown, Current, Changed;
    GrownNone(n, env, s, a.trace);
    if i < TPDO_COUNT {
      ShapeTpdo(a, i);
      var b := if Due(a, env, a.tpdo[i]) then TpdoSent(a, env, i) else a;
      if Due(a, env, a.tpdo[i]) {
        TpdoSentGrown(n, env, s, a, i);
      }
      TpdoTickGrown(n, env, s, b, i + 1);
      GrownOn(n, env, s, a.trace, b.trace, TpdoTickFrom(b, env, i + 1).trace);
    }
  }

  lemma GrownNone<A>(n: Node<A>, env: Env<A>, s: Step<A>, a: seq<Event>)
    requires Shape(n)
    ensures Grown(n, env, s, a, a)
  {
  }

  lemma ShapeTpdo<A>(a: Node<A>, i: nat)
    requires Shape(a) && i < TPDO_COUNT
    ensures |a.tpdo| == TPDO_COUNT && a.tpdo[i].mapCount <= |a.tpdo[i].entries|
  {
  }

  lemma SyncTpdoGrown<A>(n: Node<A>, env: Env<A>, s: Step<A>, a: Node<A>, i: nat)
    requires Shape(n) && Shape(a) && ReadsAlike(n, a) && i < TPDO_COUNT
    ensures Grown(n, env, s, a.trace, SyncTpdo(a, env, i).trace) && ReadsAlike(n, SyncTpdo(a, env, i))
  {
    hide TpdoSent, Grown, Current, Changed, ReadsAlike;
    GrownNone(n, env, s, a.trace);
    var p := a.tpdo[i];
    var c := a.(tpdo := a.tpdo[i := p.(syncCount := (p.syncCount + 1) % 0x100)]);
    CountAlike(a, i);
    AlikeTransitive(n, a, c);
    if p.Enabled() {
      TpdoSentGrown(n, env, s, a, i);
      TpdoSentGrown(n, env, s, c, i);
    }
  }

  lemma CountAlike<A>(a: Node<A>, i: nat)
    requires Shape(a) && i < TPDO_COUNT
    ensures var c := a.(tpdo := a.tpdo[i := a.tpdo[i].(syncCount := (a.tpdo[i].syncCount + 1) % 0x100)]);
      Shape(c) && ReadsAlike(a, c)
  {
  }

  lemma {:induction false} SyncTpdosGrown<A>(n: Node<A>, env: Env<A>, s: Step<A>, a: Node<A>, i: nat)
    requires Shape(n) && Shape(a) && ReadsAlike(n, a) && i <= TPDO_COUNT
    ensures Grown(n, env, s, a.trace, SyncTpdos(a, env, i).trace)
    decreases TPDO_COUNT - i
  {
    hide Shape, ReadsAlike, SyncTpdo, Grown;
    GrownNone(n, env, s, a.trace);
    if i < TPDO_COUNT {
      SyncTpdoGrown(n, env, s, a, i);
      var b := SyncTpdo(a, env, i);
      SyncTpdosGrown(n, env, s, b, i + 1);
      GrownOn(n, env, s, a.trace, b.trace, SyncTpdos(b, env, i + 1).trace);
    }
  }

  // ---------------------------------------------------------------- RPDOs

  lemma EmergencyGrown<A>(n: Node<A>, env: Env<A>, s: Step<A>, a: Node<A>, code: u16, bits: u8, mfr: seq<u8>)
    requires Shape(n) && a.cfg.nodeId == n.cfg.nodeId && |mfr| == 5
    ensures Grown(n, env, s, a.trace, Emergency(a, env, code, bits, mfr).trace)
  {
    hide Or8, AndNot8;
    GrownNone(n, env, s, a.trace);
    var q := Emergency(a, env, code, bits, mfr);
    if a.nmt != STOPPED && a.nmt != INITIALISING {
      var d := Le16(code) + [q.errorRegister] + mfr;
      SentGrown(n, env, s, a.(errorRegister := q.errorRegister), 0x80 + a.cfg.nodeId, d, EMCY);
    }
  }

  /** Applying the PDO that carries the frame writes what the frame carries. */
  lemma AppliedGrown<A>(n: Node<A>, env: Env<A>, s: Step<A>, a: Node<A>, k: nat, p: RPdo, data: Bytes8, len: u8)
    requires Shape(n) && MappingsOk(a) && a.cfg == n.cfg && k < RPDO_COUNT && MappingOk(p.entries, p.mapCount, false)
    requires n.nmt == OPERATIONAL && forall e: Event :: PartOf(p, data, e) ==> Carries(n.rpdo[k], s, e)
    ensures Grown(n, env, s, a.trace, RpdoApplied(a, env, p, data, len).trace)
  {
    hide MappingsOk, MappingOk, Carries;
    MappingCount(p.entries, p.mapCount);
    OffsetIsNeed(p.entries, p.mapCount, p.mapCount);
    if len >= Offset(p.entries, p.mapCount) {
      AppliedWrites(a, env, p, data, len);
      var b := RpdoApplied(a, env, p, data, len).trace;
      forall i | |a.trace| <= i < |b| ensures Justified(n, env, s, b[i]) {
        assert WritesEntry(b[i], p.entries, i - |a.trace|, data);
        assert PartOf(p, data, b[i]);
      }
    } else {
      EmergencyGrown(n, env, s, a, 0x8210, 1, [0, 0, 0, 0, 0]);
    }
  }

  lemma SyncRpdoGrown<A>(n: Node<A>, env: Env<A>, s: Step<A>, a: Node<A>, k: nat)
    requires Shape(n) && MappingsOk(a) && a.cfg == n.cfg && k < RPDO_COUNT && a.rpdo[k] == n.rpdo[k]
    requires n.nmt == OPERATIONAL && s.Rx? && !s.f.rtr && s.f.id == 0x80
    ensures Grown(n, env, s, a.trace, SyncRpdo(a, env, k).trace)
    ensures forall j | 0 <= j < RPDO_COUNT && j != k :: SyncRpdo(a, env, k).rpdo[j] == a.rpdo[j]
    ensures SyncRpdo(a, env, k).cfg == a.cfg
    ensures !SyncRpdo(a, env, k).rpdo[k].pending
  {
    hide MappingOk, Grown, PartOf, RpdoApplied;
    GrownNone(n, env, s, a.trace);
    var p := a.rpdo[k];
    if p.pending {
      var m := a.(rpdo := a.rpdo[k := p.(pending := false)]);
      AppliedGrown(n, env, s, m, k, p, p.data, p.len);
    }
  }

  lemma SyncGrown<A>(n: Node<A>, env: Env<A>, s: Step<A>, a: Node<A>)
    requires Shape(n) && MappingsOk(a) && ReadsAlike(n, a) && a.rpdo == n.rpdo
    requires s.Rx? && !s.f.rtr && s.f.id == 0x80
    ensures Grown(n, env, s, a.trace, SyncReceived(a, env).trace)
    ensures forall j | 0 <= j < RPDO_COUNT :: SyncReceived(a, env).rpdo[j].pending ==>
      SyncReceived(a, env).rpdo[j] == a.rpdo[j]
  {
    hide Grown, SyncRpdo, SyncTpdos, MappingOk, Justified, SameTpdo, SameRpdo;
    GrownNone(n, env, s, a.trace);
    if a.nmt == OPERATIONAL {
      SyncTpdosGrown(n, env, s, a, 0);
      var b := SyncTpdos(a, env, 0);
      SameKeepsMappings(a, b);
      SyncTpdosKeep(a, env, 0);
      SyncRpdoGrown(n, env, s, b, 0);
      var c := SyncRpdo(b, env, 0);
      SyncRpdoGrown(n, env, s, c, 1);
      GrownOn(n, env, s, a.trace, b.trace, c.trace);
      GrownOn(n, env, s, a.trace, c.trace, SyncRpdo(c, env, 1).trace);
    }
  }

  lemma {:induction false} SyncTpdosKeep<A>(a: Node<A>, env: Env<A>, i: nat)
    requires Shape(a) && i <= TPDO_COUNT
    ensures SyncTpdos(a, env, i).rpdo == a.rpdo
    decreases TPDO_COUNT - i
  {
    hide Packed;
    if i < TPDO_COUNT {
      SyncTpdosKeep(SyncTpdo(a, env, i), env, i + 1);
    }
  }

  lemma PdoGrown<A>(n: Node<A>, env: Env<A>, s: Step<A>, a: Node<A>)
    requires Shape(n) && MappingsOk(a) && ReadsAlike(n, a) && a.rpdo == n.rpdo && s.Rx?
    ensures Grown(n, env, s, a.trace, PdoReceived(a, env, s.f).trace)
    ensures var m := PdoReceived(a, env, s.f); forall j | 0 <= j < RPDO_COUNT && m.rpdo[j].pending ::
      m.rpdo[j] == a.rpdo[j]
      || (Listens(a.rpdo[j], s.f.id) && !s.f.rtr && a.nmt == OPERATIONAL && m.rpdo[j].data == s.f.data)
  {
    hide Grown, MappingOk, Justified, TpdoSent, RpdoApplied, PartOf, Listens, Answers;
    GrownNone(n, env, s, a.trace);
    if a.nmt == OPERATIONAL {
      if s.f.rtr {
        var k := FindTpdo(a.tpdo, s.f.id, 0);
        if k < TPDO_COUNT {
          AnswersEnabled(a.tpdo[k], s.f.id);
          TpdoSentGrown(n, env, s, a, k);
          TpdoSentKeeps(a, env, k);
        }
      } else {
        var k := FindRpdo(a.rpdo, s.f.id, 0);
        if k < RPDO_COUNT && a.rpdo[k].transType > 240 {
          AppliedGrown(n, env, s, a, k, a.rpdo[k], s.f.data, s.f.dlc);
        }
      }
    }
  }

  lemma AnswersEnabled(p: TPdo, id: u16)
    requires Answers(p, id)
    ensures p.Enabled()
  {
  }

  lemma TpdoSentKeeps<A>(a: Node<A>, env: Env<A>, k: nat)
    requires Shape(a) && k < TPDO_COUNT
    ensures TpdoSent(a, env, k).rpdo == a.rpdo
  {
    hide Packed;
  }

  // ---------------------------------------------------------------- ticks

  lemma HeartbeatGrown<A>(n: Node<A>, env: Env<A>, s: Step<A>, a: Node<A>)
    requires Shape(n) && a.cfg == n.cfg
    ensures Grown(n, env, s, a.trace, HeartbeatTick(a, env).trace)
  {
    hide Grown;
    GrownNone(n, env, s, a.trace);
    SentGrown(n, env, s, a, 0x700 + a.cfg.nodeId, [0], HEARTBEAT);
    SentGrown(n, env, s, a, 0x700 + a.cfg.nodeId, [NmtCode(a.nmt)], HEARTBEAT);
  }

  lemma RepliedGrown<A>(n: Node<A>, env: Env<A>, s: Step<A>, a: Node<A>, d: Bytes8)
    requires Shape(n) && a.cfg.nodeId == n.cfg.nodeId
    ensures Grown(n, env, s, a.trace, Replied(a, env, d).trace)
  {
    SentGrown(n, env, s, a, 0x580 + a.cfg.nodeId, d, SDO);
  }

  lemma TickGrown<A>(n: Node<A>, env: Env<A>, now: u32, s: Step<A>)
    requires NodeOk(n)
    ensures var a := n.(now := now);
      Shape(a) && Grown(a, env, s, n.trace, Ticked(n, env, now).trace) && Ticked(n, env, now).rpdo == n.rpdo
  {
    hide Grown, NodeOk, HeartbeatTick, TimedOut, TpdoTickFrom, Sends, ReadsAlike;
    NodeParts(n);
    var a := n.(now := now);
    var h := HeartbeatTick(a, env);
    var t := TimedOut(h, env);
    TickKeeps(a, env);
    HeartbeatGrown(a, env, s, a);
    TimeoutGrown(a, env, s, h);
    GrownOn(a, env, s, n.trace, h.trace, t.trace);
    BeforeTpdos(a, env, 0);
    if t.nmt == OPERATIONAL {
      TpdoTickGrown(a, env, s, t, 0);
      TpdoTickKeeps(t, env, 0);
      GrownOn(a, env, s, n.trace, t.trace, TpdoTickFrom(t, env, 0).trace);
    }
  }

  lemma NodeParts<A>(n: Node<A>)
    requires NodeOk(n)
    ensures Shape(n) && MappingsOk(n) && SdoOk(n.sdo)
  {
  }

  lemma TimeoutGrown<A>(n: Node<A>, env: Env<A>, s: Step<A>, h: Node<A>)
    requires Shape(n) && h.cfg.nodeId == n.cfg.nodeId
    ensures Grown(n, env, s, h.trace, TimedOut(h, env).trace)
  {
    hide Grown, Replied, Multiplexed, Le32;
    GrownNone(n, env, s, h.trace);
    if !h.sdo.Idle? {
      RepliedGrown(n, env, s, h.(sdo := Idle), Multiplexed(0x80, h.sdo.index, h.sdo.sub, Le32(ABORT_TIMEOUT)));
    }
  }

  lemma TickKeeps<A>(a: Node<A>, env: Env<A>)
    ensures var h := HeartbeatTick(a, env); h.cfg == a.cfg && TimedOut(h, env).rpdo == a.rpdo
  {
  }

  lemma {:induction false} TpdoTickKeeps<A>(a: Node<A>, env: Env<A>, i: nat)
    requires Shape(a) && i <= TPDO_COUNT
    ensures TpdoTickFrom(a, env, i).rpdo == a.rpdo
    decreases TPDO_COUNT - i
  {
    hide Packed, Due, TpdoSent, Shape;
    if i < TPDO_COUNT {
      ShapeTpdo(a, i);
      TpdoSentKeeps(a, env, i);
      TpdoTickKeeps(if Due(a, env, a.tpdo[i]) then TpdoSent(a, env, i) else a, env, i + 1);
    }
  }

  // ---------------------------------------------------------------- SDO and the other steps

  lemma AbortGrown<A>(n: Node<A>, env: Env<A>, s: Step<A>, a: Node<A>, index: u16, sub: u8, code: u32)
    requires Shape(n) && a.cfg.nodeId == n.cfg.nodeId
    ensures Grown(n, env, s, a.trace, Aborted(a, env, index, sub, code).trace)
  {
    hide Grown, Replied, Le32;
    RepliedGrown(n, env, s, a.(sdo := Idle), Multiplexed(0x80, index, sub, Le32(code)));
  }

  /** A write by the SDO server, and its answer. */
  lemma WrittenGrown<A>(n: Node<A>, env: Env<A>, s: Step<A>, a: Node<A>, index: u16, sub: u8, data: seq<u8>,
          source: Source, ok: Bytes8)
    requires Shape(n) && MappingsOk(a) && a.cfg.nodeId == n.cfg.nodeId && source != Mapped
    ensures var (m, code) := OdWrite(a, env, index, sub, data, source);
      Grown(n, env, s, a.trace, if code != 0 then Aborted(m, env, index, sub, code).trace
                                   else Replied(m.(sdo := Idle), env, ok).trace)
  {
    hide Grown, OdWrite, Replied, Aborted, MappingOk;
    WriteKeepsMappings(a, env, index, sub, data, source);
    var (m, code) := OdWrite(a, env, index, sub, data, source);
    GrownOne(n, env, s, a.trace, Wrote(index, sub, data, code, source));
    AbortGrown(n, env, s, m, index, sub, code);
    RepliedGrown(n, env, s, m.(sdo := Idle), ok);
    GrownOn(n, env, s, a.trace, m.trace, Aborted(m, env, index, sub, code).trace);
    GrownOn(n, env, s, a.trace, m.trace, Replied(m.(sdo := Idle), env, ok).trace);
  }

  lemma SdoGrown<A>(n: Node<A>, env: Env<A>, s: Step<A>, a: Node<A>, f: Frame)
    requires Shape(n) && MappingsOk(a) && SdoOk(a.sdo) && a.cfg == n.cfg
    ensures Grown(n, env, s, a.trace, SdoReceived(a, env, f).trace)
  {
    hide Grown, OdWrite, Replied, Aborted, MappingsOk, SdoOk, DownloadSegment, DownloadStarted, UploadStarted,
        UploadSegment;
    GrownNone(n, env, s, a.trace);
    SdoShape(a);
    if f.dlc >= 8 && !f.rtr {
      if Ccs(f) == 0 {
        DownloadSegmentGrown(n, env, s, a, f);
      } else if Ccs(f) == 1 {
        DownloadStartedGrown(n, env, s, a, f);
      } else if Ccs(f) == 2 {
        UploadStartedGrown(n, env, s, a, Index(f), Sub(f));
      } else if Ccs(f) == 3 {
        UploadSegmentGrown(n, env, s, a, f);
      } else {
        AbortGrown(n, env, s, a, Index(f), Sub(f), ABORT_CMD);
      }
    }
  }

  lemma SdoShape<A>(a: Node<A>)
    requires MappingsOk(a) && SdoOk(a.sdo)
    ensures Shape(a)
    ensures a.sdo.Uploading? ==> a.sdo.pos <= |a.sdo.data| && a.sdo.toggle <= 1
    ensures a.sdo.Downloading? ==> a.sdo.toggle <= 1
  {
  }

  lemma UploadStartedGrown<A>(n: Node<A>, env: Env<A>, s: Step<A>, a: Node<A>, index: u16, sub: u8)
    requires Shape(n) && Shape(a) && a.cfg == n.cfg
    ensures Grown(n, env, s, a.trace, UploadStarted(a, env, index, sub).trace)
  {
    hide Grown, OdRead, Replied, Aborted, Multiplexed, Le32, Shape;
    var r := OdRead(a, env, index, sub);
    if r.Abort? {
      AbortGrown(n, env, s, a, index, sub, r.code);
    } else if |r.bytes| <= 4 {
      RepliedGrown(n, env, s, a.(sdo := Idle),
                   Multiplexed(0x43 + 4 * (4 - |r.bytes|), index, sub, r.bytes + seq(4 - |r.bytes|, _ => 0)));
    } else {
      RepliedGrown(n, env, s, a.(sdo := Uploading(index, sub, r.bytes, 0, 0, a.now)),
                   Multiplexed(0x41, index, sub, Le32(Wrap32(|r.bytes|))));
    }
  }

  lemma UploadSegmentGrown<A>(n: Node<A>, env: Env<A>, s: Step<A>, a: Node<A>, f: Frame)
    requires Shape(n) && a.cfg == n.cfg
    requires a.sdo.Uploading? ==> a.sdo.pos <= |a.sdo.data| && a.sdo.toggle <= 1
    ensures Grown(n, env, s, a.trace, UploadSegment(a, env, f).trace)
  {
    hide Grown, Replied, Aborted, ToggleBit, Shape;
    AbortGrown(n, env, s, a, 0, 0, ABORT_CMD);
    if a.sdo.Uploading? {
      var t := a.sdo;
      if ToggleBit(f) != t.toggle {
        AbortGrown(n, env, s, a, t.index, t.sub, ABORT_TOGGLE);
      } else {
        var remain := |t.data| - t.pos;
        var k := if remain > 7 then 7 else remain;
        var last := k == remain;
        var cmd: u8 := t.toggle * 16 + (7 - k) * 2 + (if last then 1 else 0);
        var d := [cmd] + t.data[t.pos..t.pos + k] + seq(7 - k, _ => 0);
        RepliedGrown(n, env, s,
                     a.(sdo := if last then Idle else t.(pos := t.pos + k, toggle := 1 - t.toggle, last := a.now)), d);
      }
    }
  }

  lemma DownloadStartedGrown<A>(n: Node<A>, env: Env<A>, s: Step<A>, a: Node<A>, f: Frame)
    requires Shape(n) && MappingsOk(a) && a.cfg == n.cfg
    ensures Shape(a) && Grown(n, env, s, a.trace, DownloadStarted(a, env, f).trace)
  {
    hide Grown, OdWrite, Replied, Aborted, MappingOk, Multiplexed, Ccs, Index, Sub, IsExpedited, Expected;
    var ok := Multiplexed(0x60, Index(f), Sub(f), [0, 0, 0, 0]);
    if IsExpedited(f) {
      WrittenGrown(n, env, s, a, Index(f), Sub(f), f.data[4..4 + ExpeditedLength(f)], Expedited, ok);
    } else if Expected(f) > SDO_BUF {
      AbortGrown(n, env, s, a, Index(f), Sub(f), ABORT_OUT_OF_MEMORY);
    } else {
      RepliedGrown(n, env, s, a.(sdo := Downloading(Index(f), Sub(f), Expected(f), [], 0, a.now, [f])), ok);
    }
  }

  lemma DownloadSegmentGrown<A>(n: Node<A>, env: Env<A>, s: Step<A>, a: Node<A>, f: Frame)
    requires Shape(n) && MappingsOk(a) && a.cfg == n.cfg && (a.sdo.Downloading? ==> a.sdo.toggle <= 1)
    ensures Shape(a) && Grown(n, env, s, a.trace, DownloadSegment(a, env, f).trace)
  {
    hide Grown, OdWrite, Replied, Aborted, MappingOk, Ccs, ToggleBit, LastBit, SegLength;
    AbortGrown(n, env, s, a, 0, 0, ABORT_CMD);
    if a.sdo.Downloading? {
      var t := a.sdo;
      var k := SegLength(f);
      var got := t.got + f.data[1..1 + k];
      var d: seq<u8> := [0x20 + t.toggle * 16, 0, 0, 0, 0, 0, 0, 0];
      AbortGrown(n, env, s, a, t.index, t.sub, ABORT_TOGGLE);
      AbortGrown(n, env, s, a, t.index, t.sub, ABORT_OUT_OF_MEMORY);
      AbortGrown(n, env, s, a, t.index, t.sub, ABORT_TYPE_MISMATCH);
      RepliedGrown(n, env, s,
                   a.(sdo := t.(got := got, toggle := 1 - t.toggle, last := a.now, frames := t.frames + [f])), d);
      WrittenGrown(n, env, s, a, t.index, t.sub, got, Segmented(t.frames + [f]), d);
    }
  }

  // ---------------------------------------------------------------- any step

  function StepTime<A>(n: Node<A>, s: Step<A>): Node<A> {
    match s
    case Rx(_, now) => n.(now := now)
    case Tick(now) => n.(now := now)
    case _ => n
  }

  /** Every event of a step is justified by the node before it. */
  lemma StepGrown<A(!new)>(n: Node<A>, env: Env<A>, s: Step<A>)
    requires NodeOk(n) && (s.EmergencyCall? ==> |s.mfr| == 5)
    ensures Shape(StepTime(n, s)) && Grown(StepTime(n, s), env, s, n.trace, Next(n, env, s).trace)
  {
    hide Grown, NodeOk, Emergency, Received, Ticked;
    NodeParts(n);
    var a := StepTime(n, s);
    assert Shape(a);
    GrownNone(a, env, s, n.trace);
    if s.Rx? {
      RxGrown(n, env, s);
    } else if s.Tick? {
      TickGrown(n, env, s.now, s);
    } else if s.EmergencyCall? {
      EmergencyGrown(a, env, s, n, s.code, s.errBits, s.mfr);
    }
  }

  lemma RxGrown<A(!new)>(n: Node<A>, env: Env<A>, s: Step<A>)
    requires NodeOk(n) && s.Rx?
    ensures var a := n.(now := s.now);
      Shape(a) && Grown(a, env, s, n.trace, Received(n, env, s.f, s.now).trace)
  {
    hide Grown, NodeOk, NmtReceived, SyncReceived, SdoReceived, PdoReceived, MappingOk, SdoOk, Justified;
    NodeParts(n);
    var a := n.(now := s.now);
    AtTime(n, s.now);
    NodeParts(a);
    GrownNone(a, env, s, n.trace);
    AlikeItself(a);
    if s.f.id == 0 {
      NmtKeepsTrace(a, s.f);
    } else if s.f.id == 0x80 && !s.f.rtr {
      SyncGrown(a, env, s, a);
    } else if a.nmt == STOPPED {
    } else if s.f.id == 0x600 + a.cfg.nodeId {
      SdoGrown(a, env, s, a, s.f);
    } else {
      PdoGrown(a, env, s, a);
    }
  }

  lemma AlikeItself<A>(a: Node<A>)
    requires Shape(a)
    ensures ReadsAlike(a, a)
  {
  }

  lemma NmtKeepsTrace<A>(a: Node<A>, f: Frame)
    requires Shape(a)
    ensures NmtReceived(a, f).trace == a.trace
  {
  }

  // ---------------------------------------------------------------- frames kept for a SYNC

  /** The frame kept by RPDO `k` is the one it had kept before the step, or it came in this
      step at the identifier of that PDO. */
  predicate KeptFrom<A>(n: Node<A>, s: Step<A>, m: Node<A>, k: nat)
    requires |n.rpdo| == |m.rpdo| == RPDO_COUNT && k < RPDO_COUNT
  {
    m.rpdo[k].pending ==>
      || (n.rpdo[k].pending && m.rpdo[k].data == n.rpdo[k].data)
      || (s.Rx? && !s.f.rtr && n.nmt == OPERATIONAL && Listens(n.rpdo[k], s.f.id) && m.rpdo[k].data == s.f.data)
  }

  lemma WriteKeepsPending<A>(a: Node<A>, env: Env<A>, index: u16, sub: u8, data: seq<u8>, source: Source, k: nat)
    requires Shape(a) && k < RPDO_COUNT
    ensures var m := OdWrite(a, env, index, sub, data, source).0;
      |m.rpdo| == RPDO_COUNT && (m.rpdo[k].pending ==> a.rpdo[k].pending && m.rpdo[k].data == a.rpdo[k].data)
  {
    hide MapWritten, FromLe32, FromLe16, TPdoCommWrite, CobIdCheck;
  }

  /** Nothing becomes pending, and what is pending keeps its data. */
  predicate StillPending(a: seq<RPdo>, m: seq<RPdo>, k: nat) {
    |a| == |m| == RPDO_COUNT && k < RPDO_COUNT && (m[k].pending ==> a[k].pending && m[k].data == a[k].data)
  }

  lemma SdoKeepsPending<A>(a: Node<A>, env: Env<A>, f: Frame, k: nat)
    requires Shape(a) && SdoOk(a.sdo) && k < RPDO_COUNT
    ensures StillPending(a.rpdo, SdoReceived(a, env, f).rpdo, k)
  {
    hide OdRead, Multiplexed, Sent, ToggleBit, DownloadStarted, DownloadSegment, Assembles, Le32, Index, Sub;
    SentKeeps(a, env);
    if Ccs(f) == 1 {
      DownloadStartedKeeps(a, env, f, k);
    } else if Ccs(f) == 0 {
      DownloadSegmentKeeps(a, env, f, k);
    }
  }

  lemma DownloadStartedKeeps<A>(a: Node<A>, env: Env<A>, f: Frame, k: nat)
    requires Shape(a) && k < RPDO_COUNT
    ensures StillPending(a.rpdo, DownloadStarted(a, env, f).rpdo, k)
  {
    hide OdWrite, Multiplexed, Index, Sub, Le32, Expected;
    WriteKeepsPending(a, env, Index(f), Sub(f), f.data[4..4 + ExpeditedLength(f)], Expedited, k);
  }

  lemma DownloadSegmentKeeps<A>(a: Node<A>, env: Env<A>, f: Frame, k: nat)
    requires Shape(a) && k < RPDO_COUNT && (a.sdo.Downloading? ==> a.sdo.toggle <= 1)
    ensures StillPending(a.rpdo, DownloadSegment(a, env, f).rpdo, k)
  {
    hide OdWrite, Multiplexed, Le32, ToggleBit, LastBit;
    if a.sdo.Downloading? {
      var got := a.sdo.got + f.data[1..1 + SegLength(f)];
      WriteKeepsPending(a, env, a.sdo.index, a.sdo.sub, got, Segmented(a.sdo.frames + [f]), k);
    }
  }

  lemma SentKeeps<A>(a: Node<A>, env: Env<A>)
    ensures forall q: Node<A>, id: nat, data: seq<u8>, kind | |data| <= 8 :: Sent(q, env, id, data, kind).rpdo == q.rpdo
  {
  }

  lemma StepKeepsPending<A(!new)>(n: Node<A>, env: Env<A>, s: Step<A>, k: nat)
    requires NodeOk(n) && EnvOk(env) && (s.EmergencyCall? ==> |s.mfr| == 5) && k < RPDO_COUNT
    ensures |n.rpdo| == |Next(n, env, s).rpdo| == RPDO_COUNT && KeptFrom(n, s, Next(n, env, s), k)
  {
    hide NodeOk, Emergency, Received, Ticked, MapValidate;
    NodeParts(n);
    NextOk(n, env, s);
    NodeParts(Next(n, env, s));
    if s.Rx? {
      RxKeepsPending(n, env, s, k);
    } else if s.Tick? {
      TickGrown(n, env, s.now, s);
    } else if s.EmergencyCall? {
      EmergencyKeeps(n, env, s.code, s.errBits, s.mfr);
    }
  }

  lemma EmergencyKeeps<A>(n: Node<A>, env: Env<A>, code: u16, bits: u8, mfr: seq<u8>)
    requires |mfr| == 5
    ensures Emergency(n, env, code, bits, mfr).rpdo == n.rpdo
  {
  }

  lemma RxKeepsPending<A(!new)>(n: Node<A>, env: Env<A>, s: Step<A>, k: nat)
    requires NodeOk(n) && EnvOk(env) && s.Rx? && k < RPDO_COUNT
    ensures var m := Received(n, env, s.f, s.now); |n.rpdo| == |m.rpdo| == RPDO_COUNT && KeptFrom(n, s, m, k)
  {
    hide Grown, NodeOk, NmtReceived, SyncReceived, SdoReceived, PdoReceived, MappingOk, SdoOk, Justified, Listens,
        EnvOk;
    NodeParts(n);
    ReceivedOk(n, env, s.f, s.now);
    NodeParts(Received(n, env, s.f, s.now));
    var a := n.(now := s.now);
    AtTime(n, s.now);
    NodeParts(a);
    AlikeItself(a);
    if s.f.id == 0 {
      NmtKeepsPending(a, s.f, k);
    } else if s.f.id == 0x80 && !s.f.rtr {
      SyncGrown(a, env, s, a);
    } else if a.nmt == STOPPED {
    } else if s.f.id == 0x600 + a.cfg.nodeId {
      SdoKeepsPending(a, env, s.f, k);
    } else {
      PdoGrown(a, env, s, a);
    }
  }

  lemma NmtKeepsPending<A>(a: Node<A>, f: Frame, k: nat)
    requires Shape(a) && k < RPDO_COUNT
    ensures var m := NmtReceived(a, f); |m.rpdo| == RPDO_COUNT && (m.rpdo[k].pending ==> m.rpdo[k] == a.rpdo[k])
  {
  }

  // ---------------------------------------------------------------- runs

  ghost predicate Legal<A>(steps: seq<Step<A>>) {
    forall s | s in steps :: s.EmergencyCall? ==> |s.mfr| == 5
  }

  /** Step `j` received frame `d` at the identifier RPDO `k` then had, in OPERATIONAL. */
  ghost predicate HeardAt<A(!new)>(cfg: Config, app: A, now: u32, env: Env<A>, steps: seq<Step<A>>, k: nat, d: Bytes8,
          j: nat)
    requires Legal(steps) && EnvOk(env)
  {
    && j < |steps| && k < RPDO_COUNT && steps[j].Rx? && !steps[j].f.rtr && steps[j].f.data == d
    && var n := Run(cfg, app, now, env, steps[..j]);
       n.nmt == OPERATIONAL && |n.rpdo| == RPDO_COUNT && Listens(n.rpdo[k], steps[j].f.id)
  }

  ghost predicate Heard<A(!new)>(cfg: Config, app: A, now: u32, env: Env<A>, steps: seq<Step<A>>, k: nat, d: Bytes8)
    requires Legal(steps) && EnvOk(env)
  {
    exists j: nat :: HeardAt(cfg, app, now, env, steps, k, d, j)
  }

  lemma HeardLater<A(!new)>(cfg: Config, app: A, now: u32, env: Env<A>, steps: seq<Step<A>>, k: nat, d: Bytes8, n: nat)
    requires Legal(steps) && EnvOk(env) && n <= |steps| && Heard(cfg, app, now, env, steps[..n], k, d)
    ensures Heard(cfg, app, now, env, steps, k, d)
  {
    hide Run, Listens;
    var j: nat :| HeardAt(cfg, app, now, env, steps[..n], k, d, j);
    assert steps[..n][..j] == steps[..j] && steps[..n][j] == steps[j];
    assert HeardAt(cfg, app, now, env, steps, k, d, j);
  }

  /** A frame kept for a SYNC was received at the identifier of its RPDO. */
  lemma {:induction false} PendingIsHeard<A(!new)>(cfg: Config, app: A, now: u32, env: Env<A>, steps: seq<Step<A>>,
          k: nat)
    requires Legal(steps) && EnvOk(env) && k < RPDO_COUNT
    ensures var n := Run(cfg, app, now, env, steps);
      |n.rpdo| == RPDO_COUNT && (n.rpdo[k].pending ==> Heard(cfg, app, now, env, steps, k, n.rpdo[k].data))
    decreases |steps|
  {
    hide NodeOk, EnvOk, Next, Listens;
    var n := Run(cfg, app, now, env, steps);
    NodeParts(n);
    if steps == [] {
      NothingPending(cfg, app, now);
    } else {
      var last := |steps| - 1;
      PendingIsHeard(cfg, app, now, env, steps[..last], k);
      var p := Run(cfg, app, now, env, steps[..last]);
      StepKeepsPending(p, env, steps[last], k);
      if n.rpdo[k].pending {
        if p.rpdo[k].pending && n.rpdo[k].data == p.rpdo[k].data {
          HeardLater(cfg, app, now, env, steps, k, n.rpdo[k].data, last);
        } else {
          assert HeardAt(cfg, app, now, env, steps, k, n.rpdo[k].data, last);
        }
      }
    }
  }

  lemma NothingPending<A>(cfg: Config, app: A, now: u32)
    ensures forall k | 0 <= k < |Initialised(cfg, app, now).rpdo| :: !Initialised(cfg, app, now).rpdo[k].pending
  {
  }

  /** In every run each object written by an RPDO has its bytes from a frame that was
      received, in OPERATIONAL, at the identifier of an enabled RPDO. */
  lemma {:induction false} MappedWritesAreHeard<A(!new)>(cfg: Config, app: A, now: u32, env: Env<A>,
          steps: seq<Step<A>>, i: nat)
    requires Legal(steps) && EnvOk(env) && i < |Run(cfg, app, now, env, steps).trace|
    requires var e := Run(cfg, app, now, env, steps).trace[i]; e.Wrote? && e.source == Mapped
    ensures exists k: nat, d: Bytes8, lo: nat, hi: nat ::
      Heard(cfg, app, now, env, steps, k, d) && Cut(d, lo, hi, Run(cfg, app, now, env, steps).trace[i])
    decreases |steps|
  {
    hide NodeOk, EnvOk, Next, Listens, PartOf;
    if steps == [] {
      NothingTraced(cfg, app, now);
    } else {
      var last := |steps| - 1;
      var p := Run(cfg, app, now, env, steps[..last]);
      var e := Run(cfg, app, now, env, steps).trace[i];
      StepGrown(p, env, steps[last]);
      if i < |p.trace| {
        assert Run(cfg, app, now, env, steps).trace[..|p.trace|][i] == e;
        MappedWritesAreHeard(cfg, app, now, env, steps[..last], i);
        var k: nat, d: Bytes8, lo: nat, hi: nat :|
          Heard(cfg, app, now, env, steps[..last], k, d) && Cut(d, lo, hi, p.trace[i]);
        HeardLater(cfg, app, now, env, steps, k, d, last);
        assert Heard(cfg, app, now, env, steps, k, d) && Cut(d, lo, hi, e);
      } else {
        NewWriteIsHeard(cfg, app, now, env, steps, e);
      }
    }
  }

  /** The event's data is a part of the frame. */
  predicate Cut(d: Bytes8, lo: nat, hi: nat, e: Event) {
    e.Wrote? && lo <= hi <= 8 && e.data == d[lo..hi]
  }

  lemma NothingTraced<A>(cfg: Config, app: A, now: u32)
    ensures Initialised(cfg, app, now).trace == []
  {
  }

  lemma NewWriteIsHeard<A(!new)>(cfg: Config, app: A, now: u32, env: Env<A>, steps: seq<Step<A>>, e: Event)
    requires Legal(steps) && EnvOk(env) && steps != [] && e.Wrote? && e.source == Mapped
    requires var p := Run(cfg, app, now, env, steps[..|steps| - 1]); var a := StepTime(p, steps[|steps| - 1]);
      Shape(a) && Justified(a, env, steps[|steps| - 1], e)
    ensures exists k: nat, d: Bytes8, lo: nat, hi: nat ::
      Heard(cfg, app, now, env, steps, k, d) && Cut(d, lo, hi, e)
  {
    hide NodeOk, EnvOk, Next, Run, Listens;
    var last := |steps| - 1;
    var s := steps[last];
    var p := Run(cfg, app, now, env, steps[..last]);
    var a := StepTime(p, s);
    var k :| 0 <= k < RPDO_COUNT && Carries(a.rpdo[k], s, e);
    var r := a.rpdo[k];
    if Listens(r, s.f.id) && r.transType > 240 && PartOf(r, s.f.data, e) {
      var lo, hi := PartIsCut(r, s.f.data, e);
      assert HeardAt(cfg, app, now, env, steps, k, s.f.data, last);
      assert Heard(cfg, app, now, env, steps, k, s.f.data) && Cut(s.f.data, lo, hi, e);
    } else {
      var lo, hi := PartIsCut(r, r.data, e);
      PendingIsHeard(cfg, app, now, env, steps[..last], k);
      HeardLater(cfg, app, now, env, steps, k, r.data, last);
      assert Heard(cfg, app, now, env, steps, k, r.data) && Cut(r.data, lo, hi, e);
    }
  }

  lemma PartIsCut(p: RPdo, d: Bytes8, e: Event) returns (lo: nat, hi: nat)
    requires PartOf(p, d, e)
    ensures Cut(d, lo, hi, e)
  {
    var i :| 0 <= i < p.mapCount && i < |p.entries| && WritesEntry(e, p.entries, i, d);
    lo, hi := Offset(p.entries, i), Offset(p.entries, i + 1);
  }

  /** Step `j` is justified in causing event `e`. */
  ghost predicate CausedAt<A(!new)>(cfg: Config, app: A, now: u32, env: Env<A>, steps: seq<Step<A>>, e: Event, j: nat)
    requires Legal(steps) && EnvOk(env)
  {
    && j < |steps|
    && var n := StepTime(Run(cfg, app, now, env, steps[..j]), steps[j]);
       Shape(n) && Justified(n, env, steps[j], e)
  }

  /** Every event of every run is justified by the node at one of its steps. So a frame is
      never sent at an identifier that is not the node's own, and a PDO never shows anything
      but the values its objects had when it was sent. */
  lemma {:induction false} EveryEventIsJustified<A(!new)>(cfg: Config, app: A, now: u32, env: Env<A>,
          steps: seq<Step<A>>, i: nat)
    requires Legal(steps) && EnvOk(env) && i < |Run(cfg, app, now, env, steps).trace|
    ensures exists j: nat :: CausedAt(cfg, app, now, env, steps, Run(cfg, app, now, env, steps).trace[i], j)
    decreases |steps|
  {
    hide NodeOk, EnvOk, Next, Justified;
    if steps == [] {
      NothingTraced(cfg, app, now);
    } else {
      var last := |steps| - 1;
      var p := Run(cfg, app, now, env, steps[..last]);
      var e := Run(cfg, app, now, env, steps).trace[i];
      StepGrown(p, env, steps[last]);
      if i < |p.trace| {
        assert Run(cfg, app, now, env, steps).trace[..|p.trace|][i] == e;
        EveryEventIsJustified(cfg, app, now, env, steps[..last], i);
        var j: nat :| CausedAt(cfg, app, now, env, steps[..last], e, j);
        assert steps[..last][..j] == steps[..j] && steps[..last][j] == steps[j];
        assert CausedAt(cfg, app, now, env, steps, e, j);
      } else {
        assert CausedAt(cfg, app, now, env, steps, e, last);
      }
    }
  }

  /** The node number is the configured one throughout, 127 for one that is not allowed. */
  lemma {:induction false} NodeNumberKept<A(!new)>(cfg: Config, app: A, now: u32, env: Env<A>, steps: seq<Step<A>>)
    requires Legal(steps) && EnvOk(env)
    ensures Run(cfg, app, now, env, steps).cfg.nodeId == if 1 <= cfg.nodeId <= 127 then cfg.nodeId else 127
    decreases |steps|
  {
    hide NodeOk, EnvOk, Next;
    if steps != [] {
      var last := |steps| - 1;
      NodeNumberKept(cfg, app, now, env, steps[..last]);
      StepKeepsNumber(Run(cfg, app, now, env, steps[..last]), env, steps[last]);
    }
  }

  lemma StepKeepsNumber<A(!new)>(n: Node<A>, env: Env<A>, s: Step<A>)
    requires NodeOk(n) && EnvOk(env) && (s.EmergencyCall? ==> |s.mfr| == 5)
    ensures Next(n, env, s).cfg.nodeId == n.cfg.nodeId
  {
    hide NodeOk, EnvOk, Received, Ticked, Sent, MapValidate;
    NodeParts(n);
    if s.Rx? {
      RxKeepsNumber(n, env, s);
    } else if s.Tick? {
      TickKeepsNumber(n, env, s.now);
    }
    SentKeepsNumber(n, env);
  }

  lemma SentKeepsNumber<A>(a: Node<A>, env: Env<A>)
    ensures forall q: Node<A>, id: nat, data: seq<u8>, kind | |data| <= 8 :: Sent(q, env, id, data, kind).cfg == q.cfg
  {
  }

  lemma TickKeepsNumber<A>(n: Node<A>, env: Env<A>, now: u32)
    requires NodeOk(n)
    ensures Ticked(n, env, now).cfg.nodeId == n.cfg.nodeId
  {
    hide NodeOk, TpdoTickFrom, Sends;
    NodeParts(n);
    BeforeTpdos(n.(now := now), env, 0);
  }

  lemma RxKeepsNumber<A(!new)>(n: Node<A>, env: Env<A>, s: Step<A>)
    requires NodeOk(n) && EnvOk(env) && s.Rx?
    ensures Received(n, env, s.f, s.now).cfg.nodeId == n.cfg.nodeId
  {
    hide NodeOk, EnvOk, SdoReceived, SyncReceived, PdoReceived, MappingOk, SdoOk;
    NodeParts(n);
    AtTime(n, s.now);
    var a := n.(now := s.now);
    NodeParts(a);
    SdoKeepsNumber(a, env, s.f);
  }

  lemma SdoKeepsNumber<A>(a: Node<A>, env: Env<A>, f: Frame)
    requires MappingsOk(a) && SdoOk(a.sdo)
    ensures Shape(a) && SdoReceived(a, env, f).cfg.nodeId == a.cfg.nodeId
  {
    hide MappingsOk, OdRead, Multiplexed, Sent, ToggleBit, DownloadStarted, DownloadSegment, Assembles, Le32, Shape;
    SdoShape(a);
    SentKeepsNumber(a, env);
    if Ccs(f) == 1 {
      DownloadStartedNumber(a, env, f);
    } else if Ccs(f) == 0 {
      DownloadSegmentNumber(a, env, f);
    }
  }

  lemma DownloadStartedNumber<A>(a: Node<A>, env: Env<A>, f: Frame)
    requires MappingsOk(a)
    ensures Shape(a) && DownloadStarted(a, env, f).cfg.nodeId == a.cfg.nodeId
  {
    hide OdWrite, Multiplexed, Index, Sub, Le32, Expected;
    WriteKeepsMappings(a, env, Index(f), Sub(f), f.data[4..4 + ExpeditedLength(f)], Expedited);
  }

  lemma DownloadSegmentNumber<A>(a: Node<A>, env: Env<A>, f: Frame)
    requires MappingsOk(a) && (a.sdo.Downloading? ==> a.sdo.toggle <= 1)
    ensures Shape(a) && DownloadSegment(a, env, f).cfg.nodeId == a.cfg.nodeId
  {
    hide OdWrite, Multiplexed, Le32, ToggleBit, LastBit;
    if a.sdo.Downloading? {
      var got := a.sdo.got + f.data[1..1 + SegLength(f)];
      WriteKeepsMappings(a, env, a.sdo.index, a.sdo.sub, got, Segmented(a.sdo.frames + [f]));
    }
  }
}
