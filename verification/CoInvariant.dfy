/** Every step of the node keeps the invariant of `CoNet`, and PDOs and SYNC leave NMT, SDO
    and PDO parameters alone. */
module CoInvariant {
  import opened Bytes
  import opened CoTypes
  import opened CoDictionary
  import opened CoPdo
  import opened CoSdo
  import opened CoNet

  lemma WithTransfer<A>(n: Node<A>, t: Transfer)
    requires NodeOk(n) && SdoOk(t) && (n.nmt == STOPPED ==> t.Idle?)
    ensures NodeOk(n.(sdo := t))
  {
    hide MappingOk, SdoOk, TraceOk;
  }

  lemma RepliedOk<A>(n: Node<A>, env: Env<A>, t: Transfer, d: Bytes8)
    requires NodeOk(n) && SdoOk(t) && n.nmt != STOPPED
    ensures NodeOk(Replied(n.(sdo := t), env, d))
  {
    hide NodeOk, SdoOk, Sent;
    WithTransfer(n, t);
    SentOk(n.(sdo := t), env, 0x580 + n.cfg.nodeId, d, SDO);
  }

  lemma AbortedOk<A>(n: Node<A>, env: Env<A>, index: u16, sub: u8, code: u32)
    requires NodeOk(n) && n.nmt != STOPPED
    ensures NodeOk(Aborted(n, env, index, sub, code))
  {
    hide NodeOk, Sent, Multiplexed;
    RepliedOk(n, env, Idle, Multiplexed(0x80, index, sub, Le32(code)));
  }

  lemma WriteOk<A>(n: Node<A>, env: Env<A>, index: u16, sub: u8, data: seq<u8>, source: Source)
    requires NodeOk(n) && (source.Segmented? ==> Complete(source.frames, index, sub, data))
    ensures NodeOk(OdWrite(n, env, index, sub, data, source).0)
    ensures OdWrite(n, env, index, sub, data, source).0.nmt == n.nmt
  {
    hide MappingOk, SdoOk, TraceOk, OdWrite, Complete;
    WriteKeepsMappings(n, env, index, sub, data, source);
    var code := OdWrite(n, env, index, sub, data, source).1;
    TraceGrows(n.trace, Wrote(index, sub, data, code, source));
  }

  // ---------------------------------------------------------------- SDO

  lemma UploadStartedOk<A(!new)>(n: Node<A>, env: Env<A>, index: u16, sub: u8)
    requires NodeOk(n) && EnvOk(env) && n.nmt != STOPPED
    ensures NodeOk(UploadStarted(n, env, index, sub))
  {
    NodeTransferOk(n);
    OdReadFits(n, env, index, sub);
    hide NodeOk, OdRead, Sent, EnvOk, Replied, Aborted, Multiplexed;
    var r := OdRead(n, env, index, sub);
    if r.Abort? {
      AbortedOk(n, env, index, sub, r.code);
    } else if |r.bytes| <= 4 {
      var pad := r.bytes + seq(4 - |r.bytes|, _ => 0);
      RepliedOk(n, env, Idle, Multiplexed(0x43 + 4 * (4 - |r.bytes|), index, sub, pad));
    } else {
      RepliedOk(n, env, Uploading(index, sub, r.bytes, 0, 0, n.now),
                Multiplexed(0x41, index, sub, Le32(Wrap32(|r.bytes|))));
    }
  }

  lemma NodeTransferOk<A>(n: Node<A>)
    requires NodeOk(n)
    ensures Shape(n) && SdoOk(n.sdo)
  {
  }

  lemma UploadSegmentOk<A>(n: Node<A>, env: Env<A>, f: Frame)
    requires NodeOk(n) && n.nmt != STOPPED
    ensures n.sdo.Uploading? ==> n.sdo.pos <= |n.sdo.data| && n.sdo.toggle <= 1
    ensures NodeOk(UploadSegment(n, env, f))
  {
    hide NodeOk, Sent, Replied, Aborted, Multiplexed, ToggleBit;
    NodeTransferOk(n);
    if !n.sdo.Uploading? {
      AbortedOk(n, env, 0, 0, ABORT_CMD);
    } else if ToggleBit(f) != n.sdo.toggle {
      AbortedOk(n, env, n.sdo.index, n.sdo.sub, ABORT_TOGGLE);
    } else {
      var t := n.sdo;
      var remain := |t.data| - t.pos;
      var k := if remain > 7 then 7 else remain;
      var last := k == remain;
      var d := [t.toggle * 16 + (7 - k) * 2 + (if last then 1 else 0)] + t.data[t.pos..t.pos + k] + seq(7 - k, _ => 0);
      RepliedOk(n, env, if last then Idle else t.(pos := t.pos + k, toggle := 1 - t.toggle, last := n.now), d);
    }
  }

  lemma DownloadStartedOk<A>(n: Node<A>, env: Env<A>, f: Frame)
    requires NodeOk(n) && n.nmt != STOPPED && Ccs(f) == 1
    ensures NodeOk(DownloadStarted(n, env, f))
  {
    hide NodeOk, OdWrite, Sent, Replied, Aborted, Multiplexed, Ccs, Index, Sub, Expected, IsExpedited;
    NodeTransferOk(n);
    var ok := Multiplexed(0x60, Index(f), Sub(f), [0, 0, 0, 0]);
    if IsExpedited(f) {
      var data := f.data[4..4 + ExpeditedLength(f)];
      var (m, code) := OdWrite(n, env, Index(f), Sub(f), data, Expedited);
      WriteOk(n, env, Index(f), Sub(f), data, Expedited);
      if code != 0 {
        AbortedOk(m, env, Index(f), Sub(f), code);
      } else {
        RepliedOk(m, env, Idle, ok);
      }
    } else if Expected(f) > SDO_BUF {
      AbortedOk(n, env, Index(f), Sub(f), ABORT_OUT_OF_MEMORY);
    } else {
      RepliedOk(n, env, Downloading(Index(f), Sub(f), Expected(f), [], 0, n.now, [f]), ok);
    }
  }

  lemma DownloadSegmentOk<A>(n: Node<A>, env: Env<A>, f: Frame)
    requires NodeOk(n) && n.nmt != STOPPED && Ccs(f) == 0
    ensures Shape(n) && (n.sdo.Downloading? ==> n.sdo.toggle <= 1)
    ensures NodeOk(DownloadSegment(n, env, f))
  {
    hide NodeOk, OdWrite, Sent, Replied, Aborted, Ccs, ToggleBit, LastBit, SegLength, Assembles, Complete;
    NodeTransferOk(n);
    if !n.sdo.Downloading? {
      AbortedOk(n, env, 0, 0, ABORT_CMD);
    } else {
      var t := n.sdo;
      var got := t.got + f.data[1..1 + SegLength(f)];
      var d: seq<u8> := [0x20 + t.toggle * 16, 0, 0, 0, 0, 0, 0, 0];
      if ToggleBit(f) == t.toggle && |got| <= SDO_BUF {
        AssemblesMore(t.frames, t.index, t.sub, t.expected, t.got, t.toggle, f);
      }
      if ToggleBit(f) != t.toggle {
        AbortedOk(n, env, t.index, t.sub, ABORT_TOGGLE);
      } else if |got| > SDO_BUF {
        AbortedOk(n, env, t.index, t.sub, ABORT_OUT_OF_MEMORY);
      } else if !LastBit(f) {
        RepliedOk(n, env, t.(got := got, toggle := 1 - t.toggle, last := n.now, frames := t.frames + [f]), d);
      } else if t.expected != 0 && |got| != t.expected {
        AbortedOk(n, env, t.index, t.sub, ABORT_TYPE_MISMATCH);
      } else {
        var source := Segmented(t.frames + [f]);
        WriteOk(n, env, t.index, t.sub, got, source);
        var (m, code) := OdWrite(n, env, t.index, t.sub, got, source);
        if code != 0 {
          AbortedOk(m, env, t.index, t.sub, code);
        } else {
          RepliedOk(m, env, Idle, d);
        }
      }
    }
  }

  lemma SdoReceivedOk<A(!new)>(n: Node<A>, env: Env<A>, f: Frame)
    requires NodeOk(n) && EnvOk(env) && n.nmt != STOPPED
    ensures NodeOk(SdoReceived(n, env, f))
  {
    hide NodeOk, DownloadSegment, DownloadStarted, UploadStarted, UploadSegment, Aborted, EnvOk;
    NodeTransferOk(n);
    if f.dlc >= 8 && !f.rtr {
      if Ccs(f) == 0 {
        DownloadSegmentOk(n, env, f);
      } else if Ccs(f) == 1 {
        DownloadStartedOk(n, env, f);
      } else if Ccs(f) == 2 {
        UploadStartedOk(n, env, Index(f), Sub(f));
      } else if Ccs(f) == 3 {
        UploadSegmentOk(n, env, f);
      } else if Ccs(f) == 4 {
        WithTransfer(n, Idle);
      } else {
        AbortedOk(n, env, Index(f), Sub(f), ABORT_CMD);
      }
    }
  }

  // ---------------------------------------------------------------- PDO

  /** Sending or not sending a TPDO in OPERATIONAL keeps the invariant. */
  lemma TpdoSentOk<A>(n: Node<A>, env: Env<A>, i: nat)
    requires NodeOk(n) && n.nmt == OPERATIONAL && i < TPDO_COUNT
    ensures NodeOk(TpdoSent(n, env, i))
  {
    hide MappingOk, SdoOk, TraceOk, Sent, Packed;
    var p := n.tpdo[i];
    var r := Current(n, env, p);
    if r.Payload? {
      SentOk(n, env, p.cobId % 0x800, r.bytes, PDO(i));
      SameButTrace(n, env, p.cobId % 0x800, r.bytes, PDO(i));
    }
  }

  lemma SameButTrace<A>(n: Node<A>, env: Env<A>, id: nat, data: seq<u8>, kind: Kind)
    requires |data| <= 8
    ensures Sent(n, env, id, data, kind) == n.(trace := Sent(n, env, id, data, kind).trace)
  {
  }

  lemma {:induction false} TpdoTickFromOk<A>(n: Node<A>, env: Env<A>, i: nat)
    requires NodeOk(n) && n.nmt == OPERATIONAL && i <= TPDO_COUNT
    ensures NodeOk(TpdoTickFrom(n, env, i))
    decreases TPDO_COUNT - i
  {
    hide NodeOk, Due, TpdoSent, MappingsOk;
    NodeTransferOk(n);
    if i < TPDO_COUNT {
      if Due(n, env, n.tpdo[i]) {
        TpdoSentOk(n, env, i);
        TpdoTickFromOk(TpdoSent(n, env, i), env, i + 1);
      } else {
        TpdoTickFromOk(n, env, i + 1);
      }
    }
  }

  lemma SyncTpdoOk<A>(n: Node<A>, env: Env<A>, i: nat)
    requires NodeOk(n) && n.nmt == OPERATIONAL && i < TPDO_COUNT
    ensures NodeOk(SyncTpdo(n, env, i))
  {
    hide SdoOk, TraceOk, TpdoSent, Changed, MappingOk;
    var p := n.tpdo[i];
    var m := n.(tpdo := n.tpdo[i := p.(syncCount := (p.syncCount + 1) % 0x100)]);
    assert NodeOk(m);
    TpdoSentOk(n, env, i);
    TpdoSentOk(m, env, i);
  }

  lemma {:induction false} SyncTpdosOk<A>(n: Node<A>, env: Env<A>, i: nat)
    requires NodeOk(n) && n.nmt == OPERATIONAL && i <= TPDO_COUNT
    ensures NodeOk(SyncTpdos(n, env, i))
    decreases TPDO_COUNT - i
  {
    hide NodeOk, SyncTpdo, MappingsOk;
    NodeTransferOk(n);
    if i < TPDO_COUNT {
      SyncTpdoOk(n, env, i);
      SyncTpdosOk(SyncTpdo(n, env, i), env, i + 1);
    }
  }

  lemma EmergencyOk<A>(n: Node<A>, env: Env<A>, code: u16, errBits: u8, mfr: seq<u8>)
    requires NodeOk(n) && |mfr| == 5
    ensures NodeOk(Emergency(n, env, code, errBits, mfr))
  {
    hide MappingOk, SdoOk, TraceOk, Sent, Or8, AndNot8;
    var reg := if code == 0 then AndNot8(n.errorRegister, errBits) else Or8(n.errorRegister, errBits);
    var q := n.(errorRegister := reg);
    assert NodeOk(q);
    if n.nmt != STOPPED {
      SentOk(q, env, 0x80 + n.cfg.nodeId, Le16(code) + [reg] + mfr, EMCY);
    }
  }

  lemma {:induction false} MappedWritesOk<A>(n: Node<A>, env: Env<A>, entries: seq<u32>, count: nat, data: Bytes8,
          i: nat)
    requires NodeOk(n) && MappingOk(entries, count, false) && i <= count
    ensures NodeOk(MappedWrites(n, env, entries, count, data, i))
    decreases count - i
  {
    hide NodeOk, MappingOk, OdWrite, EntryIndex, EntrySub, EntryBits, NeedBytes;
    NodeTransferOk(n);
    if i == count {
      assert MappedWrites(n, env, entries, count, data, i) == n;
    } else {
      var m := MappedStep(n, env, entries, count, data, i);
      MappedWritesOk(m, env, entries, count, data, i + 1);
    }
  }

  lemma MappedStep<A>(n: Node<A>, env: Env<A>, entries: seq<u32>, count: nat, data: Bytes8, i: nat) returns (m: Node<A>)
    requires NodeOk(n) && MappingOk(entries, count, false) && i < count
    ensures Shape(n) && Shape(m) && NodeOk(m)
    ensures MappedWrites(n, env, entries, count, data, i) == MappedWrites(m, env, entries, count, data, i + 1)
  {
    NodeTransferOk(n);
    MappedUnfold(n, env, entries, count, data, i);
    hide NodeOk, OdWrite, EntryIndex, EntrySub, EntryBits, Shape, NeedBytes, MappedWrites, MappingOk;
    var part := data[NeedBytes(entries, i)..NeedBytes(entries, i) + EntryBits(entries[i]) / 8];
    WriteOk(n, env, EntryIndex(entries[i]), EntrySub(entries[i]), part, Mapped);
    m := OdWrite(n, env, EntryIndex(entries[i]), EntrySub(entries[i]), part, Mapped).0;
  }

  lemma RpdoAppliedOk<A>(n: Node<A>, env: Env<A>, p: RPdo, data: Bytes8, len: u8)
    requires NodeOk(n) && MappingOk(p.entries, p.mapCount, false)
    ensures MappingsOk(n) && NodeOk(RpdoApplied(n, env, p, data, len))
  {
    hide SdoOk, TraceOk, Emergency, MappedWrites, MappingOk;
    EmergencyOk(n, env, 0x8210, 1, [0, 0, 0, 0, 0]);
    MappedWritesOk(n, env, p.entries, p.mapCount, data, 0);
  }

  lemma SyncRpdoOk<A>(n: Node<A>, env: Env<A>, i: nat)
    requires NodeOk(n) && i < RPDO_COUNT
    ensures MappingsOk(n) && NodeOk(SyncRpdo(n, env, i))
  {
    hide SdoOk, TraceOk, RpdoApplied, MappingOk;
    var p := n.rpdo[i];
    var m := n.(rpdo := n.rpdo[i := p.(pending := false)]);
    assert NodeOk(m);
    if p.pending {
      RpdoAppliedOk(m, env, p, p.data, p.len);
    }
  }

  lemma SyncReceivedOk<A>(n: Node<A>, env: Env<A>)
    requires NodeOk(n)
    ensures MappingsOk(n) && NodeOk(SyncReceived(n, env))
  {
    hide SdoOk, TraceOk, SyncTpdos, SyncRpdo, MappingOk;
    if n.nmt == OPERATIONAL {
      var a := SyncTpdos(n, env, 0);
      SyncTpdosOk(n, env, 0);
      SyncRpdoOk(a, env, 0);
      SyncRpdoOk(SyncRpdo(a, env, 0), env, 1);
    }
  }

  lemma PdoReceivedOk<A>(n: Node<A>, env: Env<A>, f: Frame)
    requires NodeOk(n)
    ensures MappingsOk(n) && NodeOk(PdoReceived(n, env, f))
  {
    hide SdoOk, TraceOk, TpdoSent, RpdoApplied, MappingOk, FindTpdo, FindRpdo;
    if n.nmt == OPERATIONAL {
      if f.rtr {
        var k := FindTpdo(n.tpdo, f.id, 0);
        if k < TPDO_COUNT {
          TpdoSentOk(n, env, k);
        }
      } else {
        var k := FindRpdo(n.rpdo, f.id, 0);
        if k < RPDO_COUNT {
          RpdoAppliedOk(n, env, n.rpdo[k], f.data, f.dlc);
        }
      }
    }
  }

  // ---------------------------------------------------------------- NMT, ticks, calls

  lemma ResetOk<A>(n: Node<A>, resetNode: bool)
    requires 1 <= n.cfg.nodeId <= 127 && TraceOk(n.trace)
    ensures NodeOk(Reset(n, resetNode))
  {
    hide TraceOk;
  }

  lemma NmtReceivedOk<A>(n: Node<A>, f: Frame)
    requires NodeOk(n)
    ensures NodeOk(NmtReceived(n, f))
  {
    hide TraceOk, MappingOk, Reset;
    ResetOk(n, true);
    ResetOk(n, false);
  }

  lemma HeartbeatTickOk<A>(n: Node<A>, env: Env<A>)
    requires NodeOk(n)
    ensures NodeOk(HeartbeatTick(n, env))
  {
    hide SdoOk, TraceOk, MappingOk, Sent, Accepted;
    SentOk(n, env, 0x700 + n.cfg.nodeId, [0], HEARTBEAT);
    SentOk(n, env, 0x700 + n.cfg.nodeId, [NmtCode(n.nmt)], HEARTBEAT);
  }

  lemma TimedOutOk<A>(n: Node<A>, env: Env<A>)
    requires NodeOk(n)
    ensures NodeOk(TimedOut(n, env))
  {
    hide SdoOk, TraceOk, MappingOk, Aborted;
    if !n.sdo.Idle? {
      AbortedOk(n, env, n.sdo.index, n.sdo.sub, ABORT_TIMEOUT);
    }
  }

  lemma AtTime<A>(n: Node<A>, now: u32)
    requires NodeOk(n)
    ensures NodeOk(n.(now := now))
  {
    hide SdoOk, TraceOk, MappingOk;
  }

  lemma TickedOk<A>(n: Node<A>, env: Env<A>, now: u32)
    requires NodeOk(n)
    ensures NodeOk(Ticked(n, env, now))
  {
    hide NodeOk, HeartbeatTick, TimedOut, TpdoTickFrom;
    AtTime(n, now);
    HeartbeatTickOk(n.(now := now), env);
    var m := TimedOut(HeartbeatTick(n.(now := now), env), env);
    TimedOutOk(HeartbeatTick(n.(now := now), env), env);
    if m.nmt == OPERATIONAL {
      TpdoTickFromOk(m, env, 0);
    }
  }

  lemma ReceivedOk<A(!new)>(n: Node<A>, env: Env<A>, f: Frame, now: u32)
    requires NodeOk(n) && EnvOk(env)
    ensures NodeOk(Received(n, env, f, now))
  {
    AtTime(n, now);
    var m := n.(now := now);
    NodeTransferOk(m);
    hide NodeOk, NmtReceived, SyncReceived, SdoReceived, PdoReceived, EnvOk;
    if f.id == 0 {
      NmtReceivedOk(m, f);
    } else if m.nmt == INITIALISING {
    } else if f.id == 0x80 && !f.rtr {
      SyncReceivedOk(m, env);
    } else if m.nmt == STOPPED {
    } else if f.id == 0x600 + m.cfg.nodeId {
      SdoReceivedOk(m, env, f);
    } else {
      PdoReceivedOk(m, env, f);
    }
  }

  lemma ConfiguredOk<A>(n: Node<A>, env: Env<A>, s: Step<A>)
    requires NodeOk(n) && (s.ConfigureTpdo? || s.ConfigureRpdo?)
    ensures NodeOk(Next(n, env, s))
  {
    hide SdoOk, TraceOk, MappingOk, MapValidate;
    if |s.entries| <= MAP_MAX {
      if s.ConfigureTpdo? && s.i < TPDO_COUNT {
        PaddedOk(n, env, s.entries, n.tpdo[s.i].entries, true);
      }
      if s.ConfigureRpdo? && s.i < RPDO_COUNT {
        PaddedOk(n, env, s.entries, n.rpdo[s.i].entries, false);
      }
    }
  }

  /** A validated mapping stays one when the unused entries keep their old values. */
  lemma PaddedOk<A>(n: Node<A>, env: Env<A>, entries: seq<u32>, older: seq<u32>, forTx: bool)
    requires Shape(n) && |entries| <= MAP_MAX == |older|
    ensures MapValidate(n, env, entries, |entries|, forTx, 0, 0) == 0 ==>
      MappingOk(entries + older[|entries|..], |entries|, forTx)
  {
    ValidatePrefix(n, env, entries, entries + older[|entries|..], |entries|, forTx, 0, 0);
    ValidateIffOk(n, env, entries + older[|entries|..], |entries|, forTx);
  }

  lemma {:induction false} ValidatePrefix<A>(n: Node<A>, env: Env<A>, x: seq<u32>, y: seq<u32>, count: nat,
          forTx: bool, i: nat, bits: nat)
    requires Shape(n) && i <= count <= |x| && count <= |y| && x[..count] == y[..count]
    ensures MapValidate(n, env, x, count, forTx, i, bits) == MapValidate(n, env, y, count, forTx, i, bits)
    decreases count - i
  {
    hide OdRead, EntryIndex, EntrySub, Shape;
    if i < count {
      assert x[i] == x[..count][i] == y[..count][i] == y[i];
      ValidatePrefix(n, env, x, y, count, forTx, i + 1, bits + EntryBits(x[i]));
    }
  }

  /** Every step keeps the invariant. */
  lemma NextOk<A(!new)>(n: Node<A>, env: Env<A>, s: Step<A>)
    requires NodeOk(n) && EnvOk(env) && (s.EmergencyCall? ==> |s.mfr| == 5)
    ensures NodeOk(Next(n, env, s))
  {
    match s
    case Rx(f, now) => ReceivedOk(n, env, f, now);
    case Tick(now) => TickedOk(n, env, now);
    case EmergencyCall(code, errBits, mfr) => EmergencyOk(n, env, code, errBits, mfr);
    case ConfigureTpdo(_, _, _, _, _, _) => ConfiguredOk(n, env, s);
    case ConfigureRpdo(_, _, _, _) => ConfiguredOk(n, env, s);
    case _ => OtherOk(n, env, s);
  }

  lemma OtherOk<A>(n: Node<A>, env: Env<A>, s: Step<A>)
    requires NodeOk(n) && (s.RequestTpdo? || s.SetHeartbeat? || s.AppChange?)
    ensures NodeOk(Next(n, env, s))
  {
    hide SdoOk, TraceOk, MappingOk;
  }

  function Run<A(!new)>(cfg: Config, app: A, now: u32, env: Env<A>, steps: seq<Step<A>>): (n: Node<A>)
    requires (forall s | s in steps :: s.EmergencyCall? ==> |s.mfr| == 5) && EnvOk(env)
    ensures NodeOk(n)
  {
    if steps == [] then
      StartOk(cfg, app, now);
      Initialised(cfg, app, now)
    else
      var k := |steps| - 1;
      NextOk(Run(cfg, app, now, env, steps[..k]), env, steps[k]);
      Next(Run(cfg, app, now, env, steps[..k]), env, steps[k])
  }

  lemma StartOk<A>(cfg: Config, app: A, now: u32)
    ensures NodeOk(Initialised(cfg, app, now))
  {
    var c := cfg.(nodeId := if 1 <= cfg.nodeId <= 127 then cfg.nodeId else 127);
    ResetOk(Node(c, INITIALISING, 0, now, 0, false, Idle, [], [], app, []), true);
  }

  /** In every run: mappings are valid, the transfer is well formed and idle while stopped,
      PDOs were sent only in OPERATIONAL, SDO and EMCY frames never while stopped, a
      heartbeat reported boot-up or the state it was sent in, and no object was written from
      a download that was incomplete, wrongly toggled, over-long or of another size than the
      one announced, if that is not 0. */
  lemma RunIsSafe<A(!new)>(cfg: Config, app: A, now: u32, env: Env<A>, steps: seq<Step<A>>, i: nat)
    requires (forall s | s in steps :: s.EmergencyCall? ==> |s.mfr| == 5) && EnvOk(env)
    requires i < |Run(cfg, app, now, env, steps).trace|
    ensures var n := Run(cfg, app, now, env, steps);
      && MappingsOk(n) && SdoOk(n.sdo) && (n.nmt == STOPPED ==> n.sdo == Idle)
      && match n.trace[i]
         case Tx(frame, _, kind, nmt) =>
           && (kind.PDO? ==> nmt == OPERATIONAL)
           && (kind == SDO || kind == EMCY ==> nmt == OPERATIONAL || nmt == PREOPERATIONAL)
           && (kind == HEARTBEAT ==> frame.data[0] == 0 || frame.data[0] == NmtCode(nmt))
         case Wrote(index, sub, data, _, source) =>
           source.Segmented? ==>
             && Complete(source.frames, index, sub, data) && |data| <= SDO_BUF
             && (Sized(source.frames[0]) && SizeField(source.frames[0]) != 0 ==> |data| == SizeField(source.frames[0]))
  {
    var n := Run(cfg, app, now, env, steps);
    hide Run;
    assert EventOk(n.trace[i]);
  }

  /** A frame or a SYNC that is neither NMT nor SDO changes no NMT, SDO or PDO parameter
      and leaves the heartbeat settings alone. */
  lemma PdosLeaveParameters<A>(n: Node<A>, env: Env<A>, f: Frame, now: u32)
    requires NodeOk(n) && f.id != 0 && f.id != 0x600 + n.cfg.nodeId
    ensures Shape(n.(now := now)) && Shape(Received(n, env, f, now))
    ensures SameParameters(n.(now := now), Received(n, env, f, now))
  {
    hide NodeOk, SyncReceived, PdoReceived;
    AtTime(n, now);
    var m := n.(now := now);
    NodeTransferOk(m);
    assert SameParameters(m, m);
    if f.id == 0x80 && !f.rtr {
      SyncReceivedOk(m, env);
    } else {
      PdoReceivedOk(m, env, f);
    }
  }

  /** What an NMT command addressed to this node asks for; other frames ask for nothing. */
  datatype Command = NoCommand | Enter(state: Nmt) | ResetTo(node: bool)

  function CommandOf(nodeId: nat, f: Frame): Command {
    if f.id != 0 || f.dlc < 2 || (f.data[1] != 0 && f.data[1] != nodeId) then NoCommand
    else
      match f.data[0]
      case 0x01 => Enter(OPERATIONAL)
      case 0x02 => Enter(STOPPED)
      case 0x80 => Enter(PREOPERATIONAL)
      case 0x81 => ResetTo(true)
      case 0x82 => ResetTo(false)
      case _ => NoCommand
  }

  /** The NMT state follows the commands and nothing else: not an SDO write, a PDO, a tick
      or a call of the owner. A reset ends in PRE-OPERATIONAL with all PDOs disabled and the
      boot-up message pending; stopping ends a transfer. */
  lemma NmtFollowsCommands<A>(n: Node<A>, env: Env<A>, s: Step<A>)
    requires NodeOk(n) && (s.EmergencyCall? ==> |s.mfr| == 5)
    ensures var m := Next(n, env, s);
      match if s.Rx? then CommandOf(n.cfg.nodeId, s.f) else NoCommand
      case NoCommand => m.nmt == n.nmt
      case Enter(state) => m.nmt == state && (state == STOPPED ==> m.sdo == Idle)
      case ResetTo(_) => m.nmt == PREOPERATIONAL && m.bootup && m.sdo == Idle && forall p <- m.tpdo :: !p.Enabled()
  {
    hide TraceOk, SdoOk, MapValidate, MappingOk, SyncReceived, SdoReceived, PdoReceived, TpdoTick, Emergency;
    match s
    case Rx(f, now) => FramesKeepNmt(n, env, f, now);
    case Tick(now) => TickKeepsState(n, env, now);
    case EmergencyCall(code, errBits, mfr) => EmergencyKeepsState(n, env, code, errBits, mfr);
    case _ =>
  }

  lemma FramesKeepNmt<A>(n: Node<A>, env: Env<A>, f: Frame, now: u32)
    requires NodeOk(n)
    ensures var m := Received(n, env, f, now);
      match CommandOf(n.cfg.nodeId, f)
      case NoCommand => m.nmt == n.nmt
      case Enter(state) => m.nmt == state && (state == STOPPED ==> m.sdo == Idle)
      case ResetTo(_) => m.nmt == PREOPERATIONAL && m.bootup && m.sdo == Idle && forall p <- m.tpdo :: !p.Enabled()
  {
    hide NodeOk, SyncReceived, SdoReceived, PdoReceived, SdoOk, MappingsOk;
    AtTime(n, now);
    var a := n.(now := now);
    NodeTransferOk(a);
    HasMappings(a);
    if f.id == 0 {
    } else if f.id == 0x80 && !f.rtr {
      SyncKeepsState(a, env);
    } else if f.id == 0x600 + a.cfg.nodeId {
      SdoKeepsNmt(a, env, f);
    } else {
      PdoKeepsState(a, env, f);
    }
  }

  lemma HasMappings<A>(n: Node<A>)
    requires NodeOk(n)
    ensures MappingsOk(n)
  {
  }

  lemma SyncKeepsState<A>(n: Node<A>, env: Env<A>)
    requires MappingsOk(n)
    ensures SyncReceived(n, env).nmt == n.nmt
  {
    hide SyncReceived, MappingOk;
    assert SameParameters(n, SyncReceived(n, env));
  }

  lemma PdoKeepsState<A>(n: Node<A>, env: Env<A>, f: Frame)
    requires MappingsOk(n)
    ensures PdoReceived(n, env, f).nmt == n.nmt
  {
    hide PdoReceived, MappingOk;
    assert SameParameters(n, PdoReceived(n, env, f));
  }

  lemma EmergencyKeepsState<A>(n: Node<A>, env: Env<A>, code: u16, errBits: u8, mfr: seq<u8>)
    requires |mfr| == 5
    ensures Emergency(n, env, code, errBits, mfr).nmt == n.nmt
  {
  }

  lemma TickKeepsState<A>(n: Node<A>, env: Env<A>, now: u32)
    requires NodeOk(n)
    ensures Ticked(n, env, now).nmt == n.nmt
  {
    hide TpdoTick, NodeOk, Sent, Accepted;
    AtTime(n, now);
    HeartbeatTickOk(n.(now := now), env);
    TimedOutOk(HeartbeatTick(n.(now := now), env), env);
    var a := TimedOut(HeartbeatTick(n.(now := now), env), env);
    NodeTransferOk(a);
    SameButTrace(n.(now := now), env, 0x700 + n.cfg.nodeId, [0], HEARTBEAT);
    SameButTrace(n.(now := now), env, 0x700 + n.cfg.nodeId, [NmtCode(n.nmt)], HEARTBEAT);
    TimeoutKeepsNmt(HeartbeatTick(n.(now := now), env), env);
    assert SameParameters(a, TpdoTick(a, env));
  }

  lemma TimeoutKeepsNmt<A>(n: Node<A>, env: Env<A>)
    ensures TimedOut(n, env).nmt == n.nmt
  {
  }

  lemma WriteKeepsNmt<A>(n: Node<A>, env: Env<A>, index: u16, sub: u8, data: seq<u8>, source: Source)
    requires Shape(n)
    ensures OdWrite(n, env, index, sub, data, source).0.nmt == n.nmt
  {
    hide MapValidate, FromLe16, FromLe32;
  }

  lemma SdoKeepsNmt<A>(n: Node<A>, env: Env<A>, f: Frame)
    requires Shape(n) && SdoOk(n.sdo)
    ensures SdoReceived(n, env, f).nmt == n.nmt
  {
    hide SdoOk, OdWrite, OdRead, Shape, Multiplexed, Ccs, Index, Sub, Expected, IsExpedited, ToggleBit, SegLength,
        LastBit;
    if f.dlc >= 8 && !f.rtr {
      if Ccs(f) == 1 && IsExpedited(f) {
        WriteKeepsNmt(n, env, Index(f), Sub(f), f.data[4..4 + ExpeditedLength(f)], Expedited);
      }
      if Ccs(f) == 0 && n.sdo.Downloading? {
        var t := n.sdo;
        WriteKeepsNmt(n, env, t.index, t.sub, t.got + f.data[1..1 + SegLength(f)], Segmented(t.frames + [f]));
      }
    }
  }
}
