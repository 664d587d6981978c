/** The node as it is kept in memory: PDO tables and the transfer buffer are updated in
    place. Every operation is proved to do what its counterpart on values does. */
module CoNode {
  import opened Bytes
  import opened CoTypes
  import opened CoDictionary
  import opened CoPdo
  import opened CoSdo
  import opened CoNet
  import opened CoInvariant

  datatype SdoState = SDO_IDLE | SDO_UPLOAD_SEG | SDO_DOWNLOAD_SEG

  /** The transfer without its buffer: of an upload `pos` of `len` bytes have been sent, of
      a download `pos` bytes received and `len` announced. */
  datatype Sdo = Sdo(state: SdoState, index: u16, sub: u8, len: nat, pos: nat, toggle: nat, last: u32)

  lemma FreshShape(nodeId: nat, i: nat)
    requires 1 <= nodeId <= 127
    ensures i < TPDO_COUNT ==> |FreshTpdo(nodeId, i).entries| == MAP_MAX && FreshTpdo(nodeId, i).mapCount == 0
    ensures i < RPDO_COUNT ==> |FreshRpdo(nodeId, i).entries| == MAP_MAX && FreshRpdo(nodeId, i).mapCount == 0
  {
  }

  class Slave<A(!new)> {
    const env: Env<A>
    var cfg: Config
    var nmt: Nmt
    var errorRegister: u8
    var now: u32
    var hbLast: u32
    var bootup: bool
    var sdo: Sdo
    const buf: array<u8>
    const tpdo: array<TPdo>
    const rpdo: array<RPdo>

    // The outside: the application behind the callbacks, all frames and writes so far, and
    // the frames of the download in progress (recorded for the log only).
    var app: A
    var trace: seq<Event>
    var frames: seq<Frame>

    ghost predicate Valid()
      reads this, tpdo, rpdo
    {
      && buf.Length == SDO_BUF && tpdo.Length == TPDO_COUNT && rpdo.Length == RPDO_COUNT
      && sdo.len <= SDO_BUF && sdo.pos <= SDO_BUF && sdo.toggle <= 1
      && (sdo.state == SDO_UPLOAD_SEG ==> sdo.pos <= sdo.len)
      && 1 <= cfg.nodeId <= 127
      && (forall i | 0 <= i < TPDO_COUNT :: |tpdo[i].entries| == MAP_MAX && tpdo[i].mapCount <= MAP_MAX)
      && (forall i | 0 <= i < RPDO_COUNT :: |rpdo[i].entries| == MAP_MAX && rpdo[i].mapCount <= MAP_MAX)
    }

    function Transfer(): CoTypes.Transfer
      reads this, buf
      requires buf.Length == SDO_BUF && sdo.len <= SDO_BUF && sdo.pos <= SDO_BUF
    {
      match sdo.state
      case SDO_IDLE => Idle
      case SDO_UPLOAD_SEG => Uploading(sdo.index, sdo.sub, buf[..sdo.len], sdo.pos, sdo.toggle, sdo.last)
      case SDO_DOWNLOAD_SEG => Downloading(sdo.index, sdo.sub, sdo.len, buf[..sdo.pos], sdo.toggle, sdo.last, frames)
    }

    /** The state as a value. */
    function Model(): (n: Node<A>)
      reads this, buf, tpdo, rpdo
      requires Valid()
      ensures Shape(n)
    {
      Node(cfg, nmt, errorRegister, now, hbLast, bootup, Transfer(), tpdo[..], rpdo[..], app, trace)
    }

    constructor (config: Config, env: Env<A>, app: A, now: u32)
      ensures Valid() && fresh(buf) && fresh(tpdo) && fresh(rpdo) && this.env == env
      ensures Model() == Initialised(config, app, now)
    {
      this.env, this.app, this.now := env, app, now;
      cfg := config.(nodeId := if 1 <= config.nodeId <= 127 then config.nodeId else 127);
      nmt, errorRegister, hbLast, bootup, trace, frames := INITIALISING, 0, 0, false, [], [];
      sdo := Sdo(SDO_IDLE, 0, 0, 0, 0, 0, 0);
      buf := new u8[SDO_BUF](_ => 0);
      tpdo := new TPdo[TPDO_COUNT](_ => FreshTpdo(1, 0));
      rpdo := new RPdo[RPDO_COUNT](_ => FreshRpdo(1, 0));
      new;
      NodeReset(true);
    }

    method ResetTpdos()
      requires Valid()
      modifies tpdo
      ensures Valid() && forall k | 0 <= k < TPDO_COUNT :: tpdo[k] == FreshTpdo(cfg.nodeId, k)
    {
      hide FreshTpdo;
      var i := 0;
      while i < TPDO_COUNT
        invariant i <= TPDO_COUNT && Valid()
        invariant forall k | 0 <= k < i :: tpdo[k] == FreshTpdo(cfg.nodeId, k)
      {
        FreshShape(cfg.nodeId, i);
        tpdo[i] := FreshTpdo(cfg.nodeId, i);
        i := i + 1;
      }
    }

    method ResetRpdos()
      requires Valid()
      modifies rpdo
      ensures Valid() && forall k | 0 <= k < RPDO_COUNT :: rpdo[k] == FreshRpdo(cfg.nodeId, k)
    {
      hide FreshRpdo;
      var i := 0;
      while i < RPDO_COUNT
        invariant i <= RPDO_COUNT && Valid()
        invariant forall k | 0 <= k < i :: rpdo[k] == FreshRpdo(cfg.nodeId, k)
      {
        FreshShape(cfg.nodeId, i);
        rpdo[i] := FreshRpdo(cfg.nodeId, i);
        i := i + 1;
      }
    }

    method NodeReset(resetNode: bool)
      requires Valid()
      modifies this`sdo, this`errorRegister, this`nmt, this`bootup, this`hbLast, tpdo, rpdo
      ensures Valid() && Model() == Reset(old(Model()), resetNode)
    {
      hide FreshTpdo, FreshRpdo;
      sdo := sdo.(state := SDO_IDLE);
      ResetTpdos();
      ResetRpdos();
      if resetNode { errorRegister := 0; }
      nmt := INITIALISING;
      bootup, hbLast := true, now;
      nmt := PREOPERATIONAL;
      assert tpdo[..] == Reset(old(Model()), resetNode).tpdo;
      assert rpdo[..] == Reset(old(Model()), resetNode).rpdo;
    }

    // ---------------------------------------------------------------- frames out

    method Transmit(id: nat, d: seq<u8>, kind: Kind) returns (ok: bool)
      requires Valid() && |d| <= 8
      modifies this`trace
      ensures Valid() && Model() == Sent(old(Model()), env, id, d, kind) && ok == Accepted(old(Model()), env, id, d)
    {
      var f := Frame(id % 0x800, |d|, false, Pad8(d));
      ok := env.accepts(trace, f);
      trace := trace + [Tx(f, ok, kind, nmt)];
    }

    method SdoReply(d: Bytes8)
      requires Valid()
      modifies this`trace
      ensures Valid() && Model() == Replied(old(Model()), env, d)
    {
      var _ := Transmit(0x580 + cfg.nodeId, d, SDO);
    }

    method SdoAbort(index: u16, sub: u8, code: u32)
      requires Valid()
      modifies this`trace, this`sdo
      ensures Valid() && Model() == Aborted(old(Model()), env, index, sub, code)
    {
      hide Multiplexed;
      SdoReply(Multiplexed(0x80, index, sub, Le32(code)));
      sdo := sdo.(state := SDO_IDLE);
    }

    // ---------------------------------------------------------------- dictionary

    method MapValidate(entries: seq<u32>, count: nat, forTx: bool) returns (code: u32)
      requires Valid() && count <= |entries|
      ensures code == CoDictionary.MapValidate(Model(), env, entries, count, forTx, 0, 0)
    {
      hide OdRead, EntryIndex, EntrySub, EntryBits;
      var i: nat, bits: nat := 0, 0;
      while i < count
        invariant i <= count
        invariant CoDictionary.MapValidate(Model(), env, entries, count, forTx, 0, 0)
               == CoDictionary.MapValidate(Model(), env, entries, count, forTx, i, bits)
      {
        var w := EntryBits(entries[i]);
        if w != 8 && w != 16 && w != 32 && w != 64 { return ABORT_PDO_MAP; }
        if bits + w > 64 { return ABORT_PDO_LENGTH; }
        var r := OdRead(Model(), env, EntryIndex(entries[i]), EntrySub(entries[i]));
        if r.Abort? || (forTx && |r.bytes| != w / 8) || (!forTx && EntryIndex(entries[i]) < 0x2000) {
          return ABORT_PDO_MAP;
        }
        i, bits := i + 1, bits + w;
      }
      return 0;
    }

    method MapWrite(count: nat, entries: seq<u32>, forTx: bool, sub: u8,
            data: seq<u8>) returns (w: CoDictionary.MapWrite)
      requires Valid() && |entries| == MAP_MAX
      ensures w == MapWritten(Model(), env, count, entries, forTx, sub, data)
    {
      hide CoDictionary.MapValidate, FromLe32;
      if sub == 0 {
        if |data| != 1 { return Refused(ABORT_TYPE_MISMATCH); }
        if data[0] > MAP_MAX { return Refused(ABORT_VALUE_RANGE); }
        var code := MapValidate(entries, data[0], forTx);
        return if code != 0 then Refused(code) else NewCount(data[0]);
      }
      if sub > MAP_MAX { return Refused(ABORT_NO_SUBINDEX); }
      if |data| != 4 { return Refused(ABORT_TYPE_MISMATCH); }
      if count != 0 { return Refused(ABORT_UNSUPPORTED); }
      return NewEntry(sub - 1, FromLe32(data));
    }

    method SetTpdo(i: nat, p: TPdo)
      requires Valid() && i < TPDO_COUNT && |p.entries| == MAP_MAX && p.mapCount <= MAP_MAX
      modifies tpdo
      ensures Valid() && Model() == old(Model()).(tpdo := old(Model()).tpdo[i := p])
    {
      tpdo[i] := p;
    }

    method SetRpdo(i: nat, p: RPdo)
      requires Valid() && i < RPDO_COUNT && |p.entries| == MAP_MAX && p.mapCount <= MAP_MAX
      modifies rpdo
      ensures Valid() && Model() == old(Model()).(rpdo := old(Model()).rpdo[i := p])
    {
      rpdo[i] := p;
    }

    method OdInternalWrite(index: u16, sub: u8, data: seq<u8>) returns (code: u32)
      requires Valid()
      modifies this`cfg, this`hbLast, tpdo, rpdo
      ensures Valid() && (Model(), code) == InternalWrite(old(Model()), env, index, sub, data)
    {
      hide MapWritten, RPdoCommWrite, TPdoCommWrite, FromLe16;
      if index == 0x1017 {
        if sub != 0 { return ABORT_NO_SUBINDEX; }
        if |data| != 2 { return ABORT_TYPE_MISMATCH; }
        cfg, hbLast := cfg.(heartbeat := FromLe16(data)), now;
        return 0;
      }
      if index in {0x1000, 0x1001, 0x1005, 0x1008, 0x1009, 0x100A, 0x1014, 0x1018, 0x1200} { return ABORT_READ_ONLY; }
      if 0x1400 <= index < 0x1400 + RPDO_COUNT { code := RpdoCommWrite(index - 0x1400, sub, data); return; }
      if 0x1600 <= index < 0x1600 + RPDO_COUNT { code := RpdoMapWrite(index - 0x1600, sub, data); return; }
      if 0x1800 <= index < 0x1800 + TPDO_COUNT { code := TpdoCommWrite(index - 0x1800, sub, data); return; }
      if 0x1A00 <= index < 0x1A00 + TPDO_COUNT { code := TpdoMapWrite(index - 0x1A00, sub, data); return; }
      return ABORT_NO_OBJECT;
    }

    method RpdoCommWrite(i: nat, sub: u8, data: seq<u8>) returns (code: u32)
      requires Valid() && i < RPDO_COUNT
      modifies rpdo
      ensures Valid() && (Model(), code) == InternalWrite(old(Model()), env, 0x1400 + i, sub, data)
    {
      hide FromLe32;
      var (p, c) := RPdoCommWrite(rpdo[i], sub, data);
      SetRpdo(i, p);
      code := c;
    }

    method TpdoCommWrite(i: nat, sub: u8, data: seq<u8>) returns (code: u32)
      requires Valid() && i < TPDO_COUNT
      modifies tpdo
      ensures Valid() && (Model(), code) == InternalWrite(old(Model()), env, 0x1800 + i, sub, data)
    {
      hide FromLe32, FromLe16;
      var (p, c) := TPdoCommWrite(tpdo[i], sub, data);
      SetTpdo(i, p);
      code := c;
    }

    method RpdoMapWrite(i: nat, sub: u8, data: seq<u8>) returns (code: u32)
      requires Valid() && i < RPDO_COUNT
      modifies rpdo
      ensures Valid() && (Model(), code) == InternalWrite(old(Model()), env, 0x1600 + i, sub, data)
    {
      hide MapWritten;
      var p := rpdo[i];
      var w := MapWrite(p.mapCount, p.entries, false, sub, data);
      match w {
        case Refused(c) => return c;
        case NewCount(c) => SetRpdo(i, p.(mapCount := c));
        case NewEntry(k, e) => SetRpdo(i, p.(entries := p.entries[k := e]));
      }
      return 0;
    }

    method TpdoMapWrite(i: nat, sub: u8, data: seq<u8>) returns (code: u32)
      requires Valid() && i < TPDO_COUNT
      modifies tpdo
      ensures Valid() && (Model(), code) == InternalWrite(old(Model()), env, 0x1A00 + i, sub, data)
    {
      hide MapWritten;
      var p := tpdo[i];
      var w := MapWrite(p.mapCount, p.entries, true, sub, data);
      match w {
        case Refused(c) => return c;
        case NewCount(c) => SetTpdo(i, p.(mapCount := c, haveLast := false));
        case NewEntry(k, e) => SetTpdo(i, p.(entries := p.entries[k := e]));
      }
      return 0;
    }

    method OdWrite(index: u16, sub: u8, data: seq<u8>, source: Source) returns (code: u32)
      requires Valid()
      modifies this`cfg, this`hbLast, this`app, this`trace, tpdo, rpdo
      ensures Valid() && (Model(), code) == CoDictionary.OdWrite(old(Model()), env, index, sub, data, source)
    {
      hide InternalWrite;
      if IsInternal(index) {
        code := OdInternalWrite(index, sub, data);
      } else {
        var (a, c) := env.write(app, index, sub, data);
        app, code := a, c;
      }
      trace := trace + [Wrote(index, sub, data, code, source)];
    }

    // ---------------------------------------------------------------- PDO engine

    method TpdoBuild(p: TPdo) returns (r: Payload)
      requires Valid() && p.mapCount <= |p.entries|
      ensures r == Current(Model(), env, p)
    {
      hide OdRead, EntryIndex, EntrySub, EntryBits;
      var i: nat, data: seq<u8> := 0, [];
      while i < p.mapCount
        invariant i <= p.mapCount && |data| <= 8 && Packed(Model(), env, p.entries, i) == Payload(data)
      {
        var e := p.entries[i];
        var d := OdRead(Model(), env, EntryIndex(e), EntrySub(e));
        if d.Abort? || |d.bytes| != EntryBits(e) / 8 || |data| + |d.bytes| > 8 {
          UnreadableStays(Model(), env, p.entries, i + 1, p.mapCount);
          return Unreadable;
        }
        data, i := data + d.bytes, i + 1;
      }
      return Payload(data);
    }

    method TpdoSend(i: nat)
      requires Valid() && i < TPDO_COUNT
      modifies this`trace, tpdo
      ensures Valid() && Model() == TpdoSent(old(Model()), env, i)
    {
      hide Packed, Sent, Accepted;
      var p := tpdo[i];
      var r := TpdoBuild(p);
      if r.Unreadable? { return; }
      var ok := Transmit(p.cobId % 0x800, r.bytes, PDO(i));
      if ok {
        SentParts(old(Model()), env, p.cobId % 0x800, r.bytes, PDO(i));
        SetTpdo(i, p.(lastTx := now, haveLast := true, lastData := r.bytes, syncCount := 0));
      }
    }

    method TpdoChanged(i: nat) returns (b: bool)
      requires Valid() && i < TPDO_COUNT
      ensures b == Changed(Model(), env, tpdo[i])
    {
      hide Packed;
      var p := tpdo[i];
      var r := TpdoBuild(p);
      if r.Unreadable? { return false; }
      if !p.haveLast { return true; }
      return p.lastData != r.bytes;
    }

    method TpdoTick()
      requires Valid()
      modifies this`trace, tpdo
      ensures Valid() && Model() == CoPdo.TpdoTick(old(Model()), env)
    {
      hide TpdoSent, Changed, SameParameters;
      if nmt != OPERATIONAL { return; }
      var i: nat := 0;
      while i < TPDO_COUNT
        invariant i <= TPDO_COUNT && Valid()
        invariant TpdoTickFrom(old(Model()), env, 0) == TpdoTickFrom(Model(), env, i)
      {
        var p := tpdo[i];
        if p.Enabled() && p.transType >= 254 {
          var since := Sub32(now, p.lastTx);
          if !(p.haveLast && since < InhibitMs(p)) {
            var timer := p.eventMs != 0 && (!p.haveLast || since >= p.eventMs);
            var changed := TpdoChanged(i);
            if timer || changed {
              TpdoSend(i);
            }
          }
        }
        i := i + 1;
      }
    }

    method RpdoApply(p: RPdo, data: Bytes8, len: u8)
      requires Valid() && MappingsOk(Model()) && MappingOk(p.entries, p.mapCount, false)
      modifies this`cfg, this`hbLast, this`app, this`trace, this`errorRegister, tpdo, rpdo
      ensures Valid() && Model() == RpdoApplied(old(Model()), env, p, data, len)
    {
      hide CoDictionary.OdWrite, MappingsOk, Emergency, NeedBytes, EntryIndex, EntrySub, EntryBits, MappingOk;
      MappingLength(p.entries, p.mapCount);
      var need := BytesNeeded(p.entries, p.mapCount);
      if need > len {
        Emcy(0x8210, 1, [0, 0, 0, 0, 0]);
        return;
      }
      var i: nat, pos: nat := 0, 0;
      while i < p.mapCount
        invariant i <= p.mapCount && pos == NeedBytes(p.entries, i) && Valid()
        invariant MappedWrites(old(Model()), env, p.entries, p.mapCount, data, 0)
               == MappedWrites(Model(), env, p.entries, p.mapCount, data, i)
      {
        var e := p.entries[i];
        var n := EntryBits(e) / 8;
        MappedUnfold(Model(), env, p.entries, p.mapCount, data, i);
        var _ := OdWrite(EntryIndex(e), EntrySub(e), data[pos..pos + n], Mapped);
        NeedMore(p.entries, i);
        i, pos := i + 1, pos + n;
      }
    }

    method BytesNeeded(entries: seq<u32>, count: nat) returns (need: nat)
      requires count <= |entries|
      ensures need == NeedBytes(entries, count)
    {
      hide EntryBits;
      need := 0;
      for i := 0 to count
        invariant need == NeedBytes(entries, i)
      {
        need := need + EntryBits(entries[i]) / 8;
      }
    }

    method SyncTpdoAt(i: nat)
      requires Valid() && i < TPDO_COUNT
      modifies this`trace, tpdo
      ensures Valid() && Model() == SyncTpdo(old(Model()), env, i)
    {
      hide TpdoSent, Changed;
      var p := tpdo[i];
      if !p.Enabled() || p.transType > 240 { return; }
      if p.transType == 0 {
        var changed := TpdoChanged(i);
        if changed { TpdoSend(i); }
      } else {
        SetTpdo(i, p.(syncCount := (p.syncCount + 1) % 0x100));
        if tpdo[i].syncCount >= p.transType { TpdoSend(i); }
      }
    }

    method SyncRpdoAt(i: nat)
      requires Valid() && MappingsOk(Model()) && i < RPDO_COUNT
      modifies this`cfg, this`hbLast, this`app, this`trace, this`errorRegister, tpdo, rpdo
      ensures Valid() && Model() == SyncRpdo(old(Model()), env, i)
    {
      hide RpdoApplied, MappingOk;
      var p := rpdo[i];
      if p.pending {
        SetRpdo(i, p.(pending := false));
        RpdoApply(p, p.data, p.len);
      }
    }

    method SyncRx()
      requires Valid() && MappingsOk(Model())
      modifies this`cfg, this`hbLast, this`app, this`trace, this`errorRegister, tpdo, rpdo
      ensures Valid() && Model() == SyncReceived(old(Model()), env)
    {
      hide SyncTpdo, SyncRpdo, MappingsOk, SameParameters;
      if nmt != OPERATIONAL { return; }
      var i: nat := 0;
      while i < TPDO_COUNT
        invariant i <= TPDO_COUNT && Valid()
        invariant SyncTpdos(old(Model()), env, 0) == SyncTpdos(Model(), env, i)
      {
        SyncTpdoAt(i);
        i := i + 1;
      }
      SameKeepsMappings(old(Model()), Model());
      SyncRpdoAt(0);
      SyncRpdoAt(1);
    }

    method PdoRx(f: Frame)
      requires Valid() && MappingsOk(Model())
      modifies this`cfg, this`hbLast, this`app, this`trace, this`errorRegister, tpdo, rpdo
      ensures Valid() && Model() == PdoReceived(old(Model()), env, f)
    {
      hide TpdoSent, RpdoApplied, MappingOk;
      var i: nat := 0;
      if f.rtr {
        while i < TPDO_COUNT && !(tpdo[i].Enabled() && tpdo[i].cobId % 0x800 == f.id)
          invariant i <= TPDO_COUNT && FindTpdo(tpdo[..], f.id, 0) == FindTpdo(tpdo[..], f.id, i)
        {
          i := i + 1;
        }
        if i < TPDO_COUNT && nmt == OPERATIONAL { TpdoSend(i); }
        return;
      }
      while i < RPDO_COUNT && !(rpdo[i].cobId < COB_INVALID && rpdo[i].mapCount > 0 && rpdo[i].cobId % 0x800 == f.id)
        invariant i <= RPDO_COUNT && FindRpdo(rpdo[..], f.id, 0) == FindRpdo(rpdo[..], f.id, i)
      {
        i := i + 1;
      }
      if i < RPDO_COUNT && nmt == OPERATIONAL {
        var p := rpdo[i];
        if p.transType <= 240 {
          SetRpdo(i, p.(pending := true, len := f.dlc, data := f.data));
        } else {
          RpdoApply(p, f.data, f.dlc);
        }
      }
    }

    method Emcy(code: u16, errBits: u8, mfr: seq<u8>)
      requires Valid() && |mfr| == 5
      modifies this`trace, this`errorRegister
      ensures Valid() && Model() == Emergency(old(Model()), env, code, errBits, mfr)
    {
      hide Sent, Or8, AndNot8, Le16;
      errorRegister := if code == 0 then AndNot8(errorRegister, errBits) else Or8(errorRegister, errBits);
      if nmt == STOPPED || nmt == INITIALISING { return; }
      var _ := Transmit(0x80 + cfg.nodeId, Le16(code) + [errorRegister] + mfr, EMCY);
    }

    // ---------------------------------------------------------------- SDO server

    method Store(at: nat, d: seq<u8>)
      requires buf.Length == SDO_BUF && at + |d| <= SDO_BUF
      modifies buf
      ensures buf[..at + |d|] == old(buf[..at]) + d
    {
      var k := 0;
      while k < |d|
        invariant k <= |d| && buf[..at] == old(buf[..at]) && buf[at..at + k] == d[..k]
      {
        buf[at + k] := d[k];
        k := k + 1;
      }
    }

    method SdoUploadInitiate(index: u16, sub: u8)
      requires Valid() && EnvOk(env)
      modifies this`trace, this`sdo, buf
      ensures Valid() && Model() == UploadStarted(old(Model()), env, index, sub)
    {
      hide OdRead, Multiplexed, Sent, EnvOk;
      var r := OdRead(Model(), env, index, sub);
      OdReadFits(Model(), env, index, sub);
      if r.Abort? {
        SdoAbort(index, sub, r.code);
        return;
      }
      var len := |r.bytes|;
      sdo := sdo.(state := SDO_IDLE);
      Store(0, r.bytes);
      if len <= 4 {
        SdoReply(Multiplexed(0x43 + 4 * (4 - len), index, sub, r.bytes + seq(4 - len, _ => 0)));
      } else {
        sdo := Sdo(SDO_UPLOAD_SEG, index, sub, len, 0, 0, now);
        assert buf[..len] == r.bytes;
        SdoReply(Multiplexed(0x41, index, sub, Le32(Wrap32(len))));
      }
    }

    method SdoUploadSegment(f: Frame)
      requires Valid()
      modifies this`trace, this`sdo
      ensures Valid() && Model() == UploadSegment(old(Model()), env, f)
    {
      hide Sent, ToggleBit;
      if sdo.state != SDO_UPLOAD_SEG {
        SdoAbort(0, 0, ABORT_CMD);
        return;
      }
      if ToggleBit(f) != sdo.toggle {
        SdoAbort(sdo.index, sdo.sub, ABORT_TOGGLE);
        return;
      }
      var toggle, pos, remain := sdo.toggle, sdo.pos, sdo.len - sdo.pos;
      var k := if remain > 7 then 7 else remain;
      var last := k == remain;
      assert buf[..sdo.len][pos..pos + k] == buf[pos..pos + k];
      sdo := sdo.(pos := pos + k, toggle := 1 - toggle, last := now);
      if last { sdo := sdo.(state := SDO_IDLE); }
      SdoReply([toggle * 16 + (7 - k) * 2 + (if last then 1 else 0)] + buf[pos..pos + k] + seq(7 - k, _ => 0));
    }

    method SdoDownloadInitiate(f: Frame)
      requires Valid()
      modifies this`cfg, this`hbLast, this`app, this`trace, this`sdo, this`frames, tpdo, rpdo
      ensures Valid() && Model() == DownloadStarted(old(Model()), env, f)
    {
      hide CoDictionary.OdWrite, Multiplexed, Sent, Expected, IsExpedited, Index, Sub;
      var index, sub := Index(f), Sub(f);
      if IsExpedited(f) {
        var code := OdWrite(index, sub, f.data[4..4 + ExpeditedLength(f)], Expedited);
        if code != 0 {
          SdoAbort(index, sub, code);
          return;
        }
        sdo := sdo.(state := SDO_IDLE);
      } else {
        if Expected(f) > SDO_BUF {
          SdoAbort(index, sub, ABORT_OUT_OF_MEMORY);
          return;
        }
        sdo, frames := Sdo(SDO_DOWNLOAD_SEG, index, sub, Expected(f), 0, 0, now), [f];
      }
      SdoReply(Multiplexed(0x60, index, sub, [0, 0, 0, 0]));
    }

    method SdoDownloadSegment(f: Frame)
      requires Valid()
      modifies this`cfg, this`hbLast, this`app, this`trace, this`sdo, this`frames, tpdo, rpdo, buf
      ensures Valid() && Model() == DownloadSegment(old(Model()), env, f)
    {
      hide CoDictionary.OdWrite, Replied, Multiplexed, ToggleBit, LastBit, SegLength;
      if sdo.state != SDO_DOWNLOAD_SEG {
        SdoAbort(0, 0, ABORT_CMD);
        return;
      }
      var toggle, k := sdo.toggle, SegLength(f);
      if ToggleBit(f) != toggle {
        SdoAbort(sdo.index, sdo.sub, ABORT_TOGGLE);
        return;
      }
      if sdo.pos + k > SDO_BUF {
        SdoAbort(sdo.index, sdo.sub, ABORT_OUT_OF_MEMORY);
        return;
      }
      Store(sdo.pos, f.data[1..1 + k]);
      sdo, frames := sdo.(pos := sdo.pos + k, toggle := 1 - toggle, last := now), frames + [f];
      SdoStored(old(Model()), f);
    }

    /** The segment has been stored: acknowledges it, after the write if it was the last. */
    method SdoStored(ghost n: Node<A>, f: Frame)
      requires Valid() && sdo.state == SDO_DOWNLOAD_SEG && Shape(n) && n.sdo.Downloading? && n.sdo.toggle <= 1
      requires ToggleBit(f) == n.sdo.toggle && |n.sdo.got + f.data[1..1 + SegLength(f)]| <= SDO_BUF
      requires Model() == n.(sdo := n.sdo.(got := n.sdo.got + f.data[1..1 + SegLength(f)], toggle := 1 - n.sdo.toggle,
                                           last := n.now, frames := n.sdo.frames + [f]))
      modifies this`cfg, this`hbLast, this`app, this`trace, this`sdo, tpdo, rpdo
      ensures Valid() && Model() == DownloadSegment(n, env, f)
    {
      hide CoDictionary.OdWrite, Replied, Multiplexed, ToggleBit, LastBit, SegLength;
      var toggle, code := 1 - sdo.toggle, 0;
      if LastBit(f) {
        code := SdoFinish(n, f);
      }
      if code != 0 {
        SdoAbort(sdo.index, sdo.sub, code);
      } else {
        SdoReply([0x20 + toggle * 16, 0, 0, 0, 0, 0, 0, 0]);
      }
    }

    /** The last segment has been stored: checks the length and writes the object. */
    method SdoFinish(ghost n: Node<A>, f: Frame) returns (code: u32)
      requires Valid() && sdo.state == SDO_DOWNLOAD_SEG && Shape(n)
      requires Model() == n.(sdo := Transfer())
      modifies this`cfg, this`hbLast, this`app, this`trace, this`sdo, tpdo, rpdo
      ensures Valid() && sdo.index == old(sdo.index) && sdo.sub == old(sdo.sub)
      ensures var t := old(sdo); var got := old(buf[..sdo.pos]);
        if t.len != 0 && t.pos != t.len then code == ABORT_TYPE_MISMATCH && Model().(sdo := Idle) == n.(sdo := Idle)
        else
          var (m, c) := CoDictionary.OdWrite(n, env, t.index, t.sub, got, Segmented(old(frames)));
          code == c && Model() == m.(sdo := Idle)
    {
      hide CoDictionary.OdWrite;
      if sdo.len != 0 && sdo.pos != sdo.len { return ABORT_TYPE_MISMATCH; }
      WriteIgnoresTransfer(n, env, sdo.index, sdo.sub, buf[..sdo.pos], Segmented(frames), Transfer());
      code := OdWrite(sdo.index, sdo.sub, buf[..sdo.pos], Segmented(frames));
      sdo := sdo.(state := SDO_IDLE);
    }

    method SdoRx(f: Frame)
      requires Valid() && EnvOk(env) && SdoOk(Model().sdo)
      modifies this`cfg, this`hbLast, this`app, this`trace, this`sdo, this`frames, tpdo, rpdo, buf
      ensures Valid() && Model() == SdoReceived(old(Model()), env, f)
    {
      hide DownloadSegment, DownloadStarted, UploadStarted, UploadSegment, Aborted, SdoOk, Ccs, Index, Sub, EnvOk;
      if f.dlc < 8 || f.rtr { return; }
      match Ccs(f) {
        case 0 => SdoDownloadSegment(f);
        case 1 => SdoDownloadInitiate(f);
        case 2 => SdoUploadInitiate(Index(f), Sub(f));
        case 3 => SdoUploadSegment(f);
        case 4 => sdo := sdo.(state := SDO_IDLE);
        case _ => SdoAbort(Index(f), Sub(f), ABORT_CMD);
      }
    }

    // ---------------------------------------------------------------- NMT, heartbeat

    method NmtRx(f: Frame)
      requires Valid()
      modifies this`sdo, this`errorRegister, this`nmt, this`bootup, this`hbLast, tpdo, rpdo
      ensures Valid() && Model() == NmtReceived(old(Model()), f)
    {
      hide Reset;
      if f.dlc < 2 || (f.data[1] != 0 && f.data[1] != cfg.nodeId) { return; }
      if f.data[0] == 0x01 {
        nmt := OPERATIONAL;
        ForgetTpdos();
      } else if f.data[0] == 0x02 {
        nmt, sdo := STOPPED, sdo.(state := SDO_IDLE);
      } else if f.data[0] == 0x80 {
        nmt := PREOPERATIONAL;
      } else if f.data[0] == 0x81 {
        NodeReset(true);
      } else if f.data[0] == 0x82 {
        NodeReset(false);
      }
    }

    method ForgetTpdos()
      requires Valid()
      modifies tpdo
      ensures Valid() && Model() == old(Model()).(tpdo := Restarted(old(Model()).tpdo))
    {
      var i := 0;
      while i < TPDO_COUNT
        invariant i <= TPDO_COUNT && Valid()
        invariant forall k | 0 <= k < TPDO_COUNT ::
          tpdo[k] == if k < i then old(tpdo[k]).(haveLast := false) else old(tpdo[k])
      {
        tpdo[i] := tpdo[i].(haveLast := false);
        i := i + 1;
      }
      assert tpdo[..] == Restarted(old(tpdo[..]));
    }

    method HeartbeatTick()
      requires Valid()
      modifies this`trace, this`bootup, this`hbLast
      ensures Valid() && Model() == CoNet.HeartbeatTick(old(Model()), env)
    {
      hide Sent, Accepted;
      var id := 0x700 + cfg.nodeId;
      ghost var n := Model();
      if bootup {
        var ok := Transmit(id, [0], HEARTBEAT);
        SentParts(n, env, id, [0], HEARTBEAT);
        if ok { bootup, hbLast := false, now; }
        return;
      }
      if cfg.heartbeat == 0 { return; }
      if Sub32(now, hbLast) >= cfg.heartbeat {
        var _ := Transmit(id, [NmtCode(nmt)], HEARTBEAT);
        SentParts(n, env, id, [NmtCode(nmt)], HEARTBEAT);
        hbLast := now;
      }
    }

    // ---------------------------------------------------------------- entry points

    /** A frame from the bus. */
    method OnFrame(f: Frame, at: u32)
      requires Valid() && EnvOk(env) && NodeOk(Model())
      modifies this, tpdo, rpdo, buf
      ensures Valid() && Model() == Received(old(Model()), env, f, at)
    {
      hide NodeOk, NmtReceived, SyncReceived, SdoReceived, PdoReceived, MappingsOk, SdoOk, EnvOk;
      AtTime(Model(), at);
      now := at;
      Usable(Model());
      if f.id == 0 {
        NmtRx(f);
      } else if nmt == INITIALISING {
      } else if f.id == 0x80 && !f.rtr {
        SyncRx();
      } else if nmt == STOPPED {
      } else if f.id == 0x600 + cfg.nodeId {
        SdoRx(f);
      } else {
        PdoRx(f);
      }
    }

    /** Called periodically. */
    method OnTick(at: u32)
      requires Valid() && NodeOk(Model())
      modifies this`now, this`trace, this`bootup, this`hbLast, this`sdo, tpdo
      ensures Valid() && Model() == Ticked(old(Model()), env, at)
    {
      hide NodeOk, CoNet.HeartbeatTick, CoPdo.TpdoTick, Aborted;
      now := at;
      HeartbeatTick();
      if sdo.state != SDO_IDLE && Sub32(now, sdo.last) > SDO_TIMEOUT_MS {
        SdoAbort(sdo.index, sdo.sub, ABORT_TIMEOUT);
      }
      TpdoTick();
    }

    method TpdoConfigure(i: nat, cobId: u16, transType: u8, inhibitMs: u16, eventMs: u16,
            entries: seq<u32>) returns (ok: bool)
      requires Valid()
      modifies tpdo
      ensures Valid() && Model() == ConfiguredTpdo(old(Model()), env, i, cobId, transType, inhibitMs, eventMs, entries)
      ensures ok <==> (i < TPDO_COUNT && |entries| <= MAP_MAX
                       && old(CoDictionary.MapValidate(Model(), env, entries, |entries|, true, 0, 0)) == 0)
    {
      hide CoDictionary.MapValidate;
      if i >= TPDO_COUNT || |entries| > MAP_MAX { return false; }
      var code := MapValidate(entries, |entries|, true);
      if code != 0 { return false; }
      var p := tpdo[i];
      SetTpdo(i, p.(
        cobId := if cobId != 0 then cobId % 0x800 else 0x180 + 0x100 * i + cfg.nodeId,
        transType := transType, inhibit := inhibitMs * 10 % 0x1_0000, eventMs := eventMs,
        mapCount := |entries|, entries := entries + p.entries[|entries|..],
        haveLast := false, syncCount := 0));
      return true;
    }

    method RpdoConfigure(i: nat, cobId: u16, transType: u8, entries: seq<u32>) returns (ok: bool)
      requires Valid()
      modifies rpdo
      ensures Valid() && Model() == ConfiguredRpdo(old(Model()), env, i, cobId, transType, entries)
      ensures ok <==> (i < RPDO_COUNT && |entries| <= MAP_MAX
                       && old(CoDictionary.MapValidate(Model(), env, entries, |entries|, false, 0, 0)) == 0)
    {
      hide CoDictionary.MapValidate;
      if i >= RPDO_COUNT || |entries| > MAP_MAX { return false; }
      var code := MapValidate(entries, |entries|, false);
      if code != 0 { return false; }
      var p := rpdo[i];
      SetRpdo(i, p.(
        cobId := if cobId != 0 then cobId % 0x800 else 0x200 + 0x100 * i + cfg.nodeId,
        transType := transType, mapCount := |entries|, entries := entries + p.entries[|entries|..], pending := false));
      return true;
    }

    method TpdoRequest(i: nat)
      requires Valid() && NodeOk(Model())
      modifies tpdo
      ensures Valid() && Model() == Next(old(Model()), env, Step.RequestTpdo(i))
    {
      hide NodeOk;
      if i < TPDO_COUNT { SetTpdo(i, tpdo[i].(haveLast := false)); }
    }

    method HeartbeatSet(ms: u16)
      requires Valid() && NodeOk(Model())
      modifies this`cfg, this`hbLast
      ensures Valid() && Model() == Next(old(Model()), env, Step.SetHeartbeat(ms))
    {
      hide NodeOk;
      cfg, hbLast := cfg.(heartbeat := ms), now;
    }
  }

  lemma Usable<A>(n: Node<A>)
    requires NodeOk(n)
    ensures MappingsOk(n) && SdoOk(n.sdo)
  {
  }

  /** A write neither reads nor changes the transfer in progress. */
  lemma WriteIgnoresTransfer<A>(n: Node<A>, env: Env<A>, index: u16, sub: u8, data: seq<u8>, source: Source,
          t: CoTypes.Transfer)
    requires Shape(n)
    ensures Shape(n.(sdo := t))
    ensures var (m, code) := CoDictionary.OdWrite(n, env, index, sub, data, source);
      CoDictionary.OdWrite(n.(sdo := t), env, index, sub, data, source) == (m.(sdo := t), code)
  {
    hide MapWritten, RPdoCommWrite, TPdoCommWrite, FromLe16, FromLe32;
    if 0x1600 <= index < 0x1600 + RPDO_COUNT {
      var p := n.rpdo[index - 0x1600];
      MapIgnoresTransfer(n, env, p.mapCount, p.entries, false, sub, data, t);
    } else if 0x1A00 <= index < 0x1A00 + TPDO_COUNT {
      var p := n.tpdo[index - 0x1A00];
      MapIgnoresTransfer(n, env, p.mapCount, p.entries, true, sub, data, t);
    }
  }

  lemma MapIgnoresTransfer<A>(n: Node<A>, env: Env<A>, count: nat, entries: seq<u32>, forTx: bool, sub: u8,
          data: seq<u8>, t: CoTypes.Transfer)
    requires Shape(n) && |entries| == MAP_MAX
    ensures Shape(n.(sdo := t))
    ensures MapWritten(n.(sdo := t), env, count, entries, forTx, sub, data)
         == MapWritten(n, env, count, entries, forTx, sub, data)
  {
    hide CoDictionary.MapValidate, FromLe32;
    if data != [] && data[0] <= MAP_MAX {
      ValidateIgnoresTransfer(n, env, entries, data[0], forTx, 0, 0, t);
    }
  }

  lemma {:induction false} ValidateIgnoresTransfer<A>(n: Node<A>, env: Env<A>, entries: seq<u32>, count: nat,
          forTx: bool, i: nat, bits: nat, t: CoTypes.Transfer)
    requires Shape(n) && i <= count <= |entries|
    ensures Shape(n.(sdo := t))
    ensures CoDictionary.MapValidate(n.(sdo := t), env, entries, count, forTx, i, bits)
         == CoDictionary.MapValidate(n, env, entries, count, forTx, i, bits)
    decreases count - i
  {
    hide OdRead, EntryIndex, EntrySub, EntryBits;
    if i < count {
      ReadIgnoresTransfer(n, env, EntryIndex(entries[i]), EntrySub(entries[i]), t);
      ValidateIgnoresTransfer(n, env, entries, count, forTx, i + 1, bits + EntryBits(entries[i]), t);
    }
  }

  lemma ReadIgnoresTransfer<A>(n: Node<A>, env: Env<A>, index: u16, sub: u8, t: CoTypes.Transfer)
    requires Shape(n)
    ensures Shape(n.(sdo := t)) && OdRead(n.(sdo := t), env, index, sub) == OdRead(n, env, index, sub)
  {
    hide MapRead, Str, Le16, Le32;
  }

  lemma {:induction false} UnreadableStays<A>(n: Node<A>, env: Env<A>, entries: seq<u32>, i: nat, count: nat)
    requires Shape(n) && i <= count <= |entries| && Packed(n, env, entries, i).Unreadable?
    ensures Packed(n, env, entries, count).Unreadable?
    decreases count - i
  {
    hide OdRead, EntryIndex, EntrySub, EntryBits, Shape;
    if i < count {
      UnreadableStays(n, env, entries, i + 1, count);
    }
  }

  lemma SentParts<A>(n: Node<A>, env: Env<A>, id: nat, data: seq<u8>, kind: Kind)
    requires |data| <= 8
    ensures Sent(n, env, id, data, kind) == n.(trace := Sent(n, env, id, data, kind).trace)
  {
  }

  lemma MappingLength(entries: seq<u32>, count: nat)
    requires MappingOk(entries, count, false)
    ensures count <= MAP_MAX == |entries| && NeedBytes(entries, 0) == 0
  {
  }

  lemma NeedMore(entries: seq<u32>, i: nat)
    requires i < |entries|
    ensures NeedBytes(entries, i + 1) == NeedBytes(entries, i) + EntryBits(entries[i]) / 8
  {
  }
}
