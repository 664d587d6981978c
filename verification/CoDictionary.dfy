/** The object dictionary: the communication profile served by the node itself, everything
    else by the application, and the validation of PDO mappings. */
module CoDictionary {
  import opened Bytes
  import opened CoTypes

  predicate IsInternal(index: u16) {
    0x1000 <= index < 0x2000
  }

  function Str(s: seq<u8>): Read {
    Data(if |s| > STR_MAX - 1 then s[..STR_MAX - 1] else s)
  }

  function InternalRead<A>(n: Node<A>, index: u16, sub: u8): Read
    requires Shape(n)
  {
    if index in {0x1000, 0x1001, 0x1005, 0x1008, 0x1009, 0x100A, 0x1014, 0x1017} then
      if sub != 0 then Abort(ABORT_NO_SUBINDEX)
      else if index == 0x1000 then Data(Le32(n.cfg.deviceType))
      else if index == 0x1001 then Data([n.errorRegister])
      else if index == 0x1005 then Data(Le32(0x80))
      else if index == 0x1008 then Str(n.cfg.deviceName)
      else if index == 0x1009 then Str(n.cfg.hwVersion)
      else if index == 0x100A then Str(n.cfg.swVersion)
      else if index == 0x1014 then Data(Le32(0x80 + n.cfg.nodeId))
      else Data(Le16(n.cfg.heartbeat))
    else if index == 0x1018 then
      if sub == 0 then Data([4])
      else if sub == 1 then Data(Le32(n.cfg.vendorId))
      else if sub == 2 then Data(Le32(n.cfg.productCode))
      else if sub == 3 then Data(Le32(n.cfg.revision))
      else if sub == 4 then Data(Le32(n.cfg.serial))
      else Abort(ABORT_NO_SUBINDEX)
    else if index == 0x1200 then
      if sub == 0 then Data([2])
      else if sub == 1 then Data(Le32(0x600 + n.cfg.nodeId))
      else if sub == 2 then Data(Le32(0x580 + n.cfg.nodeId))
      else Abort(ABORT_NO_SUBINDEX)
    else if 0x1400 <= index < 0x1400 + RPDO_COUNT then
      var p := n.rpdo[index - 0x1400];
      if sub == 0 then Data([2])
      else if sub == 1 then Data(Le32(p.cobId))
      else if sub == 2 then Data([p.transType])
      else Abort(ABORT_NO_SUBINDEX)
    else if 0x1600 <= index < 0x1600 + RPDO_COUNT then
      MapRead(n.rpdo[index - 0x1600].mapCount, n.rpdo[index - 0x1600].entries, sub)
    else if 0x1800 <= index < 0x1800 + TPDO_COUNT then
      var p := n.tpdo[index - 0x1800];
      if sub == 0 then Data([5])
      else if sub == 1 then Data(Le32(p.cobId))
      else if sub == 2 then Data([p.transType])
      else if sub == 3 then Data(Le16(p.inhibit))
      else if sub == 4 then Data([0])
      else if sub == 5 then Data(Le16(p.eventMs))
      else Abort(ABORT_NO_SUBINDEX)
    else if 0x1A00 <= index < 0x1A00 + TPDO_COUNT then
      MapRead(n.tpdo[index - 0x1A00].mapCount, n.tpdo[index - 0x1A00].entries, sub)
    else Abort(ABORT_NO_OBJECT)
  }

  function MapRead(count: nat, entries: seq<u32>, sub: u8): Read
    requires count <= |entries| == MAP_MAX
  {
    if sub == 0 then Data([count])
    else if sub <= MAP_MAX then Data(Le32(entries[sub - 1]))
    else Abort(ABORT_NO_SUBINDEX)
  }

  function OdRead<A>(n: Node<A>, env: Env<A>, index: u16, sub: u8): Read
    requires Shape(n)
  {
    if IsInternal(index) then InternalRead(n, index, sub) else env.read(n.app, index, sub)
  }

  lemma OdReadFits<A(!new)>(n: Node<A>, env: Env<A>, index: u16, sub: u8)
    requires Shape(n) && EnvOk(env)
    ensures OdRead(n, env, index, sub).Data? ==> |OdRead(n, env, index, sub).bytes| <= SDO_BUF
  {
    hide Le32, Le16;
  }

  // ---------------------------------------------------------------- mapping

  /** Abort code of the first entry, from `i` on, that cannot be mapped; 0 if all can. */
  function MapValidate<A>(n: Node<A>, env: Env<A>, entries: seq<u32>, count: nat, forTx: bool, i: nat, bits: nat): u32
    requires Shape(n) && i <= count <= |entries|
    decreases count - i
  {
    if i == count then 0
    else
      var w := EntryBits(entries[i]);
      if w != 8 && w != 16 && w != 32 && w != 64 then ABORT_PDO_MAP
      else if bits + w > 64 then ABORT_PDO_LENGTH
      else
        var r := OdRead(n, env, EntryIndex(entries[i]), EntrySub(entries[i]));
        if r.Abort? then ABORT_PDO_MAP
        else if forTx && |r.bytes| != w / 8 then ABORT_PDO_MAP
        else if !forTx && EntryIndex(entries[i]) < 0x2000 then ABORT_PDO_MAP
        else MapValidate(n, env, entries, count, forTx, i + 1, bits + w)
  }

  predicate WidthOk(w: u8) {
    w == 8 || w == 16 || w == 32 || w == 64
  }

  function TotalBits(entries: seq<u32>, count: nat): nat
    requires count <= |entries|
  {
    if count == 0 then 0 else TotalBits(entries, count - 1) + EntryBits(entries[count - 1])
  }

  /** A mapping a PDO may be enabled with: at most eight entries, legal widths, no more
      than one frame; an RPDO never targets the communication profile. */
  predicate MappingOk(entries: seq<u32>, count: nat, forTx: bool) {
    && count <= MAP_MAX == |entries|
    && (forall i | 0 <= i < count :: WidthOk(EntryBits(entries[i])))
    && TotalBits(entries, count) <= 64
    && (!forTx ==> forall i | 0 <= i < count :: EntryIndex(entries[i]) >= 0x2000)
  }

  /** Every mapped object exists and, for a TPDO, has the mapped length. */
  predicate ObjectsFit<A>(n: Node<A>, env: Env<A>, entries: seq<u32>, count: nat, forTx: bool)
    requires Shape(n) && count <= |entries|
  {
    forall i | 0 <= i < count ::
      var r := OdRead(n, env, EntryIndex(entries[i]), EntrySub(entries[i]));
      r.Data? && (forTx ==> |r.bytes| == EntryBits(entries[i]) / 8)
  }

  /** Validation accepts exactly the well-formed mappings whose objects fit. */
  lemma ValidateIffOk<A>(n: Node<A>, env: Env<A>, entries: seq<u32>, count: nat, forTx: bool)
    requires Shape(n) && count <= MAP_MAX == |entries|
    ensures MapValidate(n, env, entries, count, forTx, 0, 0) == 0 <==>
      MappingOk(entries, count, forTx) && ObjectsFit(n, env, entries, count, forTx)
  {
    ValidateFrom(n, env, entries, count, forTx, 0);
  }

  /** One entry can be mapped. */
  predicate EntryOk<A>(n: Node<A>, env: Env<A>, e: u32, forTx: bool)
    requires Shape(n)
  {
    var r := OdRead(n, env, EntryIndex(e), EntrySub(e));
    && WidthOk(EntryBits(e)) && r.Data?
    && (if forTx then |r.bytes| == EntryBits(e) / 8 else EntryIndex(e) >= 0x2000)
  }

  lemma {:induction false} ValidateFrom<A>(n: Node<A>, env: Env<A>, entries: seq<u32>, count: nat, forTx: bool, i: nat)
    requires Shape(n) && i <= count <= MAP_MAX == |entries|
    ensures MapValidate(n, env, entries, count, forTx, i, TotalBits(entries, i)) == 0 <==>
      && (forall k | i <= k < count :: EntryOk(n, env, entries[k], forTx))
      && (i < count ==> TotalBits(entries, count) <= 64)
    decreases count - i
  {
    hide OdRead, EntryIndex, EntrySub, EntryBits, Shape;
    if i < count {
      ValidateFrom(n, env, entries, count, forTx, i + 1);
      BitsGrow(entries, i + 1, count);
      ValidateStep(n, env, entries, count, forTx, i, TotalBits(entries, i));
      hide MapValidate, EntryOk;
      assert (forall k | i <= k < count :: EntryOk(n, env, entries[k], forTx)) <==>
        EntryOk(n, env, entries[i], forTx) && forall k | i + 1 <= k < count :: EntryOk(n, env, entries[k], forTx);
    }
  }

  lemma ValidateStep<A>(n: Node<A>, env: Env<A>, entries: seq<u32>, count: nat, forTx: bool, i: nat, bits: nat)
    requires Shape(n) && i < count <= |entries|
    ensures var w := EntryBits(entries[i]);
      MapValidate(n, env, entries, count, forTx, i, bits) == 0 <==>
        EntryOk(n, env, entries[i], forTx) && bits + w <= 64
        && MapValidate(n, env, entries, count, forTx, i + 1, bits + w) == 0
  {
    hide OdRead, EntryIndex, EntrySub, EntryBits, Shape;
  }

  lemma {:induction false} BitsGrow(entries: seq<u32>, i: nat, count: nat)
    requires i <= count <= |entries|
    ensures TotalBits(entries, i) <= TotalBits(entries, count)
    decreases count - i
  {
    if i < count {
      BitsGrow(entries, i, count - 1);
    }
  }

  // ---------------------------------------------------------------- writes

  function CobIdCheck(oldId: u32, v: u32): u32 {
    if oldId < COB_INVALID && v < COB_INVALID && v % 0x800 != oldId % 0x800 then ABORT_PARAM_INCOMPAT
    else if v % 0x800 == 0 then ABORT_VALUE_RANGE
    else 0
  }

  function CobIdKept(v: u32): u32 {
    (if v >= COB_INVALID then COB_INVALID else 0) + v % 0x800
  }

  function RPdoCommWrite(p: RPdo, sub: u8, data: seq<u8>): (RPdo, u32) {
    if sub == 0 then (p, ABORT_READ_ONLY)
    else if sub == 1 then
      if |data| != 4 then (p, ABORT_TYPE_MISMATCH)
      else
        var v := FromLe32(data);
        if CobIdCheck(p.cobId, v) != 0 then (p, CobIdCheck(p.cobId, v))
        else (p.(cobId := CobIdKept(v), pending := false), 0)
    else if sub == 2 then
      if |data| != 1 then (p, ABORT_TYPE_MISMATCH)
      else if 240 < data[0] < 254 then (p, ABORT_VALUE_RANGE)
      else (p.(transType := data[0], pending := false), 0)
    else (p, ABORT_NO_SUBINDEX)
  }

  function TPdoCommWrite(p: TPdo, sub: u8, data: seq<u8>): (TPdo, u32) {
    if sub == 0 || sub == 4 then (p, ABORT_READ_ONLY)
    else if sub == 1 then
      if |data| != 4 then (p, ABORT_TYPE_MISMATCH)
      else
        var v := FromLe32(data);
        if CobIdCheck(p.cobId, v) != 0 then (p, CobIdCheck(p.cobId, v))
        else (p.(cobId := CobIdKept(v), haveLast := false), 0)
    else if sub == 2 then
      if |data| != 1 then (p, ABORT_TYPE_MISMATCH)
      else if 240 < data[0] < 252 then (p, ABORT_VALUE_RANGE)
      else (p.(transType := data[0], syncCount := 0), 0)
    else if sub == 3 then
      if |data| != 2 then (p, ABORT_TYPE_MISMATCH) else (p.(inhibit := FromLe16(data)), 0)
    else if sub == 5 then
      if |data| != 2 then (p, ABORT_TYPE_MISMATCH) else (p.(eventMs := FromLe16(data)), 0)
    else (p, ABORT_NO_SUBINDEX)
  }

  /** Outcome of a write to a mapping parameter: the new entry count or entry, or the
      abort code. Entries change only while the PDO has no mapping. */
  datatype MapWrite = Refused(code: u32) | NewCount(count: nat) | NewEntry(slot: nat, entry: u32)

  function MapWritten<A>(n: Node<A>, env: Env<A>, count: nat, entries: seq<u32>, forTx: bool, sub: u8,
          data: seq<u8>): (w: MapWrite)
    requires Shape(n) && |entries| == MAP_MAX
    ensures w.NewEntry? ==> w.slot < MAP_MAX && count == 0
    ensures w.NewCount? ==> w.count <= MAP_MAX && MapValidate(n, env, entries, w.count, forTx, 0, 0) == 0
  {
    if sub == 0 then
      if |data| != 1 then Refused(ABORT_TYPE_MISMATCH)
      else if data[0] > MAP_MAX then Refused(ABORT_VALUE_RANGE)
      else
        var code := MapValidate(n, env, entries, data[0], forTx, 0, 0);
        if code != 0 then Refused(code) else NewCount(data[0])
    else if sub > MAP_MAX then Refused(ABORT_NO_SUBINDEX)
    else if |data| != 4 then Refused(ABORT_TYPE_MISMATCH)
    else if count != 0 then Refused(ABORT_UNSUPPORTED)
    else NewEntry(sub - 1, FromLe32(data))
  }

  function InternalWrite<A>(n: Node<A>, env: Env<A>, index: u16, sub: u8, data: seq<u8>): (Node<A>, u32)
    requires Shape(n)
  {
    if index == 0x1017 then
      if sub != 0 then (n, ABORT_NO_SUBINDEX)
      else if |data| != 2 then (n, ABORT_TYPE_MISMATCH)
      else (n.(cfg := n.cfg.(heartbeat := FromLe16(data)), hbLast := n.now), 0)
    else if index in {0x1000, 0x1001, 0x1005, 0x1008, 0x1009, 0x100A, 0x1014, 0x1018, 0x1200} then
      (n, ABORT_READ_ONLY)
    else if 0x1400 <= index < 0x1400 + RPDO_COUNT then
      var i := index - 0x1400;
      var (p, code) := RPdoCommWrite(n.rpdo[i], sub, data);
      (n.(rpdo := n.rpdo[i := p]), code)
    else if 0x1600 <= index < 0x1600 + RPDO_COUNT then
      var i := index - 0x1600;
      var p := n.rpdo[i];
      match MapWritten(n, env, p.mapCount, p.entries, false, sub, data)
      case Refused(code) => (n, code)
      case NewCount(c) => (n.(rpdo := n.rpdo[i := p.(mapCount := c)]), 0)
      case NewEntry(k, e) => (n.(rpdo := n.rpdo[i := p.(entries := p.entries[k := e])]), 0)
    else if 0x1800 <= index < 0x1800 + TPDO_COUNT then
      var i := index - 0x1800;
      var (p, code) := TPdoCommWrite(n.tpdo[i], sub, data);
      (n.(tpdo := n.tpdo[i := p]), code)
    else if 0x1A00 <= index < 0x1A00 + TPDO_COUNT then
      var i := index - 0x1A00;
      var p := n.tpdo[i];
      match MapWritten(n, env, p.mapCount, p.entries, true, sub, data)
      case Refused(code) => (n, code)
      case NewCount(c) => (n.(tpdo := n.tpdo[i := p.(mapCount := c, haveLast := false)]), 0)
      case NewEntry(k, e) => (n.(tpdo := n.tpdo[i := p.(entries := p.entries[k := e])]), 0)
    else (n, ABORT_NO_OBJECT)
  }

  /** An object write, logged with what caused it. */
  function OdWrite<A>(n: Node<A>, env: Env<A>, index: u16, sub: u8, data: seq<u8>, source: Source): (Node<A>, u32)
    requires Shape(n)
  {
    var (m, code) := if IsInternal(index) then InternalWrite(n, env, index, sub, data)
                     else var (app, code) := env.write(n.app, index, sub, data); (n.(app := app), code);
    (m.(trace := m.trace + [Wrote(index, sub, data, code, source)]), code)
  }

  /** Mapping parameters of enabled PDOs are well formed. */
  predicate MappingsOk<A>(n: Node<A>) {
    && Shape(n)
    && (forall i | 0 <= i < TPDO_COUNT :: MappingOk(n.tpdo[i].entries, n.tpdo[i].mapCount, true))
    && (forall i | 0 <= i < RPDO_COUNT :: MappingOk(n.rpdo[i].entries, n.rpdo[i].mapCount, false))
  }

  /** No write, whatever it targets, enables a malformed mapping; and a write touches
      neither the NMT state nor a transfer in progress. */
  lemma WriteKeepsMappings<A>(n: Node<A>, env: Env<A>, index: u16, sub: u8, data: seq<u8>, source: Source)
    requires MappingsOk(n)
    ensures var (m, code) := OdWrite(n, env, index, sub, data, source);
      && MappingsOk(m)
      && m.nmt == n.nmt && m.sdo == n.sdo && m.now == n.now && m.cfg.nodeId == n.cfg.nodeId && m.bootup == n.bootup
      && m.errorRegister == n.errorRegister
      && m.trace == n.trace + [Wrote(index, sub, data, code, source)]
  {
    hide MapValidate, OdRead, InternalWrite, MappingOk;
    if IsInternal(index) {
      InternalKeepsMappings(n, env, index, sub, data);
    }
  }

  lemma InternalKeepsMappings<A>(n: Node<A>, env: Env<A>, index: u16, sub: u8, data: seq<u8>)
    requires MappingsOk(n)
    ensures var m := InternalWrite(n, env, index, sub, data).0;
      && MappingsOk(m)
      && m == n.(cfg := n.cfg.(heartbeat := m.cfg.heartbeat), hbLast := m.hbLast, tpdo := m.tpdo, rpdo := m.rpdo)
  {
    hide MapValidate, FromLe32, FromLe16, MappingOk, MapWritten, RPdoCommWrite, TPdoCommWrite;
    var m := InternalWrite(n, env, index, sub, data).0;
    if 0x1400 <= index < 0x1400 + RPDO_COUNT {
      RpdoReplaced(n, index - 0x1400, RPdoCommWrite(n.rpdo[index - 0x1400], sub, data).0);
      CommWriteKeepsRpdo(n.rpdo[index - 0x1400], sub, data);
    } else if 0x1800 <= index < 0x1800 + TPDO_COUNT {
      TpdoReplaced(n, index - 0x1800, TPdoCommWrite(n.tpdo[index - 0x1800], sub, data).0);
      CommWriteKeepsTpdo(n.tpdo[index - 0x1800], sub, data);
    } else if 0x1600 <= index < 0x1600 + RPDO_COUNT {
      var p := n.rpdo[index - 0x1600];
      MapWriteOk(n, env, p.mapCount, p.entries, false, sub, data);
      RpdoReplaced(n, index - 0x1600, m.rpdo[index - 0x1600]);
    } else if 0x1A00 <= index < 0x1A00 + TPDO_COUNT {
      var p := n.tpdo[index - 0x1A00];
      MapWriteOk(n, env, p.mapCount, p.entries, true, sub, data);
      TpdoReplaced(n, index - 0x1A00, m.tpdo[index - 0x1A00]);
    }
  }

  lemma RpdoReplaced<A>(n: Node<A>, i: nat, p: RPdo)
    requires MappingsOk(n) && i < RPDO_COUNT
    ensures |p.entries| == MAP_MAX && p.mapCount <= MAP_MAX && MappingOk(p.entries, p.mapCount, false) ==>
      MappingsOk(n.(rpdo := n.rpdo[i := p]))
  {
    hide MappingOk;
  }

  lemma TpdoReplaced<A>(n: Node<A>, i: nat, p: TPdo)
    requires MappingsOk(n) && i < TPDO_COUNT
    ensures |p.entries| == MAP_MAX && p.mapCount <= MAP_MAX && MappingOk(p.entries, p.mapCount, true) ==>
      MappingsOk(n.(tpdo := n.tpdo[i := p]))
  {
    hide MappingOk;
  }

  lemma CommWriteKeepsRpdo(p: RPdo, sub: u8, data: seq<u8>)
    ensures var q := RPdoCommWrite(p, sub, data).0; q.mapCount == p.mapCount && q.entries == p.entries
  {
    hide FromLe32;
  }

  lemma CommWriteKeepsTpdo(p: TPdo, sub: u8, data: seq<u8>)
    ensures var q := TPdoCommWrite(p, sub, data).0; q.mapCount == p.mapCount && q.entries == p.entries
  {
    hide FromLe32, FromLe16;
  }

  lemma MapWriteOk<A>(n: Node<A>, env: Env<A>, count: nat, entries: seq<u32>, forTx: bool, sub: u8, data: seq<u8>)
    requires Shape(n) && MappingOk(entries, count, forTx)
    ensures var w := MapWritten(n, env, count, entries, forTx, sub, data);
      && (w.NewCount? ==> MappingOk(entries, w.count, forTx))
      && (w.NewEntry? ==> MappingOk(entries[w.slot := w.entry], count, forTx))
  {
    hide MapValidate, OdRead, FromLe32;
    var w := MapWritten(n, env, count, entries, forTx, sub, data);
    if w.NewCount? {
      ValidateIffOk(n, env, entries, w.count, forTx);
    }
  }

  /** A write outside the communication profile changes nothing but the application. */
  lemma WriteBeyondProfile<A>(n: Node<A>, env: Env<A>, index: u16, sub: u8, data: seq<u8>, source: Source)
    requires Shape(n) && index >= 0x2000
    ensures var (m, code) := OdWrite(n, env, index, sub, data, source);
      m == n.(app := m.app, trace := n.trace + [Wrote(index, sub, data, code, source)])
      && (m.app, code) == env.write(n.app, index, sub, data)
  {
  }
}
