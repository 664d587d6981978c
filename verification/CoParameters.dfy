/** The communication parameters as objects: what is accepted, that what is written is what
    is read afterwards, and that nothing else changes. */
module CoParameters {
  import opened Bytes
  import opened CoTypes
  import opened CoDictionary

  // ---------------------------------------------------------------- identity

  /** What a node tells of itself. */
  lemma IdentityRead<A>(n: Node<A>, env: Env<A>)
    requires Shape(n)
    ensures OdRead(n, env, 0x1000, 0) == Data(Le32(n.cfg.deviceType))
    ensures OdRead(n, env, 0x1001, 0) == Data([n.errorRegister])
    ensures OdRead(n, env, 0x1018, 0) == Data([4])
    ensures OdRead(n, env, 0x1018, 1) == Data(Le32(n.cfg.vendorId))
    ensures OdRead(n, env, 0x1018, 2) == Data(Le32(n.cfg.productCode))
    ensures OdRead(n, env, 0x1018, 3) == Data(Le32(n.cfg.revision))
    ensures OdRead(n, env, 0x1018, 4) == Data(Le32(n.cfg.serial))
    ensures OdRead(n, env, 0x1017, 0) == Data(Le16(n.cfg.heartbeat))
    ensures |n.cfg.deviceName| < 32 ==> OdRead(n, env, 0x1008, 0) == Data(n.cfg.deviceName)
    ensures |n.cfg.hwVersion| < 32 ==> OdRead(n, env, 0x1009, 0) == Data(n.cfg.hwVersion)
    ensures |n.cfg.swVersion| < 32 ==> OdRead(n, env, 0x100A, 0) == Data(n.cfg.swVersion)
    ensures |n.cfg.deviceName| >= 32 ==> OdRead(n, env, 0x1008, 0) == Data(n.cfg.deviceName[..31])
  {
    hide Le32, Le16;
  }

  /** The identifiers of section 7.3.5 of CiA 301: SYNC 0x80, emergency 0x80 + node, SDO
      request 0x600 + node and reply 0x580 + node. */
  lemma IdentifiersRead<A>(n: Node<A>, env: Env<A>)
    requires Shape(n)
    ensures OdRead(n, env, 0x1005, 0) == Data(Le32(0x80))
    ensures OdRead(n, env, 0x1014, 0) == Data(Le32(0x80 + n.cfg.nodeId))
    ensures OdRead(n, env, 0x1200, 0) == Data([2])
    ensures OdRead(n, env, 0x1200, 1) == Data(Le32(0x600 + n.cfg.nodeId))
    ensures OdRead(n, env, 0x1200, 2) == Data(Le32(0x580 + n.cfg.nodeId))
    ensures OdRead(n, env, 0x1400, 0) == OdRead(n, env, 0x1401, 0) == Data([2])
    ensures OdRead(n, env, 0x1800, 0) == OdRead(n, env, 0x1803, 0) == Data([5])
    ensures OdRead(n, env, 0x1800, 4) == OdRead(n, env, 0x1803, 4) == Data([0])
  {
    hide Le32, Le16;
  }

  // ---------------------------------------------------------------- acceptance

  /** The new COB-ID names an identifier, and does not move an enabled PDO to another one. */
  predicate IdTaken(current: u32, data: seq<u8>) {
    && |data| == 4
    && var v := FromLe32(data);
       v % 0x800 != 0 && (current < COB_INVALID && v < COB_INVALID ==> v % 0x800 == current % 0x800)
  }

  /** The mapping parameter takes the value: a count that makes a valid mapping, an entry
      while there is none. */
  predicate MapTaken<A>(n: Node<A>, env: Env<A>, count: nat, entries: seq<u32>, forTx: bool, sub: u8, data: seq<u8>)
    requires Shape(n) && |entries| == MAP_MAX
  {
    if sub == 0 then
      |data| == 1 && MappingOk(entries, data[0], forTx) && ObjectsFit(n, env, entries, data[0], forTx)
    else sub <= 8 && |data| == 4 && count == 0
  }

  /** Which writes to the communication profile are accepted. */
  predicate Taken<A>(n: Node<A>, env: Env<A>, index: u16, sub: u8, data: seq<u8>)
    requires Shape(n)
  {
    || (index == 0x1017 && sub == 0 && |data| == 2)
    || (0x1400 <= index < 0x1400 + RPDO_COUNT && sub == 1 && IdTaken(n.rpdo[index - 0x1400].cobId, data))
    || (0x1400 <= index < 0x1400 + RPDO_COUNT && sub == 2 && |data| == 1 && (data[0] <= 240 || data[0] >= 254))
    || (0x1600 <= index < 0x1600 + RPDO_COUNT
        && var p := n.rpdo[index - 0x1600]; MapTaken(n, env, p.mapCount, p.entries, false, sub, data))
    || (0x1800 <= index < 0x1800 + TPDO_COUNT && sub == 1 && IdTaken(n.tpdo[index - 0x1800].cobId, data))
    || (0x1800 <= index < 0x1800 + TPDO_COUNT && sub == 2 && |data| == 1 && (data[0] <= 240 || data[0] >= 252))
    || (0x1800 <= index < 0x1800 + TPDO_COUNT && sub in {3, 5} && |data| == 2)
    || (0x1A00 <= index < 0x1A00 + TPDO_COUNT
        && var p := n.tpdo[index - 0x1A00]; MapTaken(n, env, p.mapCount, p.entries, true, sub, data))
  }

  lemma MapWriteTaken<A>(n: Node<A>, env: Env<A>, count: nat, entries: seq<u32>, forTx: bool, sub: u8, data: seq<u8>)
    requires Shape(n) && |entries| == MAP_MAX
    ensures var w := MapWritten(n, env, count, entries, forTx, sub, data);
      && (!w.Refused? <==> MapTaken(n, env, count, entries, forTx, sub, data)) && (w.Refused? ==> w.code != 0)
      && (w.NewCount? ==> sub == 0 && [w.count] == data)
      && (w.NewEntry? ==> sub > 0 && w.slot == sub - 1 && w.entry == FromLe32(data))
  {
    hide MapValidate, ObjectsFit, FromLe32;
    if sub == 0 && |data| == 1 && data[0] <= 8 {
      ValidateIffOk(n, env, entries, data[0], forTx);
    }
  }

  lemma IdWriteTaken(current: u32, data: seq<u8>)
    requires |data| == 4
    ensures CobIdCheck(current, FromLe32(data)) == 0 <==> IdTaken(current, data)
  {
  }

  /** A write to the communication profile is accepted exactly when the parameter takes the
      value; one that is refused changes nothing. */
  lemma AcceptedIffTaken<A>(n: Node<A>, env: Env<A>, index: u16, sub: u8, data: seq<u8>, source: Source)
    requires MappingsOk(n) && IsInternal(index)
    ensures var (m, code) := OdWrite(n, env, index, sub, data, source);
      && (code == 0 <==> Taken(n, env, index, sub, data))
      && (code != 0 ==> m == n.(trace := m.trace))
  {
    hide OdWrite, InternalWrite, Taken, MappingOk;
    WriteParts(n, env, index, sub, data, source);
    WriteCode(n, env, index, sub, data);
    RefusedUnchanged(n, env, index, sub, data);
  }

  lemma RefusedUnchanged<A>(n: Node<A>, env: Env<A>, index: u16, sub: u8, data: seq<u8>)
    requires Shape(n)
    ensures var (m, code) := InternalWrite(n, env, index, sub, data); code != 0 ==> m == n
  {
    hide MapWritten, FromLe32, FromLe16, CobIdCheck;
  }

  lemma WriteCode<A>(n: Node<A>, env: Env<A>, index: u16, sub: u8, data: seq<u8>)
    requires Shape(n) && IsInternal(index)
    ensures InternalWrite(n, env, index, sub, data).1 == 0 <==> Taken(n, env, index, sub, data)
  {
    hide MapWritten, MapTaken, FromLe32, FromLe16, CobIdCheck, IdTaken;
    if |data| == 4 && 0x1400 <= index < 0x1400 + RPDO_COUNT {
      IdWriteTaken(n.rpdo[index - 0x1400].cobId, data);
    } else if |data| == 4 && 0x1800 <= index < 0x1800 + TPDO_COUNT {
      IdWriteTaken(n.tpdo[index - 0x1800].cobId, data);
    } else if 0x1600 <= index < 0x1600 + RPDO_COUNT {
      var p := n.rpdo[index - 0x1600];
      MapWriteTaken(n, env, p.mapCount, p.entries, false, sub, data);
    } else if 0x1A00 <= index < 0x1A00 + TPDO_COUNT {
      var p := n.tpdo[index - 0x1A00];
      MapWriteTaken(n, env, p.mapCount, p.entries, true, sub, data);
    }
    NoLongIds(data);
  }

  lemma NoLongIds(data: seq<u8>)
    ensures |data| != 4 ==> forall current :: !IdTaken(current, data)
  {
  }

  // ---------------------------------------------------------------- reading back

  /** What an accepted value reads as: a COB-ID keeps its identifier and its invalid bit,
      everything else is read as written. */
  function KeptAs(index: u16, sub: u8, data: seq<u8>): seq<u8>
  {
    if sub == 1 && |data| == 4 && (0x1400 <= index < 0x1402 || 0x1800 <= index < 0x1804) then
      Le32(FromLe32(data) % 0x800 + if FromLe32(data) >= COB_INVALID then COB_INVALID else 0)
    else data
  }

  lemma FromLe32Back(data: seq<u8>)
    requires |data| == 4
    ensures Le32(FromLe32(data)) == data
  {
    var v, a, b, c := FromLe32(data), data[0] + TWO_8 * data[1], data[1] + TWO_8 * data[2], data[2] + TWO_8 * data[3];
    assert v / TWO_24 == data[3];
    assert v / TWO_16 == c;
    assert v / TWO_8 == data[1] + TWO_8 * c;
  }

  lemma FromLe16Back(data: seq<u8>)
    requires |data| == 2
    ensures Le16(FromLe16(data)) == data
  {
  }

  /** What is written is what is read afterwards. */
  lemma WrittenIsRead<A>(n: Node<A>, env: Env<A>, index: u16, sub: u8, data: seq<u8>, source: Source)
    requires MappingsOk(n) && IsInternal(index)
    ensures var (m, code) := OdWrite(n, env, index, sub, data, source);
      Shape(m) && (code == 0 ==> OdRead(m, env, index, sub) == Data(KeptAs(index, sub, data)))
  {
    WriteKeepsMappings(n, env, index, sub, data, source);
    if |data| == 4 {
      FromLe32Back(data);
    } else if |data| == 2 {
      FromLe16Back(data);
    }
    hide MapWritten, FromLe32, FromLe16, CobIdCheck, Le32, Le16, MappingOk;
    if 0x1600 <= index < 0x1600 + RPDO_COUNT {
      var p := n.rpdo[index - 0x1600];
      MapWriteTaken(n, env, p.mapCount, p.entries, false, sub, data);
    } else if 0x1A00 <= index < 0x1A00 + TPDO_COUNT {
      var p := n.tpdo[index - 0x1A00];
      MapWriteTaken(n, env, p.mapCount, p.entries, true, sub, data);
    }
  }

  /** What an RPDO's objects read depends on nothing but their own fields. */
  lemma RpdoReads<A>(n: Node<A>, env: Env<A>, i: nat, q: RPdo, index: u16, sub: u8)
    requires Shape(n) && i < RPDO_COUNT && q.mapCount <= |q.entries| == MAP_MAX
    requires index == 0x1400 + i ==> (sub == 1 ==> q.cobId == n.rpdo[i].cobId)
                                     && (sub == 2 ==> q.transType == n.rpdo[i].transType)
    requires index == 0x1600 + i ==> (sub == 0 ==> q.mapCount == n.rpdo[i].mapCount)
                                     && (0 < sub <= MAP_MAX ==> q.entries[sub - 1] == n.rpdo[i].entries[sub - 1])
    ensures var m := n.(rpdo := n.rpdo[i := q]); Shape(m) && OdRead(m, env, index, sub) == OdRead(n, env, index, sub)
  {
    hide Le32, Le16;
  }

  lemma TpdoReads<A>(n: Node<A>, env: Env<A>, i: nat, q: TPdo, index: u16, sub: u8)
    requires Shape(n) && i < TPDO_COUNT && q.mapCount <= |q.entries| == MAP_MAX
    requires index == 0x1800 + i ==> (sub == 1 ==> q.cobId == n.tpdo[i].cobId)
                                     && (sub == 2 ==> q.transType == n.tpdo[i].transType)
                                     && (sub == 3 ==> q.inhibit == n.tpdo[i].inhibit)
                                     && (sub == 5 ==> q.eventMs == n.tpdo[i].eventMs)
    requires index == 0x1A00 + i ==> (sub == 0 ==> q.mapCount == n.tpdo[i].mapCount)
                                     && (0 < sub <= MAP_MAX ==> q.entries[sub - 1] == n.tpdo[i].entries[sub - 1])
    ensures var m := n.(tpdo := n.tpdo[i := q]); Shape(m) && OdRead(m, env, index, sub) == OdRead(n, env, index, sub)
  {
    hide Le32, Le16;
  }

  /** ... and every other object reads as before. */
  lemma WriteIsLocal<A>(n: Node<A>, env: Env<A>, index: u16, sub: u8, data: seq<u8>, source: Source, index': u16,
          sub': u8)
    requires MappingsOk(n) && IsInternal(index) && (index', sub') != (index, sub)
    ensures var (m, code) := OdWrite(n, env, index, sub, data, source);
      Shape(m) && OdRead(m, env, index', sub') == OdRead(n, env, index', sub')
  {
    hide OdWrite, InternalWrite, InternalRead, MappingsOk, Taken;
    ShapeOf(n);
    WriteKeepsMappings(n, env, index, sub, data, source);
    var (m, code) := OdWrite(n, env, index, sub, data, source);
    ShapeOf(m);
    AcceptedIffTaken(n, env, index, sub, data, source);
    TraceUnread(n, env, m.trace, index', sub');
    if code == 0 {
      var k := InternalWrite(n, env, index, sub, data).0;
      WriteParts(n, env, index, sub, data, source);
      TraceUnread(k, env, m.trace, index', sub');
      TakenWhere(n, env, index, sub, data);
      if 0x1400 <= index < 0x1700 {
        RpdoWriteIsLocal(n, env, index, sub, data, index', sub');
      } else if 0x1800 <= index < 0x1A00 {
        TpdoCommIsLocal(n, env, index, sub, data, index', sub');
      } else if 0x1A00 <= index {
        TpdoMapIsLocal(n, env, index, sub, data, index', sub');
      } else {
        HeartbeatIsLocal(n, env, data, index', sub');
      }
    }
  }

  lemma ShapeOf<A>(n: Node<A>)
    requires MappingsOk(n)
    ensures Shape(n)
  {
  }

  lemma WriteParts<A>(n: Node<A>, env: Env<A>, index: u16, sub: u8, data: seq<u8>, source: Source)
    requires MappingsOk(n) && IsInternal(index)
    ensures var (m, code) := OdWrite(n, env, index, sub, data, source);
      var k := InternalWrite(n, env, index, sub, data);
      Shape(k.0) && code == k.1 && m == k.0.(trace := m.trace)
  {
    hide InternalWrite, MappingOk;
    InternalKeepsMappings(n, env, index, sub, data);
  }

  lemma TakenWhere<A>(n: Node<A>, env: Env<A>, index: u16, sub: u8, data: seq<u8>)
    requires Shape(n) && Taken(n, env, index, sub, data)
    ensures (index == 0x1017 && sub == 0 && |data| == 2)
      || index in {0x1400, 0x1401, 0x1600, 0x1601, 0x1800, 0x1801, 0x1802, 0x1803, 0x1A00, 0x1A01, 0x1A02, 0x1A03}
  {
    hide MapTaken, IdTaken;
  }

  lemma RpdoWriteIsLocal<A>(n: Node<A>, env: Env<A>, index: u16, sub: u8, data: seq<u8>, index': u16, sub': u8)
    requires Shape(n) && index in {0x1400, 0x1401, 0x1600, 0x1601} && (index', sub') != (index, sub)
    ensures var m := InternalWrite(n, env, index, sub, data).0;
      Shape(m) && OdRead(m, env, index', sub') == OdRead(n, env, index', sub')
  {
    hide MapWritten, FromLe32, FromLe16, CobIdCheck, InternalRead;
    var i := if index < 0x1600 then index - 0x1400 else index - 0x1600;
    var p := n.rpdo[i];
    MapWriteTaken(n, env, p.mapCount, p.entries, false, sub, data);
    var m := InternalWrite(n, env, index, sub, data).0;
    assert n.(rpdo := n.rpdo[i := p]) == n;
    RpdoReads(n, env, i, m.rpdo[i], index', sub');
  }

  lemma TpdoCommIsLocal<A>(n: Node<A>, env: Env<A>, index: u16, sub: u8, data: seq<u8>, index': u16, sub': u8)
    requires Shape(n) && index in {0x1800, 0x1801, 0x1802, 0x1803} && (index', sub') != (index, sub)
    ensures var m := InternalWrite(n, env, index, sub, data).0;
      Shape(m) && OdRead(m, env, index', sub') == OdRead(n, env, index', sub')
  {
    hide MapWritten, FromLe32, FromLe16, CobIdCheck, InternalRead;
    var i := index - 0x1800;
    assert n.(tpdo := n.tpdo[i := n.tpdo[i]]) == n;
    TpdoReads(n, env, i, InternalWrite(n, env, index, sub, data).0.tpdo[i], index', sub');
  }

  lemma TpdoMapIsLocal<A>(n: Node<A>, env: Env<A>, index: u16, sub: u8, data: seq<u8>, index': u16, sub': u8)
    requires Shape(n) && index in {0x1A00, 0x1A01, 0x1A02, 0x1A03} && (index', sub') != (index, sub)
    ensures var m := InternalWrite(n, env, index, sub, data).0;
      Shape(m) && OdRead(m, env, index', sub') == OdRead(n, env, index', sub')
  {
    hide MapWritten, FromLe32, FromLe16, TPdoCommWrite, InternalRead;
    var i := index - 0x1A00;
    var p := n.tpdo[i];
    MapWriteTaken(n, env, p.mapCount, p.entries, true, sub, data);
    assert n.(tpdo := n.tpdo[i := p]) == n;
    TpdoReads(n, env, i, InternalWrite(n, env, index, sub, data).0.tpdo[i], index', sub');
  }

  lemma HeartbeatIsLocal<A>(n: Node<A>, env: Env<A>, data: seq<u8>, index: u16, sub: u8)
    requires Shape(n) && |data| == 2 && (index, sub) != (0x1017, 0)
    ensures var m := InternalWrite(n, env, 0x1017, 0, data).0;
      Shape(m) && OdRead(m, env, index, sub) == OdRead(n, env, index, sub)
  {
    hide Le32, Le16, FromLe16;
  }

  lemma TraceUnread<A>(m: Node<A>, env: Env<A>, trace: seq<Event>, index: u16, sub: u8)
    requires Shape(m)
    ensures Shape(m.(trace := trace)) && OdRead(m.(trace := trace), env, index, sub) == OdRead(m, env, index, sub)
  {
    hide Le32, Le16;
  }

  // ---------------------------------------------------------------- refusals

  /** A read that is refused names what is missing: the object, or the subindex of one that
      is there. */
  lemma ReadRefused<A>(n: Node<A>, env: Env<A>, index: u16, sub: u8)
    requires Shape(n) && IsInternal(index) && OdRead(n, env, index, sub).Abort?
    ensures OdRead(n, env, index, sub).code == if OdRead(n, env, index, 0).Abort? then 0x0602_0000 else 0x0609_0011
  {
    hide Le32, Le16;
  }

  /** Why a write to a COB-ID is refused. */
  predicate IdReason(current: u32, data: seq<u8>, code: u32) {
    || (code == 0x0607_0010 && |data| != 4)
    || (|data| == 4
        && var v := FromLe32(data);
           var moves := current < COB_INVALID && v < COB_INVALID && v % 0x800 != current % 0x800;
           if moves then code == 0x0604_0043 else v % 0x800 == 0 && code == 0x0609_0030)
  }

  /** Why a write to a mapping parameter is refused. */
  predicate MapReason<A>(n: Node<A>, env: Env<A>, count: nat, entries: seq<u32>, forTx: bool, sub: u8, data: seq<u8>,
          code: u32)
    requires Shape(n) && |entries| == MAP_MAX
  {
    if sub > 8 then code == 0x0609_0011
    else if |data| != (if sub == 0 then 1 else 4) then code == 0x0607_0010
    else if sub > 0 then code == 0x0601_0000 && count != 0
    else if data[0] > 8 then code == 0x0609_0030
    else
      && code in {0x0604_0041, 0x0604_0042}
      && !(MappingOk(entries, data[0], forTx) && ObjectsFit(n, env, entries, data[0], forTx))
  }

  /** Why a write to the communication profile is refused. */
  predicate Reason<A>(n: Node<A>, env: Env<A>, index: u16, sub: u8, data: seq<u8>, code: u32)
    requires Shape(n)
  {
    if index in {0x1000, 0x1001, 0x1005, 0x1008, 0x1009, 0x100A, 0x1014, 0x1018, 0x1200} then code == 0x0601_0002
    else if index == 0x1017 then code == if sub != 0 then 0x0609_0011 else 0x0607_0010
    else if 0x1600 <= index < 0x1600 + RPDO_COUNT then
      var p := n.rpdo[index - 0x1600]; MapReason(n, env, p.mapCount, p.entries, false, sub, data, code)
    else if 0x1A00 <= index < 0x1A00 + TPDO_COUNT then
      var p := n.tpdo[index - 0x1A00]; MapReason(n, env, p.mapCount, p.entries, true, sub, data, code)
    else if 0x1400 <= index < 0x1400 + RPDO_COUNT then
      if sub == 0 then code == 0x0601_0002
      else if sub == 1 then IdReason(n.rpdo[index - 0x1400].cobId, data, code)
      else if sub == 2 then code == if |data| != 1 then 0x0607_0010 else 0x0609_0030
      else code == 0x0609_0011
    else if 0x1800 <= index < 0x1800 + TPDO_COUNT then
      if sub in {0, 4} then code == 0x0601_0002
      else if sub == 1 then IdReason(n.tpdo[index - 0x1800].cobId, data, code)
      else if sub == 2 then code == if |data| != 1 then 0x0607_0010 else 0x0609_0030
      else code == if sub in {3, 5} then 0x0607_0010 else 0x0609_0011
    else code == 0x0602_0000
  }

  lemma {:induction false} ValidateCode<A>(n: Node<A>, env: Env<A>, entries: seq<u32>, count: nat, forTx: bool, i: nat,
          bits: nat)
    requires Shape(n) && i <= count <= |entries|
    ensures MapValidate(n, env, entries, count, forTx, i, bits) in {0, 0x0604_0041, 0x0604_0042}
    decreases count - i
  {
    hide OdRead, EntryIndex, EntrySub, EntryBits, Shape;
    if i < count {
      ValidateCode(n, env, entries, count, forTx, i + 1, bits + EntryBits(entries[i]));
    }
  }

  lemma MapRefused<A>(n: Node<A>, env: Env<A>, count: nat, entries: seq<u32>, forTx: bool, sub: u8, data: seq<u8>)
    requires Shape(n) && |entries| == MAP_MAX
    ensures var w := MapWritten(n, env, count, entries, forTx, sub, data);
      w.Refused? ==> MapReason(n, env, count, entries, forTx, sub, data, w.code)
  {
    hide MapValidate, MappingOk, ObjectsFit, FromLe32;
    if sub == 0 && |data| == 1 && data[0] <= 8 {
      ValidateIffOk(n, env, entries, data[0], forTx);
      ValidateCode(n, env, entries, data[0], forTx, 0, 0);
    }
  }

  /** A write that is refused is refused for the reason the abort code names. */
  lemma WriteRefused<A>(n: Node<A>, env: Env<A>, index: u16, sub: u8, data: seq<u8>, source: Source)
    requires Shape(n) && IsInternal(index)
    ensures var (m, code) := OdWrite(n, env, index, sub, data, source);
      code != 0 ==> Reason(n, env, index, sub, data, code)
  {
    hide MapWritten, MapReason, FromLe32, FromLe16;
    if 0x1600 <= index < 0x1600 + RPDO_COUNT {
      var p := n.rpdo[index - 0x1600];
      MapRefused(n, env, p.mapCount, p.entries, false, sub, data);
    } else if 0x1A00 <= index < 0x1A00 + TPDO_COUNT {
      var p := n.tpdo[index - 0x1A00];
      MapRefused(n, env, p.mapCount, p.entries, true, sub, data);
    }
  }
}
