/** The PDO engine: packing and sending TPDOs on time and on change, applying RPDOs, SYNC. */
module CoPdo {
  import opened Bytes
  import opened CoTypes
  import opened CoDictionary

  // ---------------------------------------------------------------- TPDO

  datatype Payload = Unreadable | Payload(bytes: seq<u8>)

  /** The current values of the first `count` mapped objects back to back, unless one
      cannot be read, has another length than mapped, or does not fit. */
  function Packed<A>(n: Node<A>, env: Env<A>, entries: seq<u32>, count: nat): (r: Payload)
    requires Shape(n) && count <= |entries|
    ensures r.Payload? ==> |r.bytes| <= 8
  {
    if count == 0 then Payload([])
    else
      var e := entries[count - 1];
      var front := Packed(n, env, entries, count - 1);
      var r := OdRead(n, env, EntryIndex(e), EntrySub(e));
      if front.Unreadable? || r.Abort? || |r.bytes| != EntryBits(e) / 8 || |front.bytes| + |r.bytes| > 8 then Unreadable
      else Payload(front.bytes + r.bytes)
  }

  function Current<A>(n: Node<A>, env: Env<A>, p: TPdo): (r: Payload)
    requires Shape(n) && p.mapCount <= |p.entries|
    ensures r.Payload? ==> |r.bytes| <= 8
  {
    Packed(n, env, p.entries, p.mapCount)
  }

  /** Sends TPDO `i` with the current data, if it can be read. */
  function TpdoSent<A>(n: Node<A>, env: Env<A>, i: nat): (m: Node<A>)
    requires Shape(n) && i < TPDO_COUNT
    ensures Shape(m) && SameParameters(n, m)
  {
    var p := n.tpdo[i];
    var r := Current(n, env, p);
    if r.Unreadable? then n
    else
      var m := Sent(n, env, p.cobId % 0x800, r.bytes, PDO(i));
      if !Accepted(n, env, p.cobId % 0x800, r.bytes) then m
      else m.(tpdo := n.tpdo[i := p.(lastTx := n.now, haveLast := true, lastData := r.bytes, syncCount := 0)])
  }

  /** The PDO carries something else than what was sent last. */
  predicate Changed<A>(n: Node<A>, env: Env<A>, p: TPdo)
    requires Shape(n) && p.mapCount <= |p.entries|
  {
    var r := Current(n, env, p);
    r.Payload? && (!p.haveLast || p.lastData != r.bytes)
  }

  /** Inhibit time in whole milliseconds, rounded up. */
  function InhibitMs(p: TPdo): nat {
    (p.inhibit + 9) / 10
  }

  /** An event-driven TPDO is due: not inhibited, and the event timer has run out or the
      data has changed. */
  predicate Due<A>(n: Node<A>, env: Env<A>, p: TPdo)
    requires Shape(n) && p.mapCount <= |p.entries|
  {
    var since := Sub32(n.now, p.lastTx);
    && p.Enabled() && p.transType >= 254
    && !(p.haveLast && since < InhibitMs(p))
    && ((p.eventMs != 0 && (!p.haveLast || since >= p.eventMs)) || Changed(n, env, p))
  }

  function TpdoTickFrom<A>(n: Node<A>, env: Env<A>, i: nat): (m: Node<A>)
    requires Shape(n) && i <= TPDO_COUNT
    ensures Shape(m) && SameParameters(n, m)
    decreases TPDO_COUNT - i
  {
    if i == TPDO_COUNT then n
    else TpdoTickFrom(if Due(n, env, n.tpdo[i]) then TpdoSent(n, env, i) else n, env, i + 1)
  }

  function TpdoTick<A>(n: Node<A>, env: Env<A>): (m: Node<A>)
    requires Shape(n)
    ensures Shape(m) && SameParameters(n, m)
  {
    if n.nmt != OPERATIONAL then n else TpdoTickFrom(n, env, 0)
  }

  /** Everything but the run-time part of the PDOs, the application and the trace. */
  predicate SameParameters<A>(n: Node<A>, m: Node<A>)
    requires Shape(n) && Shape(m)
  {
    && m.cfg == n.cfg && m.nmt == n.nmt && m.now == n.now && m.sdo == n.sdo
    && m.hbLast == n.hbLast && m.bootup == n.bootup
    && (forall i | 0 <= i < TPDO_COUNT :: SameTpdo(n.tpdo[i], m.tpdo[i]))
    && (forall i | 0 <= i < RPDO_COUNT :: SameRpdo(n.rpdo[i], m.rpdo[i]))
  }

  predicate SameTpdo(p: TPdo, q: TPdo) {
    && q.cobId == p.cobId && q.transType == p.transType && q.inhibit == p.inhibit && q.eventMs == p.eventMs
    && q.mapCount == p.mapCount && q.entries == p.entries
  }

  predicate SameRpdo(p: RPdo, q: RPdo) {
    q.cobId == p.cobId && q.transType == p.transType && q.mapCount == p.mapCount && q.entries == p.entries
  }

  // ---------------------------------------------------------------- emergency

  function Emergency<A>(n: Node<A>, env: Env<A>, code: u16, errBits: u8, mfr: seq<u8>): (m: Node<A>)
    requires |mfr| == 5
  {
    var reg := if code == 0 then AndNot8(n.errorRegister, errBits) else Or8(n.errorRegister, errBits);
    var q := n.(errorRegister := reg);
    if n.nmt == STOPPED || n.nmt == INITIALISING then q
    else Sent(q, env, 0x80 + n.cfg.nodeId, Le16(code) + [reg] + mfr, EMCY)
  }

  // ---------------------------------------------------------------- RPDO

  function NeedBytes(entries: seq<u32>, count: nat): nat
    requires count <= |entries|
  {
    if count == 0 then 0 else NeedBytes(entries, count - 1) + EntryBits(entries[count - 1]) / 8
  }

  lemma {:induction false} NeedIsBits(entries: seq<u32>, count: nat)
    requires count <= |entries| && forall i | 0 <= i < count :: WidthOk(EntryBits(entries[i]))
    ensures 8 * NeedBytes(entries, count) == TotalBits(entries, count)
  {
    hide EntryBits;
    if count > 0 {
      NeedIsBits(entries, count - 1);
    }
  }

  lemma {:induction false} NeedGrows(entries: seq<u32>, i: nat, count: nat)
    requires i <= count <= |entries|
    ensures NeedBytes(entries, i) <= NeedBytes(entries, count)
    decreases count - i
  {
    if i < count {
      NeedGrows(entries, i, count - 1);
    }
  }

  /** Writes the mapped objects from entry `i` on, each with its part of the frame. */
  function MappedWrites<A>(n: Node<A>, env: Env<A>, entries: seq<u32>, count: nat, data: Bytes8, i: nat): (m: Node<A>)
    requires Shape(n) && MappingOk(entries, count, false) && i <= count
    ensures m == n.(app := m.app, trace := m.trace)
    decreases count - i
  {
    if i == count then n
    else
      var at, w := NeedBytes(entries, i), EntryBits(entries[i]) / 8;
      NeedIsBits(entries, count);
      NeedGrows(entries, i + 1, count);
      WriteBeyondProfile(n, env, EntryIndex(entries[i]), EntrySub(entries[i]), data[at..at + w], Mapped);
      MappedWrites(OdWrite(n, env, EntryIndex(entries[i]), EntrySub(entries[i]), data[at..at + w], Mapped).0,
                   env, entries, count, data, i + 1)
  }

  /** One step of applying a mapping. */
  lemma MappedUnfold<A>(n: Node<A>, env: Env<A>, entries: seq<u32>, count: nat, data: Bytes8, i: nat)
    requires Shape(n) && MappingOk(entries, count, false) && i < count
    ensures var at, w := NeedBytes(entries, i), EntryBits(entries[i]) / 8;
      && i < |entries| && at + w <= 8
      && var m := OdWrite(n, env, EntryIndex(entries[i]), EntrySub(entries[i]), data[at..at + w], Mapped).0;
      Shape(m) && MappedWrites(n, env, entries, count, data, i) == MappedWrites(m, env, entries, count, data, i + 1)
  {
    NeedIsBits(entries, count);
    NeedGrows(entries, i + 1, count);
    hide OdWrite, EntryIndex, EntrySub, EntryBits;
    var at, w := NeedBytes(entries, i), EntryBits(entries[i]) / 8;
    WriteBeyondProfile(n, env, EntryIndex(entries[i]), EntrySub(entries[i]), data[at..at + w], Mapped);
  }

  /** A frame shorter than the mapping is not processed at all but reported. */
  function RpdoApplied<A>(n: Node<A>, env: Env<A>, p: RPdo, data: Bytes8, len: u8): (m: Node<A>)
    requires MappingsOk(n) && MappingOk(p.entries, p.mapCount, false)
    ensures m == n.(app := m.app, trace := m.trace, errorRegister := m.errorRegister)
  {
    if NeedBytes(p.entries, p.mapCount) > len then Emergency(n, env, 0x8210, 1, [0, 0, 0, 0, 0])
    else MappedWrites(n, env, p.entries, p.mapCount, data, 0)
  }

  // ---------------------------------------------------------------- SYNC

  function SyncTpdo<A>(n: Node<A>, env: Env<A>, i: nat): (m: Node<A>)
    requires Shape(n) && i < TPDO_COUNT
    ensures Shape(m) && SameParameters(n, m)
  {
    var p := n.tpdo[i];
    if !p.Enabled() || p.transType > 240 then n
    else if p.transType == 0 then (if Changed(n, env, p) then TpdoSent(n, env, i) else n)
    else
      var c := (p.syncCount + 1) % 0x100;
      var m := n.(tpdo := n.tpdo[i := p.(syncCount := c)]);
      if c >= p.transType then TpdoSent(m, env, i) else m
  }

  function SyncTpdos<A>(n: Node<A>, env: Env<A>, i: nat): (m: Node<A>)
    requires Shape(n) && i <= TPDO_COUNT
    ensures Shape(m) && SameParameters(n, m)
    decreases TPDO_COUNT - i
  {
    if i == TPDO_COUNT then n else SyncTpdos(SyncTpdo(n, env, i), env, i + 1)
  }

  function SyncRpdo<A>(n: Node<A>, env: Env<A>, i: nat): (m: Node<A>)
    requires MappingsOk(n) && i < RPDO_COUNT
    ensures MappingsOk(m) && SameParameters(n, m)
  {
    hide MappingOk, NeedBytes;
    var p := n.rpdo[i];
    if !p.pending then n
    else RpdoApplied(n.(rpdo := n.rpdo[i := p.(pending := false)]), env, p, p.data, p.len)
  }

  /** SYNC: cyclic and acyclic TPDOs go out, buffered RPDOs take effect. */
  function SyncReceived<A>(n: Node<A>, env: Env<A>): (m: Node<A>)
    requires MappingsOk(n)
    ensures MappingsOk(m) && SameParameters(n, m)
  {
    if n.nmt != OPERATIONAL then n
    else
      hide SameParameters, MappingsOk;
      var a := SyncTpdos(n, env, 0);
      SameKeepsMappings(n, a);
      var b := SyncRpdo(a, env, 0);
      var c := SyncRpdo(b, env, 1);
      SameTransitive(n, a, b);
      SameTransitive(n, b, c);
      c
  }

  lemma SameKeepsMappings<A>(n: Node<A>, m: Node<A>)
    requires MappingsOk(n) && Shape(m) && SameParameters(n, m)
    ensures MappingsOk(m)
  {
    hide MappingOk;
  }

  lemma SameTransitive<A>(a: Node<A>, b: Node<A>, c: Node<A>)
    requires Shape(a) && Shape(b) && Shape(c) && SameParameters(a, b) && SameParameters(b, c)
    ensures SameParameters(a, c)
  {
  }

  // ---------------------------------------------------------------- PDO frames

  /** The PDO is enabled at this identifier: remote requests for it are answered, its frames
      are taken. */
  predicate Answers(p: TPdo, id: u16) {
    p.cobId < COB_INVALID && p.mapCount > 0 && p.cobId % 0x800 == id
  }

  predicate Listens(p: RPdo, id: u16) {
    p.cobId < COB_INVALID && p.mapCount > 0 && p.cobId % 0x800 == id
  }

  /** First enabled TPDO with this COB-ID, from `i` on. */
  function FindTpdo(tpdo: seq<TPdo>, id: u16, i: nat): (k: nat)
    requires i <= |tpdo|
    ensures i <= k <= |tpdo| && (k < |tpdo| ==> Answers(tpdo[k], id)) && forall j | i <= j < k :: !Answers(tpdo[j], id)
    decreases |tpdo| - i
  {
    if i == |tpdo| || (tpdo[i].Enabled() && tpdo[i].cobId % 0x800 == id) then i else FindTpdo(tpdo, id, i + 1)
  }

  function FindRpdo(rpdo: seq<RPdo>, id: u16, i: nat): (k: nat)
    requires i <= |rpdo|
    ensures i <= k <= |rpdo| && (k < |rpdo| ==> Listens(rpdo[k], id)) && forall j | i <= j < k :: !Listens(rpdo[j], id)
    decreases |rpdo| - i
  {
    if i == |rpdo| || (rpdo[i].cobId < COB_INVALID && rpdo[i].mapCount > 0 && rpdo[i].cobId % 0x800 == id) then i
    else FindRpdo(rpdo, id, i + 1)
  }

  /** A remote request for a TPDO is answered, an RPDO is applied or buffered for the next
      SYNC; both only in OPERATIONAL. */
  function PdoReceived<A>(n: Node<A>, env: Env<A>, f: Frame): (m: Node<A>)
    requires MappingsOk(n)
    ensures MappingsOk(m) && SameParameters(n, m)
  {
    hide MappingOk, NeedBytes;
    if n.nmt != OPERATIONAL then n
    else if f.rtr then
      var k := FindTpdo(n.tpdo, f.id, 0);
      if k == TPDO_COUNT then n else TpdoSent(n, env, k)
    else
      var k := FindRpdo(n.rpdo, f.id, 0);
      if k == RPDO_COUNT then n
      else
        var p := n.rpdo[k];
        if p.transType <= 240 then n.(rpdo := n.rpdo[k := p.(pending := true, len := f.dlc, data := f.data)])
        else RpdoApplied(n, env, p, f.data, f.dlc)
  }

  // ---------------------------------------------------------------- round trip

  /** An object access: index, subindex and bytes. */
  datatype Access = Access(index: u16, sub: u8, bytes: seq<u8>)

  /** What packing reads. */
  function Reads<A>(n: Node<A>, env: Env<A>, entries: seq<u32>, count: nat): seq<Access>
    requires Shape(n) && count <= |entries|
    requires Packed(n, env, entries, count).Payload?
  {
    if count == 0 then []
    else
      var e := entries[count - 1];
      var bytes := OdRead(n, env, EntryIndex(e), EntrySub(e)).bytes;
      Reads(n, env, entries, count - 1) + [Access(EntryIndex(e), EntrySub(e), bytes)]
  }

  /** The object writes in a trace. */
  function Writes(trace: seq<Event>): seq<Access> {
    if trace == [] then []
    else
      var e := trace[|trace| - 1];
      Writes(trace[..|trace| - 1]) + if e.Wrote? then [Access(e.index, e.sub, e.data)] else []
  }

  lemma {:induction false} PackedLength<A>(n: Node<A>, env: Env<A>, entries: seq<u32>, count: nat)
    requires Shape(n) && count <= |entries| && Packed(n, env, entries, count).Payload?
    ensures |Packed(n, env, entries, count).bytes| == NeedBytes(entries, count)
  {
    hide OdRead, EntryIndex, EntrySub, EntryBits, Shape;
    if count > 0 {
      PackedLength(n, env, entries, count - 1);
    }
  }

  /** Where the bytes of entry `i` lie in the packed frame, and which they are. */
  lemma {:induction false} PackedAt<A>(n: Node<A>, env: Env<A>, entries: seq<u32>, count: nat, i: nat)
    requires Shape(n) && i < count <= |entries| && Packed(n, env, entries, count).Payload?
    ensures var d, r := Packed(n, env, entries, count).bytes, OdRead(n, env, EntryIndex(entries[i]),
        EntrySub(entries[i]));
      var at, w := NeedBytes(entries, i), EntryBits(entries[i]) / 8;
      && at + w <= |d| <= 8 && r.Data? && d[at..at + w] == r.bytes
      && |Reads(n, env, entries, count)| == count
      && Reads(n, env, entries, count)[i] == Access(EntryIndex(entries[i]), EntrySub(entries[i]), r.bytes)
    decreases count
  {
    hide OdRead, EntryIndex, EntrySub, EntryBits, Shape;
    PackedLength(n, env, entries, count);
    PackedLength(n, env, entries, count - 1);
    ReadsLength(n, env, entries, count - 1);
    if i < count - 1 {
      PackedAt(n, env, entries, count - 1, i);
      NeedGrows(entries, i + 1, count - 1);
      var d, d' := Packed(n, env, entries, count - 1).bytes, Packed(n, env, entries, count).bytes;
      assert d'[..|d|] == d;
      assert d'[NeedBytes(entries, i)..NeedBytes(entries, i + 1)]
          == d[NeedBytes(entries, i)..NeedBytes(entries, i + 1)];
    }
  }

  lemma {:induction false} ReadsLength<A>(n: Node<A>, env: Env<A>, entries: seq<u32>, count: nat)
    requires Shape(n) && count <= |entries| && Packed(n, env, entries, count).Payload?
    ensures |Reads(n, env, entries, count)| == count
  {
    hide OdRead, EntryIndex, EntrySub, EntryBits, Shape;
    if count > 0 {
      ReadsLength(n, env, entries, count - 1);
    }
  }

  lemma {:induction false} AppliedFrom<A>(n: Node<A>, m: Node<A>, env: Env<A>, entries: seq<u32>, count: nat,
          data: Bytes8, i: nat)
    requires Shape(n) && Shape(m) && MappingOk(entries, count, false) && i <= count
    requires Packed(n, env, entries, count).Payload? && Packed(n, env, entries, count).bytes <= data
    ensures |Reads(n, env, entries, count)| == count
    ensures Writes(MappedWrites(m, env, entries, count, data, i).trace)
         == Writes(m.trace) + Reads(n, env, entries, count)[i..]
    decreases count - i
  {
    hide OdRead, OdWrite, EntryIndex, EntrySub, EntryBits, Shape, Packed, Reads, WidthOk;
    ReadsLength(n, env, entries, count);
    var rs := Reads(n, env, entries, count);
    if i < count {
      var q := AppliedOne(n, m, env, entries, count, data, i);
      AppliedFrom(n, q, env, entries, count, data, i + 1);
      assert rs[i..] == [rs[i]] + rs[i + 1..];
    }
  }

  lemma AppliedOne<A>(n: Node<A>, m: Node<A>, env: Env<A>, entries: seq<u32>, count: nat, data: Bytes8, i: nat)
    returns (q: Node<A>)
    requires Shape(n) && Shape(m) && MappingOk(entries, count, false) && i < count
    requires Packed(n, env, entries, count).Payload? && Packed(n, env, entries, count).bytes <= data
    requires |Reads(n, env, entries, count)| == count
    ensures Shape(q) && Writes(q.trace) == Writes(m.trace) + [Reads(n, env, entries, count)[i]]
    ensures MappedWrites(m, env, entries, count, data, i) == MappedWrites(q, env, entries, count, data, i + 1)
  {
    hide OdRead, OdWrite, EntryIndex, EntrySub, EntryBits, Packed, Reads, MappedWrites, NeedBytes, Writes, Shape,
        WidthOk, TotalBits;
    PackedAt(n, env, entries, count, i);
    MappedUnfold(m, env, entries, count, data, i);
    var at, w := NeedBytes(entries, i), EntryBits(entries[i]) / 8;
    var d := Packed(n, env, entries, count).bytes;
    assert data[at..at + w] == d[at..at + w];
    q := OdWrite(m, env, EntryIndex(entries[i]), EntrySub(entries[i]), data[at..at + w], Mapped).0;
    WriteCounts(m, env, EntryIndex(entries[i]), EntrySub(entries[i]), data[at..at + w]);
  }

  lemma WriteCounts<A>(m: Node<A>, env: Env<A>, index: u16, sub: u8, data: seq<u8>)
    requires Shape(m) && index >= 0x2000
    ensures Writes(OdWrite(m, env, index, sub, data, Mapped).0.trace) == Writes(m.trace) + [Access(index, sub, data)]
  {
    hide OdWrite;
    WriteBeyondProfile(m, env, index, sub, data, Mapped);
    var q := OdWrite(m, env, index, sub, data, Mapped).0;
    assert q.trace[..|q.trace| - 1] == m.trace;
  }

  /** A packed TPDO applied through an RPDO with the same mapping writes exactly the bytes
      that were read, object by object and in order. */
  lemma PackThenApply<A>(n: Node<A>, m: Node<A>, env: Env<A>, p: TPdo, q: RPdo)
    requires Shape(n) && MappingsOk(m) && MappingOk(q.entries, q.mapCount, false)
    requires p.entries == q.entries && p.mapCount == q.mapCount && Current(n, env, p).Payload?
    ensures var d := Current(n, env, p).bytes;
      Writes(RpdoApplied(m, env, q, Pad8(d), |d|).trace) == Writes(m.trace) + Reads(n, env, p.entries, p.mapCount)
  {
    hide OdRead, EntryIndex, EntrySub, EntryBits, Shape, Packed, Reads;
    var d := Current(n, env, p).bytes;
    assert Pad8(d)[..|d|] == d;
    PackedLength(n, env, p.entries, p.mapCount);
    AppliedFrom(n, m, env, p.entries, p.mapCount, Pad8(d), 0);
    assert Reads(n, env, p.entries, p.mapCount)[0..] == Reads(n, env, p.entries, p.mapCount);
  }

  /** A frame that is too short writes nothing. Unless the node is stopped it is reported by
      one EMCY frame: code 0x8210 (bytes 10 82), the error register with bit 0 set, five
      zero bytes. */
  lemma ShortFrameWritesNothing<A>(m: Node<A>, env: Env<A>, q: RPdo, data: Bytes8, len: u8)
    requires MappingsOk(m) && MappingOk(q.entries, q.mapCount, false) && len < NeedBytes(q.entries, q.mapCount)
    ensures var r := RpdoApplied(m, env, q, data, len);
      && r.app == m.app && r.errorRegister == Or8(m.errorRegister, 1) && Writes(r.trace) == Writes(m.trace)
      && if m.nmt == STOPPED || m.nmt == INITIALISING then r.trace == m.trace
         else
           var f := Frame(0x80 + m.cfg.nodeId, 8, false, [0x10, 0x82, r.errorRegister, 0, 0, 0, 0, 0]);
           r.trace == m.trace + [Tx(f, env.accepts(m.trace, f), EMCY, m.nmt)]
  {
    hide MappingsOk, MappingOk, Or8;
    var r := RpdoApplied(m, env, q, data, len);
    MappingsShape(m);
    var d := Le16(0x8210) + [r.errorRegister] + [0, 0, 0, 0, 0];
    assert d == [0x10, 0x82, r.errorRegister, 0, 0, 0, 0, 0] == Pad8(d);
    if m.nmt != STOPPED && m.nmt != INITIALISING {
      assert r.trace[..|r.trace| - 1] == m.trace;
    }
  }

  lemma MappingsShape<A>(n: Node<A>)
    requires MappingsOk(n)
    ensures Shape(n) && 1 <= n.cfg.nodeId <= 127
  {
  }
}
