/** Which PDO a frame reaches, and what it does there. */
module CoDispatch {
  import opened Bytes
  import opened CoTypes
  import opened CoDictionary
  import opened CoPdo

  /** Where the bytes of entry `i` begin: the widths of the entries before it. */
  function Offset(entries: seq<u32>, i: nat): nat
    requires i <= |entries|
  {
    TotalBits(entries, i) / 8
  }

  /** The event is the write of entry `i` with its bytes of the frame. */
  predicate WritesEntry(e: Event, entries: seq<u32>, i: nat, data: Bytes8)
    requires i < |entries|
  {
    && e.Wrote? && e.source == Mapped
    && e.index == entries[i] / 0x1_0000 && e.sub == entries[i] / 0x100 % 0x100
    && Offset(entries, i) <= Offset(entries, i + 1) <= 8
    && e.data == data[Offset(entries, i)..Offset(entries, i + 1)]
  }

  /** The trace has grown by the writes of the entries from `i` on, in order. */
  predicate WroteFrom(before: seq<Event>, after: seq<Event>, entries: seq<u32>, count: nat, i: nat, data: Bytes8)
    requires i <= count <= |entries|
  {
    && |after| == |before| + count - i && after[..|before|] == before
    && forall k | |before| <= k < |after| :: WritesEntry(after[k], entries, i + k - |before|, data)
  }

  lemma OffsetIsNeed(entries: seq<u32>, count: nat, i: nat)
    requires MappingOk(entries, count, false) && i <= count
    ensures Offset(entries, i) == NeedBytes(entries, i) && 8 * NeedBytes(entries, i) == TotalBits(entries, i)
  {
    hide EntryBits;
    NeedIsBits(entries, i);
  }

  lemma EntryWritten<A>(n: Node<A>, env: Env<A>, entries: seq<u32>, count: nat, data: Bytes8, i: nat)
    returns (m: Node<A>)
    requires Shape(n) && MappingOk(entries, count, false) && i < count
    ensures Shape(m)
    ensures MappedWrites(n, env, entries, count, data, i) == MappedWrites(m, env, entries, count, data, i + 1)
    ensures |m.trace| == |n.trace| + 1 && m.trace[..|n.trace|] == n.trace && i < |entries|
    ensures WritesEntry(m.trace[|n.trace|], entries, i, data)
  {
    hide MappedWrites;
    MappedUnfold(n, env, entries, count, data, i);
    OffsetIsNeed(entries, count, i);
    OffsetIsNeed(entries, count, i + 1);
    hide OdWrite, TotalBits, MappingOk;
    var at, w := NeedBytes(entries, i), EntryBits(entries[i]) / 8;
    EntryBeyond(entries, count, i);
    WriteBeyondProfile(n, env, EntryIndex(entries[i]), EntrySub(entries[i]), data[at..at + w], Mapped);
    m := OdWrite(n, env, EntryIndex(entries[i]), EntrySub(entries[i]), data[at..at + w], Mapped).0;
  }

  lemma EntryBeyond(entries: seq<u32>, count: nat, i: nat)
    requires MappingOk(entries, count, false) && i < count
    ensures i < |entries| && EntryIndex(entries[i]) >= 0x2000
  {
  }

  lemma {:induction false} MappedTrace<A>(n: Node<A>, env: Env<A>, entries: seq<u32>, count: nat, data: Bytes8, i: nat)
    requires Shape(n) && MappingOk(entries, count, false) && i <= count
    ensures i <= count <= |entries|
    ensures WroteFrom(n.trace, MappedWrites(n, env, entries, count, data, i).trace, entries, count, i, data)
    decreases count - i
  {
    if i < count {
      hide MappedWrites, OdWrite, WritesEntry, MappingOk, Shape;
      MappingCount(entries, count);
      var m := EntryWritten(n, env, entries, count, data, i);
      MappedTrace(m, env, entries, count, data, i + 1);
      WroteOneMore(n.trace, m.trace, MappedWrites(m, env, entries, count, data, i + 1).trace, entries, count, i, data);
    }
  }

  lemma MappingCount(entries: seq<u32>, count: nat)
    requires MappingOk(entries, count, false)
    ensures count <= |entries|
  {
  }

  lemma WroteOneMore(a: seq<Event>, b: seq<Event>, c: seq<Event>, entries: seq<u32>, count: nat, i: nat, data: Bytes8)
    requires i < count <= |entries| && |b| == |a| + 1 && b[..|a|] == a
    requires WritesEntry(b[|a|], entries, i, data) && WroteFrom(b, c, entries, count, i + 1, data)
    ensures WroteFrom(a, c, entries, count, i, data)
  {
    hide WritesEntry;
    assert c[..|a|] == c[..|b|][..|a|] == a;
    assert c[|a|] == c[..|b|][|a|] == b[|a|];
    forall k | |a| <= k < |c| ensures WritesEntry(c[k], entries, i + k - |a|, data) {
      if k > |a| {
        assert i + k - |a| == i + 1 + k - |b|;
      }
    }
  }

  /** A frame applied to a PDO writes each mapped object, in order, with its part of the
      frame, and nothing else. */
  lemma AppliedWrites<A>(n: Node<A>, env: Env<A>, p: RPdo, data: Bytes8, len: u8)
    requires MappingsOk(n) && MappingOk(p.entries, p.mapCount, false) && len >= Offset(p.entries, p.mapCount)
    ensures var m := RpdoApplied(n, env, p, data, len);
      && m == n.(app := m.app, trace := m.trace)
      && WroteFrom(n.trace, m.trace, p.entries, p.mapCount, 0, data)
  {
    hide MappingOk, WroteFrom;
    OffsetIsNeed(p.entries, p.mapCount, p.mapCount);
    MappedTrace(n, env, p.entries, p.mapCount, data, 0);
  }

  /** A frame that is no remote request reaches the first enabled RPDO with its identifier,
      and no other. There it is kept for the next SYNC, or written at once, by transmission
      type; if it is too short it only raises the error bit. With no such RPDO nothing
      happens. */
  lemma RpdoDispatch<A>(n: Node<A>, env: Env<A>, f: Frame, k: nat)
    requires MappingsOk(n) && n.nmt == OPERATIONAL && !f.rtr
    ensures (forall j | 0 <= j < RPDO_COUNT :: !Listens(n.rpdo[j], f.id)) ==> PdoReceived(n, env, f) == n
    ensures k < RPDO_COUNT && Listens(n.rpdo[k], f.id) && (forall j | 0 <= j < k :: !Listens(n.rpdo[j], f.id)) ==>
      var m, p := PdoReceived(n, env, f), n.rpdo[k];
      if p.transType <= 240 then m == n.(rpdo := n.rpdo[k := p.(pending := true, len := f.dlc, data := f.data)])
      else
        && m == n.(app := m.app, trace := m.trace, errorRegister := m.errorRegister) && p.mapCount <= |p.entries|
        && if f.dlc >= Offset(p.entries, p.mapCount) then
             m.errorRegister == n.errorRegister && WroteFrom(n.trace, m.trace, p.entries, p.mapCount, 0, f.data)
           else
             m.app == n.app && m.errorRegister == Or8(n.errorRegister, 1) && Writes(m.trace) == Writes(n.trace)
  {
    hide WroteFrom, Or8, MappingOk, RpdoApplied;
    if k < RPDO_COUNT && Listens(n.rpdo[k], f.id) && (forall j | 0 <= j < k :: !Listens(n.rpdo[j], f.id)) {
      var p := n.rpdo[k];
      assert FindRpdo(n.rpdo, f.id, 0) == k;
      assert MappingOk(p.entries, p.mapCount, false);
      OffsetIsNeed(p.entries, p.mapCount, p.mapCount);
      if f.dlc >= Offset(p.entries, p.mapCount) {
        AppliedWrites(n, env, p, f.data, f.dlc);
      } else {
        ShortFrameWritesNothing(n, env, p, f.data, f.dlc);
      }
    }
  }

  /** A remote request is answered by the first enabled TPDO with its identifier: one frame
      at that identifier with the current values, if they can be read. With no such TPDO
      nothing happens. */
  lemma RemoteRequest<A>(n: Node<A>, env: Env<A>, f: Frame, k: nat)
    requires MappingsOk(n) && n.nmt == OPERATIONAL && f.rtr
    ensures (forall j | 0 <= j < TPDO_COUNT :: !Answers(n.tpdo[j], f.id)) ==> PdoReceived(n, env, f) == n
    ensures k < TPDO_COUNT && Answers(n.tpdo[k], f.id) && (forall j | 0 <= j < k :: !Answers(n.tpdo[j], f.id)) ==>
      var m, r := PdoReceived(n, env, f), Current(n, env, n.tpdo[k]);
      if r.Unreadable? then m == n
      else
        var frame := Frame(f.id, |r.bytes|, false, Pad8(r.bytes));
        && m == n.(tpdo := m.tpdo, trace := m.trace)
        && m.trace == n.trace + [Tx(frame, env.accepts(n.trace, frame), PDO(k), n.nmt)]
        && (env.accepts(n.trace, frame) ==> m.tpdo[k].haveLast && m.tpdo[k].lastTx == n.now)
  {
    hide Packed, MappingOk;
    if k < TPDO_COUNT && Answers(n.tpdo[k], f.id) && (forall j | 0 <= j < k :: !Answers(n.tpdo[j], f.id)) {
      assert FindTpdo(n.tpdo, f.id, 0) == k;
    }
  }

  /** Outside OPERATIONAL PDO frames do nothing. */
  lemma NoPdoOtherwise<A>(n: Node<A>, env: Env<A>, f: Frame)
    requires MappingsOk(n) && n.nmt != OPERATIONAL
    ensures PdoReceived(n, env, f) == n && SyncReceived(n, env) == n && TpdoTick(n, env) == n
  {
  }
}
