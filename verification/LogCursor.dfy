/** The reading side of the byte ring: a cursor that decodes record after record, a seek
    that only hops over headers, and the filtered read built from both. */
module LogCursor {
  import opened Bytes
  import opened LogRecord
  import L = LogLayout
  import opened LogSpec
  import opened LogRing

  /** A decoded record. The text stays in the ring, at offset `textAt`. */
  datatype View = View(level: u8, moduleId: u8, flags: u8, argc: nat, eventId: u16, seqNo: u32,
                       uptime: u32, args: seq<i32>, textAt: nat)

  /** The view shows every field of `r`, unused argument slots are zero, and the C string
      at the text offset is the text. */
  predicate Shows(v: View, mem: seq<u8>, r: Record) {
    && v.level == r.level && v.moduleId == r.moduleId && v.eventId == r.eventId
    && v.seqNo == r.seqNo && v.uptime == r.uptime
    && v.argc == |r.args| <= MAX_ARGS && v.args == r.args + seq(MAX_ARGS - |r.args|, _ => 0)
    && (v.flags / FLAG_TRUNCATED % 2 == 1 <==> r.truncated)
    && CString(mem, v.textAt) == r.text
  }

  /** What a reader finds at the offset of a stored record. */
  lemma FieldsAt(mem: seq<u8>, at: nat, r: Record)
    requires r.WellFormed() && L.StoredAt(mem, at, Encode(r))
    ensures mem[at] == r.Size() && mem[at + 1] == r.level && mem[at + 2] == r.moduleId && mem[at + 3] == r.Flags()
    ensures FromLe16(mem[at + 4..at + 6]) == r.eventId
    ensures FromLe32(mem[at + 6..at + 10]) == r.seqNo
    ensures FromLe32(mem[at + 10..at + 14]) == r.uptime
  {
    hide FromLe16, FromLe32, EncodeHeader;
    var c := Encode(r);
    FieldsRoundTrip(r);
    assert forall i | 0 <= i < |c| :: c[i] == mem[at..at + |c|][i] == mem[at + i];
    SliceOfSlice(mem, at, at + |c|, 4, 6);
    SliceOfSlice(mem, at, at + |c|, 6, 10);
    SliceOfSlice(mem, at, at + |c|, 10, 14);
  }

  lemma ArgAt(mem: seq<u8>, at: nat, r: Record, i: nat)
    requires r.WellFormed() && L.StoredAt(mem, at, Encode(r)) && i < |r.args|
    ensures at + HDR_SIZE + 4 * i + 4 <= |mem|
    ensures AsSigned(FromLe32(mem[at + HDR_SIZE + 4 * i..at + HDR_SIZE + 4 * i + 4])) == r.args[i]
  {
    ArgRoundTrip(r, i);
    SliceOfSlice(mem, at, at + |Encode(r)|, HDR_SIZE + 4 * i, HDR_SIZE + 4 * i + 4);
  }

  lemma TextAt(mem: seq<u8>, at: nat, r: Record)
    requires r.WellFormed() && L.StoredAt(mem, at, Encode(r))
    ensures CString(mem, at + HDR_SIZE + 4 * |r.args|) == r.text
  {
    var c, off, n := Encode(r), HDR_SIZE + 4 * |r.args|, |r.text|;
    TextRoundTrip(r);
    SliceOfSlice(mem, at, at + |c|, off, off + n);
    assert mem[at + off + n] == mem[at..at + |c|][off + n] == c[off + n];
    CStringIs(mem, at + off, r.text);
  }

  /** Where record `i` of the ring is stored, and how it continues. */
  lemma StoredRecord(s: State, i: nat)
    requires s.Ok() && i < s.count
    ensures s.layout.Count() == s.count == |s.records|
    ensures var g, r, at := s.layout, s.records[i], s.layout.OffsetOf(i);
      && r.WellFormed() && L.StoredAt(s.mem, at, Encode(r))
      && g.StartOf(i) < g.capacity <= |s.mem| && at + r.Size() <= g.capacity
      && RECORD_MIN <= r.Size() <= RECORD_MAX
      && WellSized(s.mem, g.capacity, g.StartOf(i)) && PastGap(s.mem, g.StartOf(i)) == at
      && WellSized(s.mem, g.capacity, at) && PastGap(s.mem, at) == at
      && s.mem[at] == r.Size()
      && (i + 1 < s.count ==> g.StartOf(i + 1) == if at + r.Size() == g.capacity then 0 else at + r.Size())
  {
    hide State.Numbered, L.Ring.Valid, L.Ring.StartOf, Encode;
    OkCounts(s);
    L.ChunkHere(s.layout, s.mem, i);
    EncodeIsChunk(s.records[i]);
    FieldsAt(s.mem, s.layout.OffsetOf(i), s.records[i]);
  }

  /** Offset of the record a reader at `pos` goes to: past a gap, if there is one. */
  function PastGap(mem: seq<u8>, pos: nat): nat
    requires pos < |mem|
  {
    if mem[pos] == 0 then 0 else pos
  }

  predicate WellSized(mem: seq<u8>, capacity: nat, pos: nat)
    requires capacity <= |mem|
  {
    && pos < capacity
    && RECORD_MIN <= mem[PastGap(mem, pos)] <= RECORD_MAX
    && PastGap(mem, pos) + mem[PastGap(mem, pos)] <= capacity
  }

  /** Validates the record at `pos`: whatever the buffer holds, an accepted record lies
      inside it. */
  method RecordAt(buf: array<u8>, capacity: nat, pos: nat) returns (ok: bool, at: nat, size: nat)
    requires capacity <= buf.Length
    ensures ok <==> WellSized(buf[..], capacity, pos)
    ensures ok ==> at == PastGap(buf[..], pos) && size == buf[at] && at + size <= capacity
  {
    at := pos;
    if pos >= capacity {
      return false, at, 0;
    }
    if buf[at] == 0 {
      at := 0;
    }
    size := buf[at];
    if size < RECORD_MIN || size > RECORD_MAX || at + size > capacity {
      return false, at, size;
    }
    ok := true;
  }

  class Cursor {
    const ring: LogRing
    var pos: nat
    var remaining: nat

    /** The cursor stands before record `i`, or behind the gap in front of it. */
    ghost predicate At(i: nat)
      reads this, ring, ring.buf
    {
      && ring.Valid()
      && i <= ring.count == ring.s.layout.Count()
      && remaining == ring.count - i
      && (remaining > 0 ==> pos == ring.s.layout.StartOf(i) || pos == ring.s.layout.OffsetOf(i))
    }

    constructor (ring: LogRing)
      requires ring.Valid()
      ensures this.ring == ring && At(0)
    {
      this.ring := ring;
      pos := ring.tail;
      remaining := ring.count;
      new;
      hide State.Ok, L.Ring.Valid;
      OkCounts(ring.s);
      if ring.count > 0 {
        StoredRecord(ring.s, 0);
        StartIsTail(ring.s);
      }
    }

    /** Decodes the next record. */
    method Next(ghost i: nat) returns (ok: bool, view: View)
      requires At(i)
      modifies this
      ensures ok <==> old(remaining) > 0
      ensures if ok then i < |ring.s.records| && At(i + 1) && Shows(view, ring.buf[..], ring.s.records[i]) else At(i)
    {
      hide State.Ok, L.Ring.StartOf, L.Ring.OffsetOf, Encode, CString, FromLe16, FromLe32;
      view := View(0, 0, 0, 0, 0, 0, 0, [], 0);
      if remaining == 0 {
        return false, view;
      }
      StoredRecord(ring.s, i);
      ghost var r := ring.s.records[i];
      var valid, at, size := RecordAt(ring.buf, ring.capacity, pos);
      if !valid {
        assert false;  // a corrupt size field ends the iteration here; a valid ring has none
      }
      view := Decode(ring.buf, at, r);
      at := at + size;
      if at == ring.capacity {
        at := 0;
      }
      pos := at;
      remaining := remaining - 1;
      ok := true;
    }

    /** Hops to the first record newer than `since`, without decoding. */
    method Seek(since: u32, ghost i: nat) returns (ghost j: nat)
      requires At(i)
      modifies this
      ensures j == FirstAfter(ring.s.records, i, since) && At(j)
    {
      hide State.Ok, State.Numbered, EncodedAs, Encode, FromLe16, FromLe32;
      hide L.Ring.Valid, L.Ring.StartOf, L.Ring.OffsetOf, L.Ring.Chunks, L.Ring.FrontEnd, L.Total, L.Concat;
      j := i;
      OkCounts(ring.s);
      while remaining > 0
        invariant i <= j <= |ring.s.records| && At(j) && |ring.s.records| == ring.count
        invariant FirstAfter(ring.s.records, i, since) == FirstAfter(ring.s.records, j, since)
      {
        StoredRecord(ring.s, j);
        var valid, at, size := RecordAt(ring.buf, ring.capacity, pos);
        if !valid {
          assert false;
        }
        FieldsAt(ring.s.mem, at, ring.s.records[j]);
        assert ring.buf[at + 6..at + 10] == ring.s.mem[at + 6..at + 10];
        if FromLe32(ring.buf[at + 6..at + 10]) > since {
          pos := at;
          return;
        }
        at := at + size;
        if at == ring.capacity {
          at := 0;
        }
        pos := at;
        remaining := remaining - 1;
        j := j + 1;
      }
    }

    /** Copies the next `max` records that pass the level filter. */
    method Collect(level: u8, max: nat, ghost start: nat) returns (out: seq<Copied>)
      requires At(start) && ring.count == |ring.s.records|
      modifies this
      ensures out == Selected(ring.s.records[start..], level, max)
    {
      hide State.Ok, L.Ring.StartOf, L.Ring.OffsetOf, L.Ring.Count, Selected, Shows;
      ghost var rs, i := ring.s.records, start;
      out := [];
      while |out| < max
        invariant i <= |rs| && At(i)
        invariant |out| <= max && Selected(rs[start..], level, max) == out + Selected(rs[i..], level, max - |out|)
        decreases |rs| - i
      {
        var more, view := Next(i);
        if !more {
          assert rs[i..] == [];
          break;
        }
        SelectedStep(rs, i, level, max - |out|);
        i := i + 1;
        ShowsLevel(view, ring.buf[..], rs[i - 1]);
        if view.level > level {
          continue;
        }
        var copy := CopyOut(ring.buf, view, rs[i - 1]);
        out := out + [copy];
      }
      SelectedNone(rs[i..], level, max - |out|);
    }
  }

  /** Index of the first record, from `i` on, whose number is larger than `since`. */
  function FirstAfter(rs: seq<Record>, i: nat, since: u32): (j: nat)
    requires i <= |rs|
    ensures i <= j <= |rs|
    ensures forall k | i <= k < j :: rs[k].seqNo <= since
    ensures j < |rs| ==> rs[j].seqNo > since
    decreases |rs| - i
  {
    if i == |rs| || rs[i].seqNo > since then i else FirstAfter(rs, i + 1, since)
  }

  /** As long as numbers do not wrap, a seek leaves exactly the records newer than
      `since`. */
  lemma SeekIsExact(s: State, since: u32)
    requires s.Ok() && s.pushed < TWO_32 - 1
    ensures forall k | 0 <= k < |s.records| ::
      (s.records[k].seqNo > since <==> k >= FirstAfter(s.records, 0, since))
  {
    hide L.Ring.Valid, EncodedAs;
    forall k | 0 <= k < |s.records|
      ensures s.records[k].seqNo == 1 + s.pushed - s.count + k
    {
      assert s.records[k] == s.history[|s.history| - s.count + k];
    }
  }

  /** Reads the fields of the record stored at `at`. */
  method Decode(a: array<u8>, at: nat, ghost r: Record) returns (v: View)
    requires r.WellFormed() && L.StoredAt(a[..], at, Encode(r))
    ensures Shows(v, a[..], r)
  {
    hide Encode, CString, FromLe16, FromLe32;
    ghost var mem := a[..];
    FieldsAt(mem, at, r);
    TextAt(mem, at, r);
    assert a[at + 4..at + 6] == mem[at + 4..at + 6] && a[at + 6..at + 10] == mem[at + 6..at + 10]
        && a[at + 10..at + 14] == mem[at + 10..at + 14];
    var flags := a[at + 3];
    var argc := flags % 8;
    if argc > MAX_ARGS {
      argc := MAX_ARGS;
    }
    assert argc == |r.args|;
    var args: seq<i32> := [];
    for i := 0 to argc
      invariant args == r.args[..i]
    {
      ArgAt(mem, at, r, i);
      var off := at + HDR_SIZE + 4 * i;
      assert a[off..off + 4] == mem[off..off + 4];
      args := args + [AsSigned(FromLe32(a[off..off + 4]))];
    }
    v := View(a[at + 1], a[at + 2], flags, argc, FromLe16(a[at + 4..at + 6]), FromLe32(a[at + 6..at + 10]),
              FromLe32(a[at + 10..at + 14]), args + seq(MAX_ARGS - argc, _ => 0), at + HDR_SIZE + 4 * argc);
  }

  lemma StartIsTail(s: State)
    requires s.Ok() && s.count > 0
    ensures s.layout.Count() == s.count && s.layout.StartOf(0) == s.layout.tail
  {
    OkCounts(s);
    L.ChunkHere(s.layout, s.mem, 0);
    L.TailIsStart(s.layout);
  }

  const LEVEL_OFF: u8 := 0
  const LEVEL_TRACE: u8 := 5

  /** A record as handed to the consumer. */
  datatype Copied = Copied(seqNo: u32, uptime: u32, eventId: u16, moduleId: u8, level: u8, args: seq<i32>,
      text: seq<u8>)

  function CopyOf(r: Record): Copied {
    Copied(r.seqNo, r.uptime, r.eventId, r.moduleId, r.level, r.args, r.text)
  }

  /** The first `max` records that are at least as important as `minLevel`. */
  function Selected(rs: seq<Record>, minLevel: u8, max: nat): seq<Copied> {
    if rs == [] || max == 0 then []
    else if rs[0].level <= minLevel then [CopyOf(rs[0])] + Selected(rs[1..], minLevel, max - 1)
    else Selected(rs[1..], minLevel, max)
  }

  /** The copy has every field of the record. */
  predicate Holds(c: Copied, r: Record) {
    && c.seqNo == r.seqNo && c.uptime == r.uptime && c.eventId == r.eventId
    && c.moduleId == r.moduleId && c.level == r.level && c.args == r.args && c.text == r.text
  }

  /** Each place is that of a record that is important enough and fully copied. */
  predicate Found(idx: seq<nat>, rs: seq<Record>, minLevel: u8, out: seq<Copied>) {
    && |idx| == |out|
    && forall k | 0 <= k < |idx| :: idx[k] < |rs| && rs[idx[k]].level <= minLevel && Holds(out[k], rs[idx[k]])
  }

  predicate InOrder(idx: seq<nat>) {
    forall k, l | 0 <= k < l < |idx| :: idx[k] < idx[l]
  }

  /** No record that is important enough is passed over while there is room. */
  predicate NoneMissed(idx: seq<nat>, rs: seq<Record>, minLevel: u8, max: nat) {
    && |idx| <= max
    && forall i | 0 <= i < |rs| && rs[i].level <= minLevel :: i in idx || (|idx| == max && AllBelow(idx, i))
  }

  predicate AllBelow(idx: seq<nat>, i: nat) {
    forall k | 0 <= k < |idx| :: idx[k] < i
  }

  /** What a read delivers: exactly the first `max` records that are important enough, in
      order, each with all its fields. */
  lemma {:induction false} SelectedIsExact(rs: seq<Record>, minLevel: u8, max: nat) returns (idx: seq<nat>)
    ensures Found(idx, rs, minLevel, Selected(rs, minLevel, max)) && InOrder(idx) && NoneMissed(idx, rs, minLevel, max)
  {
    if rs == [] || max == 0 {
      idx := [];
    } else {
      hide Found, InOrder, NoneMissed;
      var take := rs[0].level <= minLevel;
      var rest := SelectedIsExact(rs[1..], minLevel, if take then max - 1 else max);
      var later := Shifted(rest);
      if take {
        idx := [0] + later;
        TakenFound(rest, rs, minLevel, Selected(rs[1..], minLevel, max - 1));
        TakenMissesNone(rest, rs, minLevel, max);
      } else {
        idx := later;
        SkippedFound(rest, rs, minLevel, Selected(rs[1..], minLevel, max));
        SkippedMissesNone(rest, rs, minLevel, max);
      }
    }
  }

  function Shifted(idx: seq<nat>): (r: seq<nat>)
    ensures |r| == |idx| && forall k | 0 <= k < |idx| :: r[k] == idx[k] + 1
  {
    seq(|idx|, k requires 0 <= k < |idx| => idx[k] + 1)
  }

  lemma InShifted(idx: seq<nat>, i: nat)
    requires i > 0
    ensures i in Shifted(idx) <==> i - 1 in idx
  {
    if i - 1 in idx {
      var k :| 0 <= k < |idx| && idx[k] == i - 1;
      assert Shifted(idx)[k] == i;
    }
    if i in Shifted(idx) {
      var k :| 0 <= k < |idx| && Shifted(idx)[k] == i;
      assert idx[k] == i - 1;
    }
  }

  lemma SkippedFound(rest: seq<nat>, rs: seq<Record>, minLevel: u8, out: seq<Copied>)
    requires rs != [] && Found(rest, rs[1..], minLevel, out) && InOrder(rest)
    ensures Found(Shifted(rest), rs, minLevel, out) && InOrder(Shifted(rest))
  {
    hide Holds;
    forall k | 0 <= k < |rest| ensures rs[1..][rest[k]] == rs[rest[k] + 1] {}
  }

  lemma TakenFound(rest: seq<nat>, rs: seq<Record>, minLevel: u8, out: seq<Copied>)
    requires rs != [] && rs[0].level <= minLevel && Found(rest, rs[1..], minLevel, out) && InOrder(rest)
    ensures Found([0] + Shifted(rest), rs, minLevel, [CopyOf(rs[0])] + out) && InOrder([0] + Shifted(rest))
  {
    assert Holds(CopyOf(rs[0]), rs[0]);
    hide Holds;
    SkippedFound(rest, rs, minLevel, out);
  }

  lemma BelowShifted(rest: seq<nat>, i: nat)
    requires i > 0
    ensures AllBelow(rest, i - 1) ==> AllBelow(Shifted(rest), i) && AllBelow([0] + Shifted(rest), i)
  {
  }

  lemma SkippedMissesNone(rest: seq<nat>, rs: seq<Record>, minLevel: u8, max: nat)
    requires rs != [] && rs[0].level > minLevel && NoneMissed(rest, rs[1..], minLevel, max)
    ensures NoneMissed(Shifted(rest), rs, minLevel, max)
  {
    hide AllBelow, Shifted;
    forall i: nat | i < |rs| && rs[i].level <= minLevel
      ensures i in Shifted(rest) || (|rest| == max && AllBelow(Shifted(rest), i))
    {
      assert rs[1..][i - 1] == rs[i];
      InShifted(rest, i);
      BelowShifted(rest, i);
    }
  }

  lemma TakenMissesNone(rest: seq<nat>, rs: seq<Record>, minLevel: u8, max: nat)
    requires rs != [] && max > 0 && NoneMissed(rest, rs[1..], minLevel, max - 1)
    ensures NoneMissed([0] + Shifted(rest), rs, minLevel, max)
  {
    hide AllBelow, Shifted;
    var idx := [0] + Shifted(rest);
    forall i: nat | i < |rs| && rs[i].level <= minLevel
      ensures i in idx || (|idx| == max && AllBelow(idx, i))
    {
      if i == 0 {
        assert idx[0] == 0;
      } else {
        assert rs[1..][i - 1] == rs[i];
        InShifted(rest, i);
        BelowShifted(rest, i);
      }
    }
  }

  lemma ShowsLevel(v: View, mem: seq<u8>, r: Record)
    requires Shows(v, mem, r)
    ensures v.level == r.level
  {
  }

  lemma SelectedStep(rs: seq<Record>, i: nat, minLevel: u8, max: nat)
    requires i < |rs| && max > 0
    ensures Selected(rs[i..], minLevel, max) ==
      if rs[i].level <= minLevel then [CopyOf(rs[i])] + Selected(rs[i + 1..], minLevel, max - 1)
      else Selected(rs[i + 1..], minLevel, max)
  {
    assert rs[i..][1..] == rs[i + 1..];
  }

  lemma SelectedNone(rs: seq<Record>, minLevel: u8, max: nat)
    requires rs == [] || max == 0
    ensures Selected(rs, minLevel, max) == []
  {
  }

  /** Copies what a view shows, text included. */
  method CopyOut(a: array<u8>, v: View, ghost r: Record) returns (c: Copied)
    requires Shows(v, a[..], r)
    ensures c == CopyOf(r)
  {
    hide CString;
    assert v.args[..v.argc] == r.args;
    var text := ReadText(a, v.textAt);
    c := Copied(v.seqNo, v.uptime, v.eventId, v.moduleId, v.level, v.args[..v.argc], text);
  }

  /** Reads the records newer than `since`, filtered by level; OFF means no filter. */
  method ReadSince(ring: LogRing, since: u32, minLevel: u8, max: nat) returns (out: seq<Copied>)
    requires ring.Valid()
    ensures out == Selected(ring.s.records[FirstAfter(ring.s.records, 0, since)..],
                            if minLevel == LEVEL_OFF then LEVEL_TRACE else minLevel, max)
  {
    out := [];
    if max == 0 {
      return;
    }
    hide State.Ok, FirstAfter, Selected;
    var level := if minLevel == LEVEL_OFF then LEVEL_TRACE else minLevel;
    var it := new Cursor(ring);
    OkCounts(ring.s);
    ghost var i := it.Seek(since, 0);
    out := it.Collect(level, max, i);
  }

  /** Copies the C string at offset `at`. */
  method ReadText(a: array<u8>, at: nat) returns (t: seq<u8>)
    ensures t == CString(a[..], at)
  {
    t := [];
    var i := at;
    while i < a.Length && a[i] != 0
      invariant CString(a[..], at) == t + CString(a[..], i)
    {
      t := t + [a[i]];
      i := i + 1;
    }
  }
}
