/** The byte ring with variable-length records (DROP_OLDEST) and its cursor, updated in
    place and proved against the FIFO of `LogSpec`. */
module LogRing {
  import opened Bytes
  import opened LogRecord
  import L = LogLayout
  import opened LogSpec

  class LogRing {
    const buf: array<u8>
    const capacity: nat
    var head: nat
    var tail: nat
    var used: nat
    var count: nat
    var nextSeq: u32
    var firstSeq: u32
    var overwritten: u32

    /** What the ring means: its layout, the records it holds, and every record pushed
        since the last clear. */
    ghost var s: State

    ghost predicate Valid()
      reads this, buf
    {
      && s.Ok()
      && s.mem == buf[..]
      && s.layout.capacity == capacity && s.layout.head == head && s.layout.tail == tail
      && s.layout.used == used && s.count == count
      && s.nextSeq == nextSeq && s.firstSeq == firstSeq && s.overwritten == overwritten
    }

    constructor (buf: array<u8>, capacity: nat)
      requires 0 < capacity <= buf.Length && capacity < TWO_16
      ensures Valid() && this.buf == buf && this.capacity == capacity
      ensures s == Initial(capacity, buf[..])
    {
      hide State.Ok;
      InitialIsOk(capacity, buf[..]);
      this.buf, this.capacity := buf, capacity;
      head, tail, used, count := 0, 0, 0, 0;
      nextSeq, firstSeq, overwritten := 1, 1, 0;
      s := Initial(capacity, buf[..]);
    }

    /** Discards the content but keeps the numbering, so that readers see the gap. */
    method Clear()
      requires Valid()
      modifies this
      ensures Valid() && s == Cleared(old(s))
    {
      hide State.Ok;
      ClearedIsOk(s);
      s := Cleared(s);
      head, tail, used, count := 0, 0, 0, 0;
      firstSeq := nextSeq;
    }

    /** Discards the oldest record, and the gap in front of it. */
    method DiscardOldest()
      requires Valid()
      modifies this
      ensures Valid()
      ensures old(count) == 0 ==> s == old(s)
      ensures old(count) > 0 ==>
        old(s).layout.Count() > 0 && |old(s).records| > 0 && s == Discarded(old(s))
    {
      hide State.Ok, State.Numbered, L.Ring.Count, L.Dropped, Wrap32, Discarded;
      if count == 0 {
        return;
      }
      ghost var d, n, gap := OldestHere(s);
      if buf[tail] == 0 {
        used := used - (capacity - tail);
        tail := 0;
      }
      var size := buf[tail];
      used := used - size;
      tail := tail + size;
      if tail == capacity {
        tail := 0;
      }
      count := count - 1;
      firstSeq := Wrap32(firstSeq + 1);
      overwritten := Wrap32(overwritten + 1);
      if count == 0 {
        head, tail, used := 0, 0, 0;
      }
      s := d;
    }

    /** Where a record of `needed` bytes goes: behind the head, or at the start of the
        buffer once the rest of it is marked as a gap. */
    ghost predicate RoomMade(needed: nat)
      reads this, buf
    {
      var g := s.layout;
      var gap := s.count > 0 && g.head > g.tail && g.head + needed > capacity;
      && s.Ok() && g.RoomAfter(0, needed) && g.capacity == capacity
      && count == s.count && nextSeq == s.nextSeq && firstSeq == s.firstSeq && overwritten == s.overwritten
      && tail == g.tail && g.head < capacity <= |s.mem|
      && head == (if gap then 0 else g.head) && head + needed <= capacity
      && used == g.used + (if gap then capacity - g.head else 0)
      && buf[..] == if gap then Patch(s.mem, g.head, [0]) else s.mem
    }

    /** The record is stored where room was made, the counters are not updated yet. */
    ghost predicate PlacedAt(needed: nat, r: Record)
      requires r.WellFormed() && r.Size() == needed
      reads this, buf
    {
      var g := s.layout;
      var gap := s.count > 0 && g.head > g.tail && g.head + needed > capacity;
      && g.capacity == capacity && count == s.count && nextSeq == Wrap32(s.nextSeq + 1)
      && firstSeq == s.firstSeq && overwritten == s.overwritten
      && tail == g.tail && g.head < capacity <= |s.mem|
      && head == (if gap then 0 else g.head) && head + needed <= |s.mem|
      && used == g.used + (if gap then capacity - g.head else 0)
      && buf[..] == Patch(if gap then Patch(s.mem, g.head, [0]) else s.mem, head, Encode(r))
    }

    /** Evicts until there is room, first enough free bytes, then contiguous ones at the
        head. */
    method MakeRoom(needed: nat, ghost r: Record)
      requires Valid() && Pushable(s, r) && r.Size() == needed
      modifies this, buf
      ensures Pushable(s, r) && Pushed(s, r) == Pushed(old(s), r)
      ensures RoomMade(needed)
    {
      hide State.Ok, L.Ring.Valid, L.Ring.RoomAfter, Encode, Wrap32, L.PlacedBytes, L.Placed;
      while true
        invariant Valid() && Pushable(s, r) && Pushed(s, r) == Pushed(old(s), r)
        invariant s.Ok()
        decreases count
      {
        RoomDecision(s, needed);
        var free := capacity - used;
        if free < needed {
          DiscardOldest();
          continue;
        }
        if count == 0 {
          head, tail := 0, 0;
        }
        if count == 0 || head >= tail {
          var endSpace := capacity - head;
          if endSpace >= needed {
            break;
          }
          if free - endSpace < needed {
            DiscardOldest();
            continue;
          }
          buf[head] := 0;
          used := used + endSpace;
          head := 0;
          break;
        }
        break;
      }
    }

    /** Appends a record; the oldest ones give way. The caller's C string has no NUL, and
        the argument array holds at least the clamped number of values. The loop ends
        exactly because the record fits the whole buffer, as every record does from a
        capacity of RECORD_MAX on. */
    method Push(level: u8, moduleId: u8, eventId: u16, uptime: u32, args: Option<seq<i32>>, argc: u8,
            text: Option<seq<u8>>)
      returns (seqNo: u32)
      requires Valid() && Acceptable(args, argc, text)
      requires Accept(level, moduleId, eventId, uptime, nextSeq, args, argc, text).Size() <= capacity
      modifies this, buf
      ensures Valid() && seqNo == old(nextSeq)
      ensures var r := Accept(level, moduleId, eventId, uptime, seqNo, args, argc, text);
              Pushable(old(s), r) && s == Pushed(old(s), r)
    {
      hide State.Ok, State.Numbered, EncodedAs, Encode, Wrap32, Accept, Acceptable, Patch, Pushed;
      hide L.Ring.Valid, L.Ring.RoomAfter, L.Ring.FrontEnd, L.Ring.StartOf, L.Total, L.Concat, L.PlacedBytes, L.Placed;
      var n := if argc > MAX_ARGS then MAX_ARGS else argc;
      if args.None? {
        n := 0;
      }
      var textLen := if text.Some? then |text.value| else 0;
      var flags := n;
      if textLen > MAX_TEXT {
        textLen := MAX_TEXT;
        flags := flags + FLAG_TRUNCATED;
      }
      var needed := HDR_SIZE + 4 * n + textLen + 1;
      AcceptParts(level, moduleId, eventId, uptime, nextSeq, args, argc, text, n, textLen);
      var kept := if n == 0 then [] else args.value[..n];
      var cut := if textLen == 0 then [] else text.value[..textLen];
      ghost var r := Accept(level, moduleId, eventId, uptime, nextSeq, args, argc, text);
      StartsPushable(s, r);
      MakeRoom(needed, r);
      seqNo := PutRecord(needed, level, moduleId, flags, eventId, uptime, kept, cut, r);
      Advance(needed, seqNo, r);
    }

    /** Numbers the record and stores it at the head. */
    method PutRecord(needed: nat, level: u8, moduleId: u8, flags: u8, eventId: u16, uptime: u32, args: seq<i32>,
            text: seq<u8>, ghost r: Record)
      returns (seqNo: u32)
      requires RoomMade(needed)
      requires r == Record(level, moduleId, flags >= FLAG_TRUNCATED, eventId, nextSeq, uptime, args, text)
      requires r.WellFormed() && needed == r.Size() && flags == r.Flags()
      modifies this`nextSeq, buf
      ensures PlacedAt(needed, r) && seqNo == old(nextSeq) && s == old(s)
    {
      hide State.Ok, L.Ring.RoomAfter, Encode, Wrap32, Patch, Record.WellFormed, Record.Size, Record.Flags;
      ghost var mem := buf[..];
      seqNo := nextSeq;
      nextSeq := Wrap32(nextSeq + 1);
      StoreRecord(buf, head, needed, level, moduleId, flags, eventId, seqNo, uptime, args, text, r);
      ghost var gap := s.count > 0 && s.layout.head > s.layout.tail && s.layout.head + needed > capacity;
      assert mem == if gap then Patch(s.mem, s.layout.head, [0]) else s.mem;
    }

    /** Accounts for the record just stored. */
    method Advance(needed: nat, seqNo: u32, ghost r: Record)
      requires r.seqNo == seqNo && Pushable(s, r) && r.Size() == needed && s.layout.RoomAfter(0, needed)
      requires PlacedAt(needed, r)
      modifies this
      ensures Valid() && s == Pushed(old(s), r)
      ensures nextSeq == old(nextSeq)
    {
      hide State.Ok, State.Numbered, EncodedAs, Encode, Wrap32, Patch, Pushed;
      hide L.Ring.Valid, L.Ring.RoomAfter, L.Ring.FrontEnd, L.Ring.StartOf, L.Total, L.Concat, L.PlacedBytes, L.Placed;
      PlacedWhere(s, r);
      head := head + needed;
      if head == capacity {
        head := 0;
      }
      used := used + needed;
      count := count + 1;
      if count == 1 {
        firstSeq := seqNo;
      }
      s := Appended(s, r);
    }
  }

  /** The pieces the code hands on are those of the accepted record. */
  lemma AcceptParts(level: u8, moduleId: u8, eventId: u16, uptime: u32, seqNo: u32, args: Option<seq<i32>>, argc: u8,
          text: Option<seq<u8>>, n: nat, textLen: nat)
    requires Acceptable(args, argc, text)
    requires n == if args.None? then 0 else if argc > MAX_ARGS then MAX_ARGS else argc
    requires textLen == if text.None? then 0 else if |text.value| > MAX_TEXT then MAX_TEXT else |text.value|
    ensures args.Some? ==> n <= |args.value|
    ensures text.Some? ==> textLen <= |text.value|
    ensures var r := Accept(level, moduleId, eventId, uptime, seqNo, args, argc, text);
      && r == Record(level, moduleId, text.Some? && |text.value| > MAX_TEXT, eventId, seqNo, uptime,
                     if n == 0 then [] else args.value[..n], if textLen == 0 then [] else text.value[..textLen])
      && r.Size() == HDR_SIZE + 4 * n + textLen + 1
      && r.Flags() == (if r.truncated then n + FLAG_TRUNCATED else n) < TWO_8
      && (r.truncated <==> r.Flags() >= FLAG_TRUNCATED)
  {
  }

  lemma StartsPushable(s: State, r: Record)
    requires s.Ok() && r.WellFormed() && r.seqNo == s.nextSeq && r.Size() <= s.layout.capacity
    ensures Pushable(s, r)
  {
  }

  /** Serialises a record at offset `at`, byte by byte. */
  method StoreRecord(a: array<u8>, at: nat, size: nat, level: u8, moduleId: u8, flags: u8, eventId: u16, seqNo: u32,
          uptime: u32, args: seq<i32>, text: seq<u8>, ghost r: Record)
    requires r == Record(level, moduleId, flags >= FLAG_TRUNCATED, eventId, seqNo, uptime, args, text)
    requires r.WellFormed() && size == r.Size() && flags == r.Flags() && at + size <= a.Length
    modifies a
    ensures a[..] == Patch(old(a[..]), at, Encode(r))
  {
    hide Encode, EncodeHeader, EncodeArgs, Patch, Record.Flags, Record.WellFormed, Record.Size;
    ghost var mem, hdr, body := a[..], EncodeHeader(r), EncodeArgs(args);
    RecordParts(r);
    StoreHeader(a, at, size, level, moduleId, flags, eventId, seqNo, uptime, r);
    StoreArgs(a, at + HDR_SIZE, args);
    StoreText(a, at + HDR_SIZE + 4 * |args|, text);
    PatchThree(mem, at, hdr, body, text + [0]);
    assert hdr + body + text + [0] == hdr + body + (text + [0]);
  }

  /** The text and its terminator. */
  method StoreText(a: array<u8>, at: nat, text: seq<u8>)
    requires at + |text| < a.Length
    modifies a
    ensures a[..] == Patch(old(a[..]), at, text + [0])
  {
    hide Patch;
    ghost var mem := a[..];
    Store(a, at, text);
    Store(a, at + |text|, [0]);
    PatchAppend(mem, at, text, [0]);
  }

  lemma PatchThree(mem: seq<u8>, at: nat, x: seq<u8>, y: seq<u8>, z: seq<u8>)
    requires at + |x| + |y| + |z| <= |mem|
    ensures Patch(Patch(Patch(mem, at, x), at + |x|, y), at + |x| + |y|, z) == Patch(mem, at, x + y + z)
  {
    hide Patch;
    PatchAppend(mem, at, x, y);
    PatchAppend(mem, at, x + y, z);
  }

  lemma RecordParts(r: Record)
    requires r.WellFormed()
    ensures Encode(r) == EncodeHeader(r) + EncodeArgs(r.args) + r.text + [0]
    ensures |EncodeHeader(r)| == HDR_SIZE && |EncodeArgs(r.args)| == 4 * |r.args|
    ensures r.Size() == HDR_SIZE + 4 * |r.args| + |r.text| + 1
  {
  }

  method StoreArgs(a: array<u8>, at: nat, args: seq<i32>)
    requires at + 4 * |args| <= a.Length
    modifies a
    ensures a[..] == Patch(old(a[..]), at, EncodeArgs(args))
  {
    ghost var mem := a[..];
    assert Patch(mem, at, []) == mem;
    for i := 0 to |args|
      invariant a[..] == Patch(mem, at, EncodeArgs(args[..i]))
    {
      StoreU32(a, at + 4 * i, AsUnsigned(args[i]));
      assert args[..i + 1][..i] == args[..i];
      PatchAppend(mem, at, EncodeArgs(args[..i]), Le32(AsUnsigned(args[i])));
    }
    assert args[..|args|] == args;
  }

  method StoreHeader(a: array<u8>, at: nat, size: nat, level: u8, moduleId: u8, flags: u8, eventId: u16, seqNo: u32,
          uptime: u32, ghost r: Record)
    requires r.WellFormed() && size == r.Size() && r.level == level && r.moduleId == moduleId
    requires flags == r.Flags() && r.eventId == eventId && r.seqNo == seqNo && r.uptime == uptime
    requires at + HDR_SIZE <= a.Length
    modifies a
    ensures a[..] == Patch(old(a[..]), at, EncodeHeader(r))
  {
    hide Le16, Le32;
    ghost var mem := a[..];
    a[at], a[at + 1], a[at + 2], a[at + 3] := size, level, moduleId, flags;
    ghost var done: seq<u8> := [size, level, moduleId, flags];
    assert a[..] == Patch(mem, at, done);
    StoreU16(a, at + 4, eventId);
    PatchAppend(mem, at, done, Le16(eventId));
    done := done + Le16(eventId);
    StoreU32(a, at + 6, seqNo);
    PatchAppend(mem, at, done, Le32(seqNo));
    done := done + Le32(seqNo);
    StoreU32(a, at + 10, uptime);
    PatchAppend(mem, at, done, Le32(uptime));
  }

  /** The offsets and the bytes after a push, from the case distinctions of the code. */
  lemma PlacedWhere(s: State, r: Record)
    requires Pushable(s, r) && s.layout.RoomAfter(0, r.Size())
    ensures var g, n := s.layout, r.Size();
            var gap := s.count > 0 && g.head > g.tail && g.head + n > g.capacity;
            var at := if gap then 0 else g.head;
            var g' := L.Placed(g, Encode(r));
      && IsChunk(Encode(r)) && |s.mem| >= g.capacity > g.head
      && at + n <= g.capacity
      && g'.capacity == g.capacity && g'.tail == g.tail
      && g'.head == (if at + n == g.capacity then 0 else at + n)
      && g'.used == g.used + (if gap then g.capacity - g.head else 0) + n
      && L.PlacedBytes(g, s.mem, Encode(r)) == Patch(if gap then Patch(s.mem, g.head, [0]) else s.mem, at, Encode(r))
      && s.layout.Valid(s.mem) && Appended(s, r).Ok()
      && Pushed(s, r) == Appended(s, r)
  {
    hide EncodedAs, State.Numbered, Encode, Wrap32;
    EncodeIsChunk(r);
    OkCounts(s);
    RoomDecision(s, r.Size());
    AppendedIsOk(s, r);
  }

  /** The checks on free bytes and end space decide whether there is room. */
  lemma RoomDecision(s: State, needed: nat)
    requires s.Ok() && 0 < needed <= s.layout.capacity
    ensures var g := s.layout;
            var free := g.capacity - g.used;
      && g.Count() == s.count && g.used <= g.capacity && g.head < g.capacity <= |s.mem|
      && (s.count == 0 ==> g.head == 0 && g.tail == 0 && free >= needed)
      && (g.RoomAfter(0, needed) <==>
            && free >= needed
            && (s.count > 0 && g.head >= g.tail ==>
                  g.capacity - g.head >= needed || free - (g.capacity - g.head) >= needed))
      && (s.count > 0 && free >= needed && g.head >= g.tail ==> g.head > g.tail)
      && (g.RoomAfter(0, needed) ==>
            var at := if s.count > 0 && g.head > g.tail && g.head + needed > g.capacity then 0 else g.head;
            at + needed <= g.capacity)
  {
    var g := s.layout;
    hide EncodedAs, State.Numbered;
    OkCounts(s);
    L.UsedBound(g, s.mem, needed);
    if g.Count() > 0 {
      L.TailIsStart(g);
    }
  }

  /** What the tail points at, the oldest record or the marker of a gap before it, and
      the state once that record is gone. */
  lemma OldestHere(s: State) returns (d: State, n: nat, gap: bool)
    requires s.Ok() && s.count > 0
    ensures s.layout.Count() == s.count == |s.records| && d == Discarded(s) && d.Ok()
    ensures var g := s.layout; var end := if gap then n else g.tail + n;
      && g.tail < g.capacity <= |s.mem|
      && (s.mem[g.tail] == 0 <==> gap)
      && s.mem[if gap then 0 else g.tail] == n && end <= g.capacity
      && d.layout.capacity == g.capacity
      && d.layout.head == (if s.count == 1 then 0 else g.head)
      && d.layout.tail == (if s.count == 1 || end == g.capacity then 0 else end)
      && d.layout.used == (if s.count == 1 then 0 else g.used - (if gap then g.capacity - g.tail else 0) - n)
      && 0 <= g.used - (if gap then g.capacity - g.tail else 0) - n
    ensures d.mem == s.mem && d.count == s.count - 1 && d.nextSeq == s.nextSeq
    ensures d.firstSeq == Wrap32(s.firstSeq + 1) && d.overwritten == Wrap32(s.overwritten + 1)
  {
    hide State.Ok, EncodedAs, State.Numbered, L.Ring.Valid, L.StoredAt, L.Dropped;
    var g := s.layout;
    OkValid(s);
    DiscardedIsOk(s);
    d, n, gap := Discarded(s), |g.Chunks()[0]|, g.front == [];
    TailPoints(g, s.mem);
    OffsetsDropped(g, s.mem);
  }

  lemma OkValid(s: State)
    requires s.Ok()
    ensures s.layout.Valid(s.mem) && s.layout.Count() == s.count == |s.records|
  {
    OkCounts(s);
  }

  lemma TailPoints(g: L.Ring, mem: seq<u8>)
    requires g.Valid(mem) && g.Count() > 0
    ensures var gap := g.front == []; var at := if gap then 0 else g.tail;
      && g.tail < g.capacity <= |mem| && (mem[g.tail] == 0 <==> gap)
      && mem[at] == |g.Chunks()[0]| && at + |g.Chunks()[0]| <= g.capacity
  {
    hide L.Total;
    L.ChunkHere(g, mem, 0);
    L.TailIsStart(g);
    var at := g.OffsetOf(0);
    assert mem[at..at + |g.Chunks()[0]|][0] == mem[at];
  }

  lemma OffsetsDropped(g: L.Ring, mem: seq<u8>)
    requires g.Valid(mem) && g.Count() > 0
    ensures var d, gap, n := L.Dropped(g), g.front == [], |g.Chunks()[0]|;
      var end := if gap then n else g.tail + n;
      && d.capacity == g.capacity && d.head == (if g.Count() == 1 then 0 else g.head)
      && d.tail == (if g.Count() == 1 || end == g.capacity then 0 else end)
      && d.used == (if g.Count() == 1 then 0 else g.used - (if gap then g.capacity - g.tail else 0) - n)
      && 0 <= g.used - (if gap then g.capacity - g.tail else 0) - n
  {
    L.ChunkHere(g, mem, 0);
    L.DroppedIsValid(g, mem);
  }
}
