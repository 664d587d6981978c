/** What the operations of the byte ring do, and what every sequence of them keeps:
    the ring is a FIFO of records of which the newest suffix is retained. */
module LogSpec {
  import opened Bytes
  import opened LogRecord
  import opened LogLayout

  /** Numbered from `first` on, modulo the width of a sequence number. */
  predicate Consecutive(rs: seq<Record>, first: int) {
    forall i | 0 <= i < |rs| :: rs[i].seqNo == Wrap32(first + i)
  }

  predicate EncodedAs(cs: seq<seq<u8>>, rs: seq<Record>) {
    && |cs| == |rs|
    && forall i | 0 <= i < |rs| :: rs[i].WellFormed() && cs[i] == Encode(rs[i])
  }

  /** The ring's variables, the buffer, the records retained, every record pushed since
      the last clear, and the totals since the start. */
  datatype State = State(
    layout: Ring, mem: seq<u8>, count: nat, nextSeq: u32, firstSeq: u32, overwritten: u32,
    records: seq<Record>, history: seq<Record>, pushed: nat, evicted: nat, cleared: nat)
  {
    predicate Ok() {
      && layout.capacity < TWO_16
      && layout.Valid(mem)
      && EncodedAs(layout.Chunks(), records)
      && Numbered()
    }

    /** The retained records are the newest ones, numbered consecutively (modulo the
        width of a sequence number); every push is accounted for. */
    predicate Numbered() {
      && count == |records| <= |history| <= pushed
      && records == history[|history| - count..]
      && Consecutive(history, 1 + pushed - |history|)
      && pushed == count + evicted + cleared
      && nextSeq == Wrap32(1 + pushed)
      && firstSeq == Wrap32(1 + pushed - count)
      && overwritten == Wrap32(evicted)
    }
  }

  function Initial(capacity: nat, mem: seq<u8>): State {
    State(Ring(capacity, 0, 0, 0, [], []), mem, 0, 1, 1, 0, [], [], 0, 0, 0)
  }

  function Cleared(s: State): State {
    s.(layout := Ring(s.layout.capacity, 0, 0, 0, [], []), count := 0, firstSeq := s.nextSeq,
       records := [], history := [], cleared := s.cleared + s.count)
  }

  function Discarded(s: State): State
    requires s.layout.Count() > 0 && s.count > 0 && |s.records| > 0
  {
    s.(layout := Dropped(s.layout), count := s.count - 1, firstSeq := Wrap32(s.firstSeq + 1),
       overwritten := Wrap32(s.overwritten + 1), records := s.records[1..], evicted := s.evicted + 1)
  }

  /** A record appended where the layout has room for it. */
  function Appended(s: State, r: Record): State
    requires s.layout.Valid(s.mem) && r.WellFormed() && s.layout.RoomAfter(0, r.Size())
    requires IsChunk(Encode(r))
  {
    s.(layout := Placed(s.layout, Encode(r)), mem := PlacedBytes(s.layout, s.mem, Encode(r)),
       count := s.count + 1, nextSeq := Wrap32(s.nextSeq + 1),
       firstSeq := if s.count == 0 then r.seqNo else s.firstSeq,
       records := s.records + [r], history := s.history + [r], pushed := s.pushed + 1)
  }

  lemma OkCounts(s: State)
    requires s.Ok()
    ensures s.layout.Count() == s.count == |s.records|
  {
  }

  lemma InitialIsOk(capacity: nat, mem: seq<u8>)
    requires 0 < capacity <= |mem| && capacity < TWO_16
    ensures Initial(capacity, mem).Ok() && Initial(capacity, mem).layout.capacity == capacity
  {
  }

  lemma RoomyIsOk(capacity: nat, mem: seq<u8>)
    requires RECORD_MAX <= capacity <= |mem| && capacity < TWO_16
    ensures Initial(capacity, mem).Ok() && Initial(capacity, mem).layout.capacity == capacity
  {
  }

  lemma ClearedIsOk(s: State)
    requires s.Ok()
    ensures Cleared(s).Ok()
  {
  }

  lemma DiscardedIsOk(s: State)
    requires s.Ok() && s.count > 0
    ensures s.layout.Count() == |s.records| == s.count && Discarded(s).Ok()
    ensures Discarded(s).layout.capacity == s.layout.capacity
  {
    DroppedIsValid(s.layout, s.mem);
    DiscardedIsNumbered(s);
  }

  lemma DiscardedIsNumbered(s: State)
    requires s.Numbered() && s.count > 0 && s.layout.Count() > 0
    ensures Discarded(s).Numbered()
  {
    hide Wrap32;
    WrapAdd(1 + s.pushed - s.count, 1);
    WrapAdd(s.evicted, 1);
  }

  lemma AppendedIsOk(s: State, r: Record)
    requires s.Ok() && r.WellFormed() && r.seqNo == s.nextSeq
    requires s.layout.RoomAfter(0, r.Size())
    ensures IsChunk(Encode(r)) && Appended(s, r).Ok()
  {
    hide Wrap32, Encode, Placed, PlacedBytes, Ring.Valid;
    EncodeIsChunk(r);
    PlacedIsValid(s.layout, s.mem, Encode(r));
    AppendedIsNumbered(s, r);
  }

  lemma AppendedIsNumbered(s: State, r: Record)
    requires s.layout.Valid(s.mem) && r.WellFormed() && s.layout.RoomAfter(0, r.Size())
    requires IsChunk(Encode(r))
    requires s.Numbered() && r.seqNo == s.nextSeq
    ensures Appended(s, r).Numbered()
  {
    hide Wrap32;
    WrapAdd(1 + s.pushed, 1);
  }

  /** A record can be pushed: it carries the next number and fits an empty ring. */
  predicate Pushable(s: State, r: Record) {
    s.Ok() && r.WellFormed() && r.seqNo == s.nextSeq && r.Size() <= s.layout.capacity
  }

  /** A push: the oldest records give way until there is room. */
  function Pushed(s: State, r: Record): (p: State)
    requires Pushable(s, r)
    ensures p.Ok() && p.layout.capacity == s.layout.capacity && |p.mem| == |s.mem|
    decreases s.count
  {
    if s.layout.RoomAfter(0, r.Size()) then
      AppendedIsOk(s, r);
      Appended(s, r)
    else
      OkCounts(s);
      DiscardedIsOk(s);
      Pushed(Discarded(s), r)
  }

  /** A push appends the record to the history, and the ring keeps a suffix of it. The
      records that go are the oldest ones, no more than needed, at most twice the number
      of minimal records that cover the new one. */
  lemma {:induction false} PushedIsFifo(s: State, r: Record)
    requires Pushable(s, r)
    ensures var p, e := Pushed(s, r), Evictions(s.layout, r.Size());
      && e <= s.count == |s.records|
      && p.records == s.records[e..] + [r]
      && p.history == s.history + [r]
      && p.pushed == s.pushed + 1 && p.evicted == s.evicted + e && p.cleared == s.cleared
    decreases s.count
  {
    hide State.Numbered, Ring.Valid, Encode, Placed, PlacedBytes, Ring.RoomAfter, Ring.StartOf, Dropped;
    OkCounts(s);
    UsedBound(s.layout, s.mem, r.Size());
    if !s.layout.RoomAfter(0, r.Size()) {
      DiscardedIsOk(s);
      PushedIsFifo(Discarded(s), r);
    }
  }

  /** The bound on evictions that keeps a push short, for every capacity. */
  lemma PushEvictsFew(s: State, r: Record)
    requires Pushable(s, r)
    ensures var e := Evictions(s.layout, r.Size());
      && s.layout.RoomAfter(e, r.Size())
      && (forall k | 0 <= k < e :: !s.layout.RoomAfter(k, r.Size()))
      && e <= 2 * MinRecords(r.Size()) <= 12
  {
    hide Ring.Valid, Ring.RoomAfter, Dropped, EncodedAs, State.Numbered;
    EvictionsIsLeast(s.layout, s.mem, r.Size());
    EvictionsBound(s.layout, s.mem, r.Size());
  }

  /** A call from outside. */
  datatype Op =
    | Emit(level: u8, moduleId: u8, eventId: u16, uptime: u32, args: Option<seq<i32>>, argc: u8, text: Option<seq<u8>>)
    | Clear
  {
    predicate Legal() {
      Emit? ==> Acceptable(args, argc, text)
    }

    function RecordOf(seqNo: u32): Record
      requires Emit? && Legal()
    {
      Accept(level, moduleId, eventId, uptime, seqNo, args, argc, text)
    }
  }

  /** What of a call is in its record: everything, with at most four arguments and the
      first 47 bytes of the text, marked if there were more. */
  lemma RecordHolds(op: Op, seqNo: u32)
    requires op.Emit? && op.Legal()
    ensures var r, given := op.RecordOf(seqNo), if op.text.None? then [] else op.text.value;
      && r.level == op.level && r.moduleId == op.moduleId && r.eventId == op.eventId
      && r.uptime == op.uptime && r.seqNo == seqNo
      && |r.args| == (if op.args.None? then 0 else if op.argc > 4 then 4 else op.argc)
      && (forall i | 0 <= i < |r.args| :: i < |op.args.value| && r.args[i] == op.args.value[i])
      && (r.truncated <==> |given| > 47) && r.text == if |given| > 47 then given[..47] else given
  {
  }

  function Step(s: State, op: Op): (t: State)
    requires s.Ok() && s.layout.capacity >= RECORD_MAX && op.Legal()
    ensures t.Ok() && t.layout.capacity == s.layout.capacity
  {
    if op.Clear? then
      ClearedIsOk(s);
      Cleared(s)
    else
      assert Pushable(s, op.RecordOf(s.nextSeq));
      Pushed(s, op.RecordOf(s.nextSeq))
  }

  function Run(s: State, ops: seq<Op>): (t: State)
    requires s.Ok() && s.layout.capacity >= RECORD_MAX && forall op | op in ops :: op.Legal()
    ensures t.Ok() && t.layout.capacity == s.layout.capacity
  {
    if ops == [] then s else Step(Run(s, ops[..|ops| - 1]), ops[|ops| - 1])
  }

  function Emits(ops: seq<Op>): nat {
    if ops == [] then 0 else Emits(ops[..|ops| - 1]) + if ops[|ops| - 1].Emit? then 1 else 0
  }

  /** The records emitted since the last clear, numbered from 1 on over the whole run. */
  function SinceClear(ops: seq<Op>): seq<Record>
    requires forall op | op in ops :: op.Legal()
  {
    if ops == [] then []
    else
      var n := |ops| - 1;
      if ops[n].Clear? then [] else SinceClear(ops[..n]) + [ops[n].RecordOf(Wrap32(1 + Emits(ops[..n])))]
  }

  /** The ring holds the newest of the records `all`, the last one among them, consecutively
      numbered; of `emits` records each is held, evicted or cleared; the counters say so. */
  predicate Fifo(s: State, all: seq<Record>, emits: nat) {
    && s.count == |s.records| <= |all| && s.records == all[|all| - s.count..]
    && (all != [] ==> s.count > 0)
    && s.pushed == emits == s.count + s.evicted + s.cleared
    && s.overwritten == Wrap32(s.evicted)
    && s.nextSeq == Wrap32(1 + emits) && s.firstSeq == Wrap32(s.nextSeq - s.count)
    && Consecutive(s.records, s.firstSeq)
  }

  /** After every sequence of calls the ring holds the newest of the records emitted since
      the last clear, the newest record among them; the counters account for all records. */
  lemma RunIsFifo(capacity: nat, mem: seq<u8>, ops: seq<Op>)
    requires RECORD_MAX <= capacity <= |mem| && capacity < TWO_16
    requires forall op | op in ops :: op.Legal()
    ensures Initial(capacity, mem).Ok()
    ensures Fifo(Run(Initial(capacity, mem), ops), SinceClear(ops), Emits(ops))
  {
    hide *;
    RoomyIsOk(capacity, mem);
    RunHistory(capacity, mem, ops);
    NumbersFollow(Run(Initial(capacity, mem), ops));
  }

  lemma NumbersFollow(s: State)
    requires s.Ok() && (s.history != [] ==> s.count > 0)
    ensures Fifo(s, s.history, s.pushed)
  {
    hide Wrap32, Ring.Valid, EncodedAs, Consecutive;
    WrapAdd(1 + s.pushed, 0 - s.count);
    SuffixConsecutive(s.history, 1 + s.pushed - |s.history|, |s.history| - s.count);
    WrappedConsecutive(s.records, 1 + s.pushed - s.count);
  }

  lemma SuffixConsecutive(rs: seq<Record>, first: int, k: nat)
    requires Consecutive(rs, first) && k <= |rs|
    ensures Consecutive(rs[k..], first + k)
  {
    hide Wrap32;
  }

  lemma WrappedConsecutive(rs: seq<Record>, first: int)
    requires Consecutive(rs, first)
    ensures Consecutive(rs, Wrap32(first))
  {
    hide Wrap32;
    forall i: nat | i < |rs|
      ensures rs[i].seqNo == Wrap32(Wrap32(first) + i)
    {
      WrapAdd(first, i);
    }
  }

  lemma {:induction false} RunHistory(capacity: nat, mem: seq<u8>, ops: seq<Op>)
    requires RECORD_MAX <= capacity <= |mem| && capacity < TWO_16
    requires forall op | op in ops :: op.Legal()
    requires Initial(capacity, mem).Ok()
    ensures var s := Run(Initial(capacity, mem), ops);
      && s.history == SinceClear(ops) && s.pushed == Emits(ops)
      && (s.history != [] ==> s.count > 0)
    decreases |ops|
  {
    hide State.Ok, Step, Wrap32, Accept;
    if ops != [] {
      var before := ops[..|ops| - 1];
      RunHistory(capacity, mem, before);
      StepHistory(Run(Initial(capacity, mem), before), ops[|ops| - 1]);
    }
  }

  lemma StepHistory(s: State, op: Op)
    requires s.Ok() && s.layout.capacity >= RECORD_MAX && op.Legal()
    ensures var t := Step(s, op);
      && s.nextSeq == Wrap32(1 + s.pushed)
      && (op.Clear? ==> t.history == [] && t.pushed == s.pushed)
      && (op.Emit? ==> t.history == s.history + [op.RecordOf(s.nextSeq)] && t.pushed == s.pushed + 1 && t.count > 0)
  {
    hide Ring.Valid, EncodedAs, Wrap32;
    if op.Emit? {
      var r := op.RecordOf(s.nextSeq);
      hide Pushed;
      assert Pushable(s, r);
      PushedIsFifo(s, r);
      NumbersFollow(Pushed(s, r));
    }
  }
}
