/** SDO downloads end to end: a conforming client cuts a value into segments, and the node
    writes the object once, with that value. */
module CoDownload {
  import opened Bytes
  import opened CoTypes
  import opened CoDictionary
  import opened CoPdo
  import opened CoSdo
  import opened CoNet
  import opened CoInvariant
  import opened CoQuiet
  import opened CoUpload

  /** The client's side of a download: how much of the value it has sent, the toggle bit it
      uses next; whether the last segment was answered, and with which abort code (0 if
      acknowledged); whether a reply was lost or not the prescribed one. */
  datatype Writer = Writer(sent: nat, toggle: nat, done: bool, result: u32, lost: bool, failed: bool)

  const NEW_WRITER := Writer(0, 0, false, 0, false, false)

  datatype WriteAct<A> = Other(step: Step<A>) | SendSegment(now: u32, size: nat)

  /** How many bytes the next segment carries: what the client wants, at most 7, and no
      more than are left. */
  function Chunk(c: Writer, size: nat, v: seq<u8>): (k: nat)
    requires c.sent <= |v|
    ensures k <= 7 && c.sent + k <= |v|
  {
    Min(Min(size, 7), |v| - c.sent)
  }

  function SegmentFrame<A>(n: Node<A>, toggle: nat, part: seq<u8>, last: bool): Frame
    requires toggle <= 1 && |part| <= 7
  {
    Request(n, [toggle * 16 + (7 - |part|) * 2 + (if last then 1 else 0)] + part + seq(7 - |part|, _ => 0))
  }

  function Answered(c: Writer, k: nat, last: bool, r: Reply): Writer
    requires c.toggle <= 1
  {
    match r
    case Nothing => c.(lost := true)
    case Got(d) =>
      if d[0] == 0x20 + 16 * c.toggle then c.(sent := c.sent + k, toggle := 1 - c.toggle, done := last)
      else if d[0] == 0x80 && last then c.(sent := c.sent + k, done := true, result := FromLe32(d[4..8]))
      else c.(failed := true)
  }

  ghost function WriteStep<A(!new)>(n: Node<A>, env: Env<A>, c: Writer, v: seq<u8>, a: WriteAct<A>)
    : (r: (Node<A>, Writer))
    requires NodeOk(n) && EnvOk(env) && (a.Other? ==> Quiet(n, a.step)) && c.toggle <= 1 && c.sent <= |v|
    ensures NodeOk(r.0) && r.1.toggle <= 1 && r.1.sent <= |v|
  {
    match a
    case Other(s) => NextOk(n, env, s); (Next(n, env, s), c)
    case SendSegment(now, size) =>
      if c.done || c.lost || c.failed then (n, c)
      else
        var k := Chunk(c, size, v);
        var last := c.sent + k == |v|;
        var f := SegmentFrame(n, c.toggle, v[c.sent..c.sent + k], last);
        ReceivedOk(n, env, f, now);
        var m := Received(n, env, f, now);
        (m, Answered(c, k, last, LastReply(m.trace)))
  }

  ghost predicate CalmWrite<A(!new)>(n: Node<A>, env: Env<A>, c: Writer, v: seq<u8>, acts: seq<WriteAct<A>>)
    requires NodeOk(n) && EnvOk(env) && c.toggle <= 1 && c.sent <= |v|
    decreases |acts|
  {
    acts == [] ||
    ((acts[0].Other? ==> Quiet(n, acts[0].step))
     && var r := WriteStep(n, env, c, v, acts[0]); CalmWrite(r.0, env, r.1, v, acts[1..]))
  }

  ghost function WriteRun<A(!new)>(n: Node<A>, env: Env<A>, c: Writer, v: seq<u8>,
          acts: seq<WriteAct<A>>): (r: (Node<A>, Writer))
    requires NodeOk(n) && EnvOk(env) && c.toggle <= 1 && c.sent <= |v| && CalmWrite(n, env, c, v, acts)
    decreases |acts|
  {
    if acts == [] then (n, c)
    else
      var r := WriteStep(n, env, c, v, acts[0]);
      WriteRun(r.0, env, r.1, v, acts[1..])
  }

  // ---------------------------------------------------------------- SDO writes

  /** The object writes among the SDO events. */
  function SdoWrites(trace: seq<Event>): seq<Event> {
    OnlyWrites(View(trace))
  }

  function OnlyWrites(view: seq<Event>): seq<Event> {
    if view == [] then []
    else OnlyWrites(view[..|view| - 1]) + if view[|view| - 1].Wrote? then [view[|view| - 1]] else []
  }

  lemma SdoWritesStep(trace: seq<Event>, e: Event)
    ensures SdoWrites(trace + [e]) == SdoWrites(trace) + if IsSdo(e) && e.Wrote? then [e] else []
  {
    ViewStep(trace, e);
    assert View(trace) + [] == View(trace);
    if IsSdo(e) {
      assert (View(trace) + [e])[..|View(trace)|] == View(trace);
    }
  }

  /** One more write than in `before`: this object, this value, from a segmented download,
      with this outcome. */
  predicate WroteOnce(before: seq<Event>, after: seq<Event>, index: u16, sub: u8, v: seq<u8>, code: u32) {
    && |after| == |before| + 1 && after[..|before|] == before
    && var e := after[|before|];
       e.Wrote? && e.index == index && e.sub == sub && e.data == v && e.code == code && e.source.Segmented?
  }

  /** Node and client agree: the node has assembled what the client has sent and written
      nothing; once the last segment is answered it has written the value, once. */
  ghost predicate WriteInStep<A>(n: Node<A>, c: Writer, v: seq<u8>, index: u16, sub: u8, before: seq<Event>) {
    && !c.failed && c.toggle <= 1 && c.sent <= |v| && n.nmt != STOPPED
    && (!c.done ==> c.result == 0 && (c.lost || c.sent < |v| || |v| == 0))
    && (if c.lost then
          SdoWrites(n.trace) == before || exists code: u32 :: WroteOnce(before, SdoWrites(n.trace), index, sub, v, code)
        else if c.done then c.sent == |v| && WroteOnce(before, SdoWrites(n.trace), index, sub, v, c.result)
        else
          && SdoWrites(n.trace) == before
          && n.sdo.Downloading? && n.sdo.index == index && n.sdo.sub == sub
          && (n.sdo.expected == 0 || n.sdo.expected == |v|)
          && n.sdo.got == v[..c.sent] && n.sdo.toggle == c.toggle)
  }

  lemma SegmentFields<A>(n: Node<A>, toggle: nat, part: seq<u8>, last: bool)
    requires toggle <= 1 && |part| <= 7
    ensures var f := SegmentFrame(n, toggle, part, last);
      && f.dlc == 8 && !f.rtr && f.id == 0x600 + n.cfg.nodeId % 128 && Ccs(f) == 0 && ToggleBit(f) == toggle
      && SegLength(f) == |part| && f.data[1..1 + |part|] == part && (LastBit(f) <==> last)
  {
    SegmentDecoded(toggle, part, last);
  }

  /** The client's segment reaches the server. */
  lemma SegmentArrives<A>(n: Node<A>, env: Env<A>, f: Frame, now: u32)
    requires NodeOk(n) && n.nmt != STOPPED
    requires f.dlc == 8 && !f.rtr && f.id == 0x600 + n.cfg.nodeId % 128 && Ccs(f) == 0
    ensures Shape(n.(now := now)) && SdoOk(n.sdo)
    ensures n.sdo.Downloading? ==>
      n.sdo.toggle <= 1 && Received(n, env, f, now) == DownloadSegment(n.(now := now), env, f)
  {
    hide NodeOk, SdoOk, DownloadSegment, Ccs, Shape;
    AtTime(n, now);
    NodeTransferOk(n);
    NodeTransferOk(n.(now := now));
    NodeNumber(n);
    if n.sdo.Downloading? {
      ToggleSmall(n.sdo);
    }
  }

  lemma ToggleSmall(t: Transfer)
    requires SdoOk(t) && t.Downloading?
    ensures t.toggle <= 1
  {
  }

  /** A segment that is not the last is stored and acknowledged. */
  lemma MiddleSegment<A>(n: Node<A>, env: Env<A>, f: Frame, c: Writer, v: seq<u8>, index: u16, sub: u8,
          before: seq<Event>)
    requires Shape(n) && |v| <= SDO_BUF && WriteInStep(n, c, v, index, sub, before) && !c.lost && !c.done
    requires Ccs(f) == 0 && ToggleBit(f) == c.toggle && !LastBit(f) && c.sent + SegLength(f) < |v|
    requires f.data[1..1 + SegLength(f)] == v[c.sent..c.sent + SegLength(f)]
    ensures var m := DownloadSegment(n, env, f);
      WriteInStep(m, Answered(c, SegLength(f), false, LastReply(m.trace)), v, index, sub, before)
  {
    hide Ccs, ToggleBit, LastBit, SegLength, SdoWrites, Replied, LastReply, WroteOnce, Shape;
    var t := n.sdo;
    var k := SegLength(f);
    var got := v[..c.sent + k];
    assert v[..c.sent] + v[c.sent..c.sent + k] == got;
    var a := n.(sdo := t.(got := got, toggle := 1 - t.toggle, last := n.now, frames := t.frames + [f]));
    var d: seq<u8> := [0x20 + t.toggle * 16, 0, 0, 0, 0, 0, 0, 0];
    RepliedReply(a, env, d);
    RepliedWrites(a, env, d);
  }

  lemma RepliedWrites<A>(n: Node<A>, env: Env<A>, d: Bytes8)
    ensures SdoWrites(Replied(n, env, d).trace) == SdoWrites(n.trace)
  {
    hide SdoWrites, View;
    var f := Frame((0x580 + n.cfg.nodeId) % 0x800, |d|, false, Pad8(d));
    SdoWritesStep(n.trace, Tx(f, env.accepts(n.trace, f), SDO, n.nmt));
  }

  /** The last segment makes the node write the whole value and answer with the outcome. */
  lemma LastSegment<A>(n: Node<A>, env: Env<A>, f: Frame, c: Writer, v: seq<u8>, index: u16, sub: u8,
          before: seq<Event>)
    requires Shape(n) && MappingsOk(n) && |v| <= SDO_BUF && WriteInStep(n, c, v, index, sub,
        before) && !c.lost && !c.done
    requires Ccs(f) == 0 && ToggleBit(f) == c.toggle && LastBit(f) && c.sent + SegLength(f) == |v|
    requires f.data[1..1 + SegLength(f)] == v[c.sent..c.sent + SegLength(f)]
    ensures var m := DownloadSegment(n, env, f);
      WriteInStep(m, Answered(c, SegLength(f), true, LastReply(m.trace)), v, index, sub, before)
  {
    hide Ccs, ToggleBit, LastBit, SegLength, SdoWrites, Replied, LastReply, MappingsOk, OdWrite, WroteOnce, FromLe32;
    assert v[c.sent..c.sent + SegLength(f)] == v[c.sent..];
    assert v[..c.sent] + v[c.sent..] == v;
    var source := Segmented(n.sdo.frames + [f]);
    WriteKeepsMappings(n, env, index, sub, v, source);
    var (m, code) := OdWrite(n, env, index, sub, v, source);
    SdoWritesStep(n.trace, Wrote(index, sub, v, code, source));
    OneMore(before, index, sub, v, code, source);
    var d := if code == 0 then [0x20 + n.sdo.toggle * 16, 0, 0, 0, 0, 0, 0, 0]
             else Multiplexed(0x80, index, sub, Le32(code));
    var a := m.(sdo := Idle);
    RepliedReply(a, env, d);
    RepliedWrites(a, env, d);
    AbortCode(index, sub, code);
    assert DownloadSegment(n, env, f) == Replied(a, env, d);
  }

  lemma OneMore(before: seq<Event>, index: u16, sub: u8, v: seq<u8>, code: u32, source: Source)
    requires source.Segmented?
    ensures WroteOnce(before, before + [Wrote(index, sub, v, code, source)], index, sub, v, code)
  {
  }

  lemma AbortCode(index: u16, sub: u8, code: u32)
    ensures var d := Multiplexed(0x80, index, sub, Le32(code)); d[0] == 0x80 && FromLe32(d[4..8]) == code
  {
    Le32RoundTrip(code);
    hide FromLe32, Le32;
    var d := Multiplexed(0x80, index, sub, Le32(code));
    assert d[4..8] == Le32(code);
  }

  lemma SegmentStep<A(!new)>(n: Node<A>, env: Env<A>, c: Writer, now: u32, size: nat, v: seq<u8>, index: u16,
          sub: u8, before: seq<Event>)
    requires NodeOk(n) && EnvOk(env) && |v| <= SDO_BUF && WriteInStep(n, c, v, index, sub, before) && !c.done && !c.lost
    ensures var r := WriteStep(n, env, c, v, SendSegment(now, size));
      WriteInStep(r.0, r.1, v, index, sub, before) && (!r.1.lost ==> r.1.sent == c.sent + Chunk(c, size, v))
  {
    hide NodeOk, EnvOk, Received, DownloadSegment, SegmentFrame, Ccs, ToggleBit, LastBit, SegLength, LastReply, Shape,
         WroteOnce, FromLe32, SdoWrites;
    var k := Chunk(c, size, v);
    var f := SegmentFrame(n, c.toggle, v[c.sent..c.sent + k], c.sent + k == |v|);
    SegmentFields(n, c.toggle, v[c.sent..c.sent + k], c.sent + k == |v|);
    SegmentArrives(n, env, f, now);
    var m := n.(now := now);
    NodeMappings(n, now);
    if c.sent + k == |v| {
      LastSegment(m, env, f, c, v, index, sub, before);
    } else {
      MiddleSegment(m, env, f, c, v, index, sub, before);
    }
  }

  lemma NodeMappings<A>(n: Node<A>, now: u32)
    requires NodeOk(n)
    ensures MappingsOk(n.(now := now))
  {
    hide MappingOk, SdoOk, TraceOk;
  }

  lemma OtherStep<A>(n: Node<A>, env: Env<A>, c: Writer, s: Step<A>, v: seq<u8>, index: u16, sub: u8,
          before: seq<Event>)
    requires NodeOk(n) && WriteInStep(n, c, v, index, sub, before) && Quiet(n, s)
    ensures WriteInStep(Next(n, env, s), c, v, index, sub, before)
  {
    hide NodeOk, Next, Quiet, View, WroteOnce;
    QuietUnnoticed(n, env, s);
  }

  /** How many bytes a client that never ran out of data would send. */
  function Offered<A>(acts: seq<WriteAct<A>>): nat {
    if acts == [] then 0 else (if acts[0].SendSegment? then Min(acts[0].size, 7) else 0) + Offered(acts[1..])
  }

  lemma {:induction false} DownloadRun<A(!new)>(n: Node<A>, env: Env<A>, c: Writer, acts: seq<WriteAct<A>>,
          v: seq<u8>, index: u16, sub: u8, before: seq<Event>)
    requires NodeOk(n) && EnvOk(env) && |v| <= SDO_BUF && WriteInStep(n, c, v, index, sub, before)
    requires CalmWrite(n, env, c, v, acts)
    ensures var (m, r) := WriteRun(n, env, c, v, acts);
      WriteInStep(m, r, v, index, sub, before) && (!r.lost ==> r.sent == Min(c.sent + Offered(acts), |v|))
    ensures c.done || c.lost ==> WriteRun(n, env, c, v, acts).1 == c
    decreases |acts|
  {
    hide NodeOk, EnvOk, Received, Next, Quiet, WroteOnce, SdoWrites;
    if acts != [] {
      var r := WriteStep(n, env, c, v, acts[0]);
      if acts[0].Other? {
        OtherStep(n, env, c, acts[0].step, v, index, sub, before);
      } else if !c.done && !c.lost {
        SegmentStep(n, env, c, acts[0].now, acts[0].size, v, index, sub, before);
      }
      DownloadRun(r.0, env, r.1, acts[1..], v, index, sub, before);
    }
  }

  /** The node after a client's request to download `size` bytes, announced or not. */
  function Opened<A>(n: Node<A>, env: Env<A>, index: u16, sub: u8, size: nat, announced: bool, now: u32): Node<A>
    requires NodeOk(n)
  {
    var field := Le32(Wrap32(if announced then size else 0));
    Received(n, env, Request(n, Multiplexed(if announced then 0x21 else 0x20, index, sub, field)), now)
  }

  /** What a client and the node have made of `v` after the client offered `offered` bytes:
      nothing is written before the last segment; then the object is written once, with all
      of `v`, and the client learns the outcome. If the bus lost a reply the client stops,
      and the value has been written once or not at all. */
  ghost predicate Stored(c: Writer, offered: nat, v: seq<u8>, index: u16, sub: u8, before: seq<Event>,
          after: seq<Event>) {
    && !c.failed
    && (if c.lost then after == before || exists code: u32 :: WroteOnce(before, after, index, sub, v, code)
        else
          && c.sent == Min(offered, |v|) && (c.done ==> c.sent == |v|) && (c.sent == |v| > 0 ==> c.done)
          && if c.done then WroteOnce(before, after, index, sub, v, c.result) else after == before)
  }

  lemma InStepStored<A>(n: Node<A>, c: Writer, offered: nat, v: seq<u8>, index: u16, sub: u8, before: seq<Event>)
    requires WriteInStep(n, c, v, index, sub, before) && (!c.lost ==> c.sent == Min(offered, |v|))
    ensures Stored(c, offered, v, index, sub, before, SdoWrites(n.trace))
  {
    hide WroteOnce, SdoWrites;
  }

  /** A segmented download of any value up to 128 bytes, cut into segments of any sizes,
      with or without its size announced, makes exactly one object write with exactly those
      bytes, whatever else the node does in between. */
  lemma DownloadIsExact<A(!new)>(n: Node<A>, env: Env<A>, index: u16, sub: u8, announced: bool, now: u32, v: seq<u8>,
          acts: seq<WriteAct<A>>)
    requires NodeOk(n) && EnvOk(env) && n.nmt != STOPPED && |v| <= SDO_BUF
    requires NodeOk(Opened(n, env, index, sub, |v|, announced, now))
    requires CalmWrite(Opened(n, env, index, sub, |v|, announced, now), env, NEW_WRITER, v, acts)
    ensures LastReply(Opened(n, env, index, sub, |v|, announced, now).trace)
      in {Got(Multiplexed(0x60, index, sub, [0, 0, 0, 0])), Nothing}
    ensures var (m, c) := WriteRun(Opened(n, env, index, sub, |v|, announced, now), env, NEW_WRITER, v, acts);
      Stored(c, Offered(acts), v, index, sub, SdoWrites(n.trace), SdoWrites(m.trace))
  {
    hide *;
    DownloadOpened(n, env, index, sub, announced, now, v);
    var (m, c) := WriteRun(Opened(n, env, index, sub, |v|, announced, now), env, NEW_WRITER, v, acts);
    DownloadRun(Opened(n, env, index, sub, |v|, announced, now), env, NEW_WRITER, acts, v, index, sub,
        SdoWrites(n.trace));
    InStepStored(m, c, Offered(acts), v, index, sub, SdoWrites(n.trace));
  }

  lemma DownloadOpened<A(!new)>(n: Node<A>, env: Env<A>, index: u16, sub: u8, announced: bool, now: u32, v: seq<u8>)
    requires NodeOk(n) && n.nmt != STOPPED && |v| <= SDO_BUF
    ensures var m := Opened(n, env, index, sub, |v|, announced, now);
      && WriteInStep(m, NEW_WRITER, v, index, sub, SdoWrites(n.trace))
      && LastReply(m.trace) in {Got(Multiplexed(0x60, index, sub, [0, 0, 0, 0])), Nothing}
    ensures NEW_WRITER == Writer(0, 0, false, 0, false, false)
  {
    hide NodeOk, Multiplexed, Replied, LastReply, SdoWrites, Shape, DownloadStarted;
    var f := DownloadBegun(n, env, index, sub, announced, now, |v|);
    var a := n.(now := now, sdo := Downloading(index, sub, if announced then |v| else 0, [], 0, now, [f]));
    var ok := Multiplexed(0x60, index, sub, [0, 0, 0, 0]);
    RepliedReply(a, env, ok);
    RepliedWrites(a, env, ok);
  }

  lemma DownloadBegun<A(!new)>(n: Node<A>, env: Env<A>, index: u16, sub: u8, announced: bool, now: u32,
          size: nat) returns (f: Frame)
    requires NodeOk(n) && n.nmt != STOPPED && size <= SDO_BUF
    ensures var a := n.(now := now, sdo := Downloading(index, sub, if announced then size else 0, [], 0, now, [f]));
      Opened(n, env, index, sub, size, announced, now) == Replied(a, env, Multiplexed(0x60, index, sub, [0, 0, 0, 0]))
  {
    hide NodeOk, SdoOk, Ccs, Index, Sub, Multiplexed, Replied, FromLe32, Le32, Received;
    var tail := Le32(Wrap32(if announced then size else 0));
    f := Request(n, Multiplexed(if announced then 0x21 else 0x20, index, sub, tail));
    RequestFields(n, if announced then 0x21 else 0x20, index, sub, tail);
    Le32RoundTrip(if announced then size else 0);
    DownloadArrives(n, env, f, now);
  }

  lemma DownloadArrives<A(!new)>(n: Node<A>, env: Env<A>, f: Frame, now: u32)
    requires NodeOk(n) && n.nmt != STOPPED && Ccs(f) == 1
    requires f.id == 0x600 + n.cfg.nodeId % 128 && f.dlc == 8 && !f.rtr
    ensures Shape(n.(now := now)) && Received(n, env, f, now) == DownloadStarted(n.(now := now), env, f)
  {
    hide NodeOk, SdoOk, Ccs, Shape, DownloadStarted;
    AtTime(n, now);
    NodeTransferOk(n);
    NodeTransferOk(n.(now := now));
    NodeNumber(n);
  }

  // ---------------------------------------------------------------- expedited download

  /** A value of 1 to 4 bytes sent expedited is written at once, as it is; the answer is the
      acknowledgement or the abort code of the write. */
  lemma ExpeditedIsExact<A(!new)>(n: Node<A>, env: Env<A>, index: u16, sub: u8, now: u32,
          v: seq<u8>) returns (code: u32)
    requires NodeOk(n) && n.nmt != STOPPED && 1 <= |v| <= 4
    ensures var d := Multiplexed(0x23 + 4 * (4 - |v|), index, sub, v + seq(4 - |v|, _ => 0));
      var m := Received(n, env, Request(n, d), now);
      && SdoWrites(m.trace) == SdoWrites(n.trace) + [Wrote(index, sub, v, code, Expedited)] && m.sdo == Idle
      && LastReply(m.trace) in {Nothing, Got(if code == 0 then Multiplexed(0x60, index, sub, [0, 0, 0, 0])
                                             else Multiplexed(0x80, index, sub, Le32(code)))}
  {
    hide NodeOk, Multiplexed, Replied, LastReply, SdoWrites, OdWrite, Received, Le32;
    ExpeditedBegun(n, env, index, sub, now, v);
    NodeMappings(n, now);
    var a := n.(now := now);
    WriteKeepsMappings(a, env, index, sub, v, Expedited);
    var (m, c) := OdWrite(a, env, index, sub, v, Expedited);
    code := c;
    SdoWritesStep(n.trace, Wrote(index, sub, v, code, Expedited));
    var d := if code == 0 then Multiplexed(0x60, index, sub, [0, 0, 0, 0])
             else Multiplexed(0x80, index, sub, Le32(code));
    RepliedReply(m.(sdo := Idle), env, d);
    RepliedWrites(m.(sdo := Idle), env, d);
  }

  lemma ExpeditedBegun<A(!new)>(n: Node<A>, env: Env<A>, index: u16, sub: u8, now: u32, v: seq<u8>)
    requires NodeOk(n) && n.nmt != STOPPED && 1 <= |v| <= 4
    ensures Shape(n.(now := now))
    ensures var (m, code) := OdWrite(n.(now := now), env, index, sub, v, Expedited);
      Received(n, env, Request(n, Multiplexed(0x23 + 4 * (4 - |v|), index, sub, v + seq(4 - |v|, _ => 0))), now)
      == if code != 0 then Aborted(m, env, index, sub, code)
         else Replied(m.(sdo := Idle), env, Multiplexed(0x60, index, sub, [0, 0, 0, 0]))
  {
    hide NodeOk, SdoOk, Ccs, Index, Sub, Multiplexed, Shape, Replied, Aborted, OdWrite;
    var tail := v + seq(4 - |v|, _ => 0);
    var f := Request(n, Multiplexed(0x23 + 4 * (4 - |v|), index, sub, tail));
    AtTime(n, now);
    NodeTransferOk(n);
    NodeTransferOk(n.(now := now));
    RequestFields(n, 0x23 + 4 * (4 - |v|), index, sub, tail);
    NodeNumber(n);
    DataBytes(f.data, v);
  }

  /** The value lies at the start of the padded field. */
  lemma DataBytes(d: Bytes8, v: seq<u8>)
    requires |v| <= 4 && d[4..8] == v + seq(4 - |v|, _ => 0)
    ensures d[4..4 + |v|] == v
  {
    SliceOfSlice(d, 4, 8, 0, |v|);
    SliceOf(v, seq(4 - |v|, _ => 0));
  }
}
