/** SDO uploads end to end: a conforming client on one side, the node on the other, and
    any steps that do not concern the transfer in between. */
module CoUpload {
  import opened Bytes
  import opened CoTypes
  import opened CoDictionary
  import opened CoPdo
  import opened CoSdo
  import opened CoNet
  import opened CoInvariant
  import opened CoQuiet

  // ---------------------------------------------------------------- client

  function Request<A>(n: Node<A>, d: Bytes8): Frame {
    Frame(0x600 + n.cfg.nodeId % 128, 8, false, d)
  }

  /** The client's side of an upload: what it has received, the toggle bit it uses next,
      the number of segments; whether the last segment came, a reply was lost on the bus,
      or a reply was not the one section 7.2.4.3 of CiA 301 prescribes. */
  datatype Reader = Reader(got: seq<u8>, toggle: nat, segments: nat, done: bool, lost: bool, failed: bool)

  const NEW_READER := Reader([], 0, 0, false, false, false)

  /** The reply to the client's latest request, if the bus took it. */
  datatype Reply = Nothing | Got(d: Bytes8)

  function LastReply(trace: seq<Event>): Reply {
    if |trace| > 0 && trace[|trace| - 1].Tx? && trace[|trace| - 1].accepted then Got(trace[|trace| - 1].frame.data)
    else Nothing
  }

  function Absorbed(c: Reader, r: Reply): Reader {
    match r
    case Nothing => c.(lost := true)
    case Got(d) =>
      if d[0] / 32 != 0 || d[0] / 16 % 2 != c.toggle then c.(failed := true)
      else
        var k := 7 - d[0] / 2 % 8;
        c.(got := c.got + d[1..1 + k], toggle := 1 - c.toggle, segments := c.segments + 1, done := d[0] % 2 == 1)
  }

  datatype ReadAct<A> = Other(step: Step<A>) | AskSegment(now: u32)

  predicate Calm<A>(n: Node<A>, a: ReadAct<A>) {
    a.Other? ==> Quiet(n, a.step)
  }

  function AskFrame<A>(n: Node<A>, toggle: nat): Frame
    requires toggle <= 1
  {
    Request(n, [0x60 + 16 * toggle, 0, 0, 0, 0, 0, 0, 0])
  }

  /** One act of a run: another step of the node, or the client asks for a segment. A
      client that has everything, lost a reply or saw a wrong one asks no more. */
  ghost function ReadStep<A(!new)>(n: Node<A>, env: Env<A>, c: Reader, a: ReadAct<A>): (r: (Node<A>, Reader))
    requires NodeOk(n) && EnvOk(env) && Calm(n, a) && c.toggle <= 1
    ensures NodeOk(r.0) && r.1.toggle <= 1
  {
    match a
    case Other(s) => NextOk(n, env, s); (Next(n, env, s), c)
    case AskSegment(now) =>
      if c.done || c.lost || c.failed then (n, c)
      else
        ReceivedOk(n, env, AskFrame(n, c.toggle), now);
        var m := Received(n, env, AskFrame(n, c.toggle), now);
        (m, Absorbed(c, LastReply(m.trace)))
  }

  ghost predicate CalmRead<A(!new)>(n: Node<A>, env: Env<A>, c: Reader, acts: seq<ReadAct<A>>)
    requires NodeOk(n) && EnvOk(env) && c.toggle <= 1
    decreases |acts|
  {
    acts == [] ||
    (Calm(n, acts[0]) && var r := ReadStep(n, env, c, acts[0]); CalmRead(r.0, env, r.1, acts[1..]))
  }

  ghost function ReadRun<A(!new)>(n: Node<A>, env: Env<A>, c: Reader, acts: seq<ReadAct<A>>): (r: (Node<A>, Reader))
    requires NodeOk(n) && EnvOk(env) && c.toggle <= 1 && CalmRead(n, env, c, acts)
    decreases |acts|
  {
    if acts == [] then (n, c)
    else
      var r := ReadStep(n, env, c, acts[0]);
      ReadRun(r.0, env, r.1, acts[1..])
  }

  function Asked<A>(acts: seq<ReadAct<A>>): nat {
    if acts == [] then 0 else (if acts[0].AskSegment? then 1 else 0) + Asked(acts[1..])
  }

  function Min(a: nat, b: nat): nat { if a < b then a else b }

  function SegmentCount(len: nat): nat { (len + 6) / 7 }

  // ---------------------------------------------------------------- segmented upload

  /** Node and client agree: what the client has is what the node has sent of `d`. */
  predicate InStep<A>(n: Node<A>, c: Reader, d: seq<u8>) {
    && !c.failed && c.toggle <= 1 && n.nmt != STOPPED
    && (c.lost ||
        (if c.done then c.got == d && c.segments == SegmentCount(|d|)
         else
           && n.sdo.Uploading? && n.sdo.data == d && n.sdo.toggle == c.toggle
           && c.segments * 7 == n.sdo.pos < |d| && c.got == d[..n.sdo.pos]))
  }

  lemma SegmentStep<A(!new)>(n: Node<A>, env: Env<A>, c: Reader, now: u32, d: seq<u8>)
    requires NodeOk(n) && EnvOk(env) && InStep(n, c, d) && !c.done && !c.lost && !c.failed
    ensures var r := ReadStep(n, env, c, AskSegment(now));
      InStep(r.0, r.1, d) && (!r.1.lost ==> r.1.segments == c.segments + 1)
  {
    hide NodeOk, Sent, Ccs, ToggleBit, EnvOk, SdoOk, Received, UploadSegment;
    AskArrives(n, env, c, now, d);
    SegmentReply(n.(now := now), env, AskFrame(n, c.toggle), c, d);
  }

  lemma AskArrives<A(!new)>(n: Node<A>, env: Env<A>, c: Reader, now: u32, d: seq<u8>)
    requires NodeOk(n) && InStep(n, c, d) && !c.done && !c.lost && !c.failed
    ensures var m, f := n.(now := now), AskFrame(n, c.toggle);
      ToggleBit(f) == c.toggle && InStep(m, c, d) && Received(n, env, f, now) == UploadSegment(m, env, f)
  {
    hide NodeOk, Sent, Ccs, ToggleBit, SdoOk, UploadSegment;
    AtTime(n, now);
    NodeTransferOk(n.(now := now));
    NodeNumber(n);
    AskFields(n, c.toggle);
  }

  lemma AskFields<A>(n: Node<A>, toggle: nat)
    requires toggle <= 1
    ensures Ccs(AskFrame(n, toggle)) == 3 && ToggleBit(AskFrame(n, toggle)) == toggle
  {
    assert AskFrame(n, toggle).data[0] == if toggle == 0 then 0x60 else 0x70;
  }

  /** What the client makes of a segment. */
  lemma SegmentDecoded(toggle: nat, part: seq<u8>, last: bool)
    requires toggle <= 1 && |part| <= 7
    ensures var cmd: u8 := toggle * 16 + (7 - |part|) * 2 + (if last then 1 else 0);
      var d: seq<u8> := [cmd] + part + seq(7 - |part|, _ => 0);
      && |d| == 8 && d[0] / 32 == 0 && d[0] / 16 % 2 == toggle && 7 - d[0] / 2 % 8 == |part|
      && d[1..1 + |part|] == part && (d[0] % 2 == 1 <==> last)
  {
  }

  lemma SegmentSent<A>(m: Node<A>, env: Env<A>, f: Frame) returns (a: Node<A>, bytes: Bytes8, k: nat)
    requires m.sdo.Uploading? && m.sdo.pos <= |m.sdo.data| && m.sdo.toggle <= 1 && ToggleBit(f) == m.sdo.toggle
    ensures k == Min(7, |m.sdo.data| - m.sdo.pos)
    ensures var t, last := m.sdo, m.sdo.pos + k == |m.sdo.data|;
      && bytes == [t.toggle * 16 + (7 - k) * 2 + (if last then 1 else 0)] + t.data[t.pos..t.pos + k]
                  + seq(7 - k, _ => 0)
      && a == m.(sdo := if last then Idle else t.(pos := t.pos + k, toggle := 1 - t.toggle, last := m.now))
      && UploadSegment(m, env, f) == Replied(a, env, bytes)
  {
    hide ToggleBit, Sent, Replied;
    var t := m.sdo;
    k := Min(7, |t.data| - t.pos);
    var last := t.pos + k == |t.data|;
    bytes := [t.toggle * 16 + (7 - k) * 2 + (if last then 1 else 0)] + t.data[t.pos..t.pos + k] + seq(7 - k, _ => 0);
    a := m.(sdo := if last then Idle else t.(pos := t.pos + k, toggle := 1 - t.toggle, last := m.now));
  }

  lemma SegmentReply<A>(m: Node<A>, env: Env<A>, f: Frame, c: Reader, d: seq<u8>)
    requires InStep(m, c, d) && !c.done && !c.lost && ToggleBit(f) == c.toggle
    ensures var q := UploadSegment(m, env, f); var r := Absorbed(c, LastReply(q.trace));
      InStep(q, r, d) && (!r.lost ==> r.segments == c.segments + 1)
  {
    hide ToggleBit, UploadSegment, Sent, Replied, LastReply;
    var t := m.sdo;
    var a, bytes, k := SegmentSent(m, env, f);
    var part := d[t.pos..t.pos + k];
    SegmentDecoded(t.toggle, part, t.pos + k == |d|);
    assert d[..t.pos] + part == d[..t.pos + k];
    RepliedReply(a, env, bytes);
    assert t.pos + k == |d| ==> d[..t.pos + k] == d;
  }

  /** A reply reaches the client as sent, or not at all; replying changes only the trace. */
  lemma RepliedReply<A>(n: Node<A>, env: Env<A>, d: Bytes8)
    ensures var q := Replied(n, env, d);
      (LastReply(q.trace) == Nothing || LastReply(q.trace) == Got(d)) && q == n.(trace := q.trace)
  {
  }

  lemma OtherStep<A>(n: Node<A>, env: Env<A>, c: Reader, s: Step<A>, d: seq<u8>)
    requires NodeOk(n) && InStep(n, c, d) && Quiet(n, s)
    ensures InStep(Next(n, env, s), c, d)
  {
    hide NodeOk, Next, Quiet, View;
    QuietUnnoticed(n, env, s);
  }

  lemma {:induction false} UploadRun<A(!new)>(n: Node<A>, env: Env<A>, c: Reader, acts: seq<ReadAct<A>>, d: seq<u8>)
    requires NodeOk(n) && EnvOk(env) && InStep(n, c, d) && CalmRead(n, env, c, acts)
    ensures var (m, r) := ReadRun(n, env, c, acts);
      InStep(m, r, d) && (!r.lost && !c.done ==> r.segments == Min(c.segments + Asked(acts), SegmentCount(|d|)))
    ensures c.done || c.lost ==> ReadRun(n, env, c, acts).1 == c
    decreases |acts|
  {
    hide NodeOk, EnvOk, Received, Next, Quiet;
    if acts != [] {
      var r := ReadStep(n, env, c, acts[0]);
      if acts[0].Other? {
        OtherStep(n, env, c, acts[0].step, d);
      } else if !c.done && !c.lost {
        SegmentStep(n, env, c, acts[0].now, d);
      }
      UploadRun(r.0, env, r.1, acts[1..], d);
    }
  }

  /** The node after a client's request to upload an object. */
  function Opened<A>(n: Node<A>, env: Env<A>, index: u16, sub: u8, now: u32): Node<A>
    requires NodeOk(n)
  {
    Received(n, env, Request(n, Multiplexed(0x40, index, sub, [0, 0, 0, 0])), now)
  }

  /** What a client has of object `d` after asking for `asked` segments. */
  predicate Delivered(c: Reader, asked: nat, d: seq<u8>) {
    && !c.failed
    && (!c.lost ==>
         && c.segments == Min(asked, SegmentCount(|d|))
         && c.got == d[..Min(7 * c.segments, |d|)]
         && (c.done <==> c.segments == SegmentCount(|d|)))
  }

  lemma InStepDelivered<A>(n: Node<A>, c: Reader, asked: nat, d: seq<u8>)
    requires InStep(n, c, d) && (!c.lost ==> c.segments == Min(asked, SegmentCount(|d|)))
    ensures Delivered(c, asked, d)
  {
  }

  /** A client that asks for an object of 5 to 128 bytes is told its size and then gets the
      bytes read at that moment, seven per segment, with alternating toggle bits and the
      last bit on segment number ceil(length / 7) only; whatever else the node does in
      between and however the application changes its objects. */
  lemma UploadIsExact<A(!new)>(n: Node<A>, env: Env<A>, index: u16, sub: u8, now: u32, acts: seq<ReadAct<A>>,
          d: seq<u8>)
    requires NodeOk(n) && EnvOk(env) && n.nmt != STOPPED
    requires OdRead(n, env, index, sub) == Data(d) && |d| > 4
    requires NodeOk(Opened(n, env, index, sub, now)) && CalmRead(Opened(n, env, index, sub, now), env, NEW_READER, acts)
    ensures LastReply(Opened(n, env, index, sub, now).trace)
      in {Got(Multiplexed(0x41, index, sub, Le32(Wrap32(|d|)))), Nothing}
    ensures Delivered(ReadRun(Opened(n, env, index, sub, now), env, NEW_READER, acts).1, Asked(acts), d)
  {
    hide *;
    UploadOpened(n, env, index, sub, now, d);
    var (m, c) := ReadRun(Opened(n, env, index, sub, now), env, NEW_READER, acts);
    UploadRun(Opened(n, env, index, sub, now), env, NEW_READER, acts, d);
    InStepDelivered(m, c, Asked(acts), d);
  }

  lemma UploadOpened<A(!new)>(n: Node<A>, env: Env<A>, index: u16, sub: u8, now: u32, d: seq<u8>)
    requires NodeOk(n) && EnvOk(env) && n.nmt != STOPPED && OdRead(n, env, index, sub) == Data(d) && |d| > 4
    ensures InStep(Opened(n, env, index, sub, now), NEW_READER, d)
    ensures NEW_READER == Reader([], 0, 0, false, false, false)
    ensures LastReply(Opened(n, env, index, sub, now).trace)
      in {Got(Multiplexed(0x41, index, sub, Le32(Wrap32(|d|)))), Nothing}
  {
    OdReadFits(n, env, index, sub);
    UploadBegun(n, env, index, sub, now);
    ReadIgnoresTime(n, env, index, sub, now);
    var a := n.(now := now, sdo := Uploading(index, sub, d, 0, 0, now));
    hide NodeOk, EnvOk, OdRead, Multiplexed, Sent, Opened, LastReply, Le32, Shape;
    RepliedReply(a, env, Multiplexed(0x41, index, sub, Le32(Wrap32(|d|))));
  }

  lemma ReadIgnoresTime<A>(n: Node<A>, env: Env<A>, index: u16, sub: u8, now: u32)
    requires Shape(n)
    ensures OdRead(n.(now := now), env, index, sub) == OdRead(n, env, index, sub)
  {
    hide MapRead, Str;
  }

  lemma UploadBegun<A(!new)>(n: Node<A>, env: Env<A>, index: u16, sub: u8, now: u32)
    requires NodeOk(n) && n.nmt != STOPPED
    ensures Shape(n.(now := now))
    ensures Opened(n, env, index, sub, now) == UploadStarted(n.(now := now), env, index, sub)
  {
    hide NodeOk, SdoOk, UploadStarted, Ccs, Index, Sub, Multiplexed, Shape;
    AtTime(n, now);
    NodeTransferOk(n);
    NodeTransferOk(n.(now := now));
    RequestFields(n, 0x40, index, sub, [0, 0, 0, 0]);
    NodeNumber(n);
  }

  lemma NodeNumber<A>(n: Node<A>)
    requires NodeOk(n)
    ensures 1 <= n.cfg.nodeId <= 127 && n.nmt != INITIALISING
  {
  }

  lemma RequestFields<A>(n: Node<A>, cmd: u8, index: u16, sub: u8, tail: seq<u8>)
    requires |tail| == 4
    ensures var f := Request(n, Multiplexed(cmd, index, sub, tail));
      Ccs(f) == cmd / 32 && Index(f) == index && Sub(f) == sub && f.data[0] == cmd && f.data[4..8] == tail
  {
    Le16RoundTrip(index);
    var d := Multiplexed(cmd, index, sub, tail);
    hide FromLe16, Le16;
    assert d[1..3] == Le16(index);
  }

  // ---------------------------------------------------------------- expedited upload

  /** What a client makes of an expedited reply with the size bit set. */
  function ExpeditedValue(d: Bytes8): seq<u8> {
    d[4..8 - d[0] / 4 % 4]
  }

  /** The reply is an expedited one for this object. */
  predicate ExpeditedReply(d: Bytes8, index: u16, sub: u8) {
    d[0] / 32 == 2 && d[0] % 4 == 3 && d[1..4] == Le16(index) + [sub]
  }

  /** An object of up to four bytes is answered at once. The client recovers its value
      exactly when it is not empty: the two size bits cannot express length 0. */
  lemma ExpeditedIffNotEmpty<A(!new)>(n: Node<A>, env: Env<A>, index: u16, sub: u8, now: u32, v: seq<u8>)
    requires NodeOk(n) && n.nmt != STOPPED && OdRead(n, env, index, sub) == Data(v) && |v| <= 4
    ensures var m := Opened(n, env, index, sub, now);
      m.sdo == Idle && match LastReply(m.trace)
                       case Nothing => true
                       case Got(d) => ExpeditedReply(d, index, sub) && (ExpeditedValue(d) == v <==> |v| >= 1)
  {
    hide NodeOk, OdRead, Sent, Replied, Opened, Multiplexed, ExpeditedReply, ExpeditedValue, LastReply, Shape;
    UploadBegun(n, env, index, sub, now);
    NodeTransferOk(n);
    ReadIgnoresTime(n, env, index, sub, now);
    var d := ExpeditedDecoded(index, sub, v);
    var a := n.(now := now, sdo := Idle);
    RepliedReply(a, env, d);
  }

  lemma ExpeditedDecoded(index: u16, sub: u8, v: seq<u8>) returns (d: Bytes8)
    requires |v| <= 4
    ensures d == Multiplexed(0x43 + 4 * (4 - |v|), index, sub, v + seq(4 - |v|, _ => 0))
    ensures ExpeditedReply(d, index, sub) && (ExpeditedValue(d) == v <==> |v| >= 1)
  {
    var pad := v + seq(4 - |v|, _ => 0);
    d := Multiplexed(0x43 + 4 * (4 - |v|), index, sub, pad);
    hide Le16;
    assert d[4..8] == pad;
    if |v| >= 1 {
      assert d[0] / 4 % 4 == 4 - |v|;
      assert ExpeditedValue(d) == pad[..|v|] == v;
    }
  }

  /** Such an object: with an empty device name the client reads four zero bytes at 0x1008. */
  lemma EmptyName<A(!new)>(cfg: Config, app: A, now: u32, env: Env<A>)
    requires cfg.deviceName == [] && forall t, f :: env.accepts(t, f)
    ensures var n := Initialised(cfg, app, now);
      NodeOk(n) && OdRead(n, env, 0x1008, 0) == Data([])
      && LastReply(Opened(n, env, 0x1008, 0, now).trace) == Got([0x53, 0x08, 0x10, 0x00, 0, 0, 0, 0])
    ensures ExpeditedValue([0x53, 0x08, 0x10, 0x00, 0, 0, 0, 0]) == [0, 0, 0, 0]
  {
    hide NodeOk, OdRead, Sent, Replied, Opened, Multiplexed, LastReply, Shape, Initialised;
    var n := Initialised(cfg, app, now);
    StartOk(cfg, app, now);
    NameIsEmpty(cfg, app, now, env);
    UploadBegun(n, env, 0x1008, 0, now);
    NodeTransferOk(n);
    ReadIgnoresTime(n, env, 0x1008, 0, now);
    var d := ExpeditedDecoded(0x1008, 0, []);
    assert [] + seq(4, _ => 0) == [0, 0, 0, 0];
    NameReply();
    AcceptedReply(n.(now := now, sdo := Idle), env, d);
  }

  lemma NameIsEmpty<A>(cfg: Config, app: A, now: u32, env: Env<A>)
    requires cfg.deviceName == []
    ensures var n := Initialised(cfg, app, now); n.nmt != STOPPED && Shape(n) && OdRead(n, env, 0x1008, 0) == Data([])
  {
  }

  lemma NameReply()
    ensures Multiplexed(0x53, 0x1008, 0, [0, 0, 0, 0]) == [0x53, 0x08, 0x10, 0x00, 0, 0, 0, 0]
  {
  }

  lemma AcceptedReply<A(!new)>(n: Node<A>, env: Env<A>, d: Bytes8)
    requires forall t, f :: env.accepts(t, f)
    ensures LastReply(Replied(n, env, d).trace) == Got(d)
  {
  }
}
