/** The SDO server: expedited and segmented transfers, aborts. */
module CoSdo {
  import opened Bytes
  import opened CoTypes
  import opened CoDictionary

  // Fields of a command byte.

  function Ccs(f: Frame): nat { f.data[0] / 32 }

  function ToggleBit(f: Frame): (b: nat)
    ensures b <= 1
  { f.data[0] / 16 % 2 }

  function LastBit(f: Frame): bool { f.data[0] % 2 == 1 }

  function SegLength(f: Frame): (k: nat)
    ensures k <= 7
  { 7 - f.data[0] / 2 % 8 }

  function Index(f: Frame): u16 { FromLe16(f.data[1..3]) }

  function Sub(f: Frame): u8 { f.data[3] }

  /** A download request with the size bit announces a size, which may be 0. */
  predicate Sized(f: Frame) { LastBit(f) }

  function SizeField(f: Frame): u32 { FromLe32(f.data[4..8]) }

  /** The length the server holds a download to; 0 is no length, whether no size was
      announced or size 0. */
  function Expected(f: Frame): nat { if Sized(f) then SizeField(f) else 0 }

  predicate IsExpedited(f: Frame) { f.data[0] / 2 % 2 == 1 }

  function ExpeditedLength(f: Frame): nat { if LastBit(f) then 4 - f.data[0] / 4 % 4 else 4 }

  function Replied<A>(n: Node<A>, env: Env<A>, d: Bytes8): Node<A> {
    Sent(n, env, 0x580 + n.cfg.nodeId, d, SDO)
  }

  function Multiplexed(cmd: u8, index: u16, sub: u8, tail: seq<u8>): Bytes8
    requires |tail| == 4
  {
    [cmd] + Le16(index) + [sub] + tail
  }

  function Aborted<A>(n: Node<A>, env: Env<A>, index: u16, sub: u8, code: u32): Node<A> {
    Replied(n.(sdo := Idle), env, Multiplexed(0x80, index, sub, Le32(code)))
  }

  /** A transfer names its object; an idle server answers with index 0. */
  function AbortedTransfer<A>(n: Node<A>, env: Env<A>, code: u32): Node<A>
    requires !n.sdo.Idle?
  {
    Aborted(n, env, n.sdo.index, n.sdo.sub, code)
  }

  function UploadStarted<A>(n: Node<A>, env: Env<A>, index: u16, sub: u8): Node<A>
    requires Shape(n)
  {
    var r := OdRead(n, env, index, sub);
    if r.Abort? then Aborted(n, env, index, sub, r.code)
    else if |r.bytes| <= 4 then
      Replied(n.(sdo := Idle), env,
              Multiplexed(0x43 + 4 * (4 - |r.bytes|), index, sub, r.bytes + seq(4 - |r.bytes|, _ => 0)))
    else
      Replied(n.(sdo := Uploading(index, sub, r.bytes, 0, 0, n.now)), env,
              Multiplexed(0x41, index, sub, Le32(Wrap32(|r.bytes|))))
  }

  function UploadSegment<A>(n: Node<A>, env: Env<A>, f: Frame): Node<A>
    requires n.sdo.Uploading? ==> n.sdo.pos <= |n.sdo.data| && n.sdo.toggle <= 1
  {
    if !n.sdo.Uploading? then Aborted(n, env, 0, 0, ABORT_CMD)
    else if ToggleBit(f) != n.sdo.toggle then AbortedTransfer(n, env, ABORT_TOGGLE)
    else
      var t := n.sdo;
      var remain := |t.data| - t.pos;
      var k := if remain > 7 then 7 else remain;
      var last := k == remain;
      var d := [t.toggle * 16 + (7 - k) * 2 + (if last then 1 else 0)] + t.data[t.pos..t.pos + k] + seq(7 - k, _ => 0);
      Replied(n.(sdo := if last then Idle else t.(pos := t.pos + k, toggle := 1 - t.toggle, last := n.now)), env, d)
  }

  function DownloadStarted<A>(n: Node<A>, env: Env<A>, f: Frame): Node<A>
    requires Shape(n)
  {
    var ok := Multiplexed(0x60, Index(f), Sub(f), [0, 0, 0, 0]);
    if IsExpedited(f) then
      var (m, code) := OdWrite(n, env, Index(f), Sub(f), f.data[4..4 + ExpeditedLength(f)], Expedited);
      if code != 0 then Aborted(m, env, Index(f), Sub(f), code) else Replied(m.(sdo := Idle), env, ok)
    else if Expected(f) > SDO_BUF then Aborted(n, env, Index(f), Sub(f), ABORT_OUT_OF_MEMORY)
    else
      Replied(n.(sdo := Downloading(Index(f), Sub(f), Expected(f), [], 0, n.now, [f])), env, ok)
  }

  function DownloadSegment<A>(n: Node<A>, env: Env<A>, f: Frame): Node<A>
    requires Shape(n) && (n.sdo.Downloading? ==> n.sdo.toggle <= 1)
  {
    if !n.sdo.Downloading? then Aborted(n, env, 0, 0, ABORT_CMD)
    else
      var t := n.sdo;
      var k := SegLength(f);
      var got := t.got + f.data[1..1 + k];
      var d: seq<u8> := [0x20 + t.toggle * 16, 0, 0, 0, 0, 0, 0, 0];
      if ToggleBit(f) != t.toggle then AbortedTransfer(n, env, ABORT_TOGGLE)
      else if |got| > SDO_BUF then AbortedTransfer(n, env, ABORT_OUT_OF_MEMORY)
      else if !LastBit(f) then
        Replied(n.(sdo := t.(got := got, toggle := 1 - t.toggle, last := n.now, frames := t.frames + [f])), env, d)
      else if t.expected != 0 && |got| != t.expected then AbortedTransfer(n, env, ABORT_TYPE_MISMATCH)
      else
        var (m, code) := OdWrite(n, env, t.index, t.sub, got, Segmented(t.frames + [f]));
        if code != 0 then Aborted(m, env, t.index, t.sub, code) else Replied(m.(sdo := Idle), env, d)
  }

  function SdoReceived<A>(n: Node<A>, env: Env<A>, f: Frame): Node<A>
    requires Shape(n) && SdoOk(n.sdo)
  {
    if f.dlc < 8 || f.rtr then n
    else
      match Ccs(f)
      case 0 => DownloadSegment(n, env, f)
      case 1 => DownloadStarted(n, env, f)
      case 2 => UploadStarted(n, env, Index(f), Sub(f))
      case 3 => UploadSegment(n, env, f)
      case 4 => n.(sdo := Idle)
      case _ => Aborted(n, env, Index(f), Sub(f), ABORT_CMD)
  }

  // ---------------------------------------------------------------- well-formedness

  /** The frames of an unfinished download: a request for this object that makes the
      server expect `expected`, then segments with alternating toggle bits whose bytes make up `got`,
      none of them the last. `toggle` is the one expected next. */
  predicate Assembles(frames: seq<Frame>, index: u16, sub: u8, expected: nat, got: seq<u8>, toggle: nat)
    decreases |frames|
  {
    if frames == [] then false
    else
      var n := |frames| - 1;
      var f := frames[n];
      if n == 0 then
        Ccs(f) == 1 && !IsExpedited(f) && Index(f) == index && Sub(f) == sub && Expected(f) == expected
        && got == [] && toggle == 0
      else
        var k := SegLength(f);
        && Ccs(f) == 0 && !LastBit(f) && ToggleBit(f) + toggle == 1
        && k <= |got| && got[|got| - k..] == f.data[1..1 + k]
        && Assembles(frames[..n], index, sub, expected, got[..|got| - k], 1 - toggle)
  }

  /** The frames of a finished download: an unfinished one and a last segment with the
      right toggle bit; no more bytes than fit, and as many as expected, if a length is. */
  predicate Complete(frames: seq<Frame>, index: u16, sub: u8, data: seq<u8>) {
    && |frames| > 1
    && var n := |frames| - 1;
       var f := frames[n];
       var k := SegLength(f);
    && Ccs(f) == 0 && LastBit(f)
    && k <= |data| <= SDO_BUF && data[|data| - k..] == f.data[1..1 + k]
    && Ccs(frames[0]) == 1 && (Expected(frames[0]) == 0 || Expected(frames[0]) == |data|)
    && Assembles(frames[..n], index, sub, Expected(frames[0]), data[..|data| - k], ToggleBit(f))
  }

  predicate SdoOk(t: Transfer) {
    match t
    case Idle => true
    case Uploading(_, _, data, pos, toggle, _) =>
      4 < |data| <= SDO_BUF && pos < |data| && pos % 7 == 0 && toggle == pos / 7 % 2
    case Downloading(index, sub, expected, got, toggle, _, frames) =>
      expected <= SDO_BUF && |got| <= SDO_BUF && toggle <= 1 && Assembles(frames, index, sub, expected, got, toggle)
  }

  /** What one event of the trace may be. */
  predicate EventOk(e: Event) {
    match e
    case Tx(frame, _, kind, nmt) =>
      && (kind.PDO? ==> nmt == OPERATIONAL)
      && (kind == SDO || kind == EMCY ==> nmt != STOPPED && nmt != INITIALISING)
      && (kind == HEARTBEAT ==> frame.data[0] == 0 || frame.data[0] == NmtCode(nmt))
    case Wrote(index, sub, data, _, source) =>
      source.Segmented? ==> Complete(source.frames, index, sub, data)
  }

  predicate TraceOk(trace: seq<Event>) {
    forall i | 0 <= i < |trace| :: EventOk(trace[i])
  }

  lemma {:induction false} AssemblesExpected(frames: seq<Frame>, index: u16, sub: u8, expected: nat, got: seq<u8>,
          toggle: nat)
    requires Assembles(frames, index, sub, expected, got, toggle)
    ensures frames != [] && Expected(frames[0]) == expected && Ccs(frames[0]) == 1
    decreases |frames|
  {
    hide Ccs, Index, Expected, ToggleBit, SegLength, LastBit, IsExpedited;
    var n := |frames| - 1;
    if n > 0 {
      AssemblesExpected(frames[..n], index, sub, expected, got[..|got| - SegLength(frames[n])], 1 - toggle);
    }
  }

  lemma AssemblesMore(frames: seq<Frame>, index: u16, sub: u8, expected: nat, got: seq<u8>, toggle: nat, f: Frame)
    requires Assembles(frames, index, sub, expected, got, toggle) && toggle <= 1
    requires Ccs(f) == 0 && ToggleBit(f) == toggle
    ensures !LastBit(f) ==> Assembles(frames + [f], index, sub, expected, got + f.data[1..1 + SegLength(f)], 1 - toggle)
    ensures LastBit(f) && |got| + SegLength(f) <= SDO_BUF && (expected == 0 || |got| + SegLength(f) == expected) ==>
      Complete(frames + [f], index, sub, got + f.data[1..1 + SegLength(f)])
  {
    hide Ccs, Index, Expected, ToggleBit, SegLength, LastBit, IsExpedited;
    AssemblesExpected(frames, index, sub, expected, got, toggle);
    var k := SegLength(f);
    var data := got + f.data[1..1 + k];
    assert (frames + [f])[..|frames|] == frames;
    assert data[..|data| - k] == got && data[|data| - k..] == f.data[1..1 + k];
  }
}
