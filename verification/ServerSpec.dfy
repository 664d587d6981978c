/** The local server as a state machine over atomic steps of its two tasks: the HTTP task,
    which runs the handler and the close callback, and the worker. */
module ServerSpec {

  const POOL: nat := 4
  const DEPTH: nat := 8

  datatype Session = Session(active: bool, conn: nat, closing: bool)

  datatype Desc = Open(slot: nat, conn: nat) | Frame(slot: nat, conn: nat, buf: nat) | Close(slot: nat, conn: nat)

  /** Where the HTTP task is: idle; holding a permit before it takes a slot; about to queue
      OPEN, a frame, or CLOSE; about to clean a slot up itself, or to return its permit. */
  datatype Handler =
    | Idle
    | Granted
    | Opening(slot: nat, conn: nat)
    | Holding(slot: nat, conn: nat, buf: nat)
    | Ending(slot: nat, conn: nat)
    | Cleaning(slot: nat, conn: nat)
    | Giving(conn: nat)

  /** Where the worker is: idle; with a descriptor; with one it has compared with the session
      table; about to release a buffer, to clean a slot up, or to return its permit. */
  datatype Worker =
    | Waiting
    | Took(d: Desc)
    | Checked(d: Desc, stale: bool)
    | Releasing(buf: nat)
    | Clearing(slot: nat, conn: nat)
    | Returning(conn: nat)

  /** A descriptor the protocol was called for: the connection that produced it, the one in
      the slot at that moment, and whether the handler had cleaned a slot up in between. */
  datatype Call = Call(from: nat, to: nat, inlined: bool)

  /** `sockets[k]`: a socket is open whose context is slot `k`. `calls`, `returned` and
      `inlined` are for the observer: protocol calls, connections whose permit came back,
      and whether the handler has cleaned up a slot itself since the worker's last look at
      the session table. */
  datatype Server = Server(
    sessions: seq<Session>, permits: nat, queue: seq<Desc>, used: seq<bool>, counter: nat, sockets: seq<bool>,
    h: Handler, w: Worker, calls: seq<Call>, returned: seq<nat>, inlined: bool)

  predicate Shape(s: Server) {
    |s.sessions| == |s.sockets| && |s.used| == POOL
  }

  // ---------------------------------------------------------------- lookups

  /** First inactive slot from `i` on. */
  function FreeSlot(sessions: seq<Session>, i: nat): (k: nat)
    requires i <= |sessions|
    ensures i <= k <= |sessions|
    ensures k < |sessions| ==> !sessions[k].active
    ensures forall j | i <= j < k :: sessions[j].active
    decreases |sessions| - i
  {
    if i == |sessions| || !sessions[i].active then i else FreeSlot(sessions, i + 1)
  }

  /** First unused buffer from `i` on. */
  function FreeBuffer(used: seq<bool>, i: nat): (b: nat)
    requires i <= |used|
    ensures i <= b <= |used|
    ensures b < |used| ==> !used[b]
    ensures forall j | i <= j < b :: used[j]
    decreases |used| - i
  {
    if i == |used| || !used[i] then i else FreeBuffer(used, i + 1)
  }

  // ---------------------------------------------------------------- HTTP task

  datatype Event = Connect | FrameArrives(slot: nat) | SocketEnds(slot: nat)

  /** An idle HTTP task is told of a handshake, a text frame within its limits, or the end of
      a socket. */
  function Told(s: Server, e: Event): Server
    requires Shape(s)
  {
    match e
    case Connect => if s.permits == 0 then s else s.(permits := s.permits - 1, h := Granted)
    case FrameArrives(k) =>
      if k >= |s.sockets| || !s.sockets[k] || !s.sessions[k].active || s.sessions[k].closing then s
      else
        var b := FreeBuffer(s.used, 0);
        if b == POOL then s else s.(used := s.used[b := true], h := Holding(k, s.sessions[k].conn, b))
    case SocketEnds(k) =>
      if k >= |s.sockets| || !s.sockets[k] then s
      else if !s.sessions[k].active then s.(sockets := s.sockets[k := false])
      else
        s.(sockets := s.sockets[k := false], sessions := s.sessions[k := s.sessions[k].(closing := true)],
           h := Ending(k, s.sessions[k].conn))
  }

  /** The HTTP task goes on. Queueing never blocks: what does not fit is dropped, its buffer
      released; a CLOSE that does not fit is carried out on the spot. */
  function HandlerStep(s: Server, received: bool): Server
    requires Shape(s)
  {
    match s.h
    case Idle => s
    case Granted =>
      var k := FreeSlot(s.sessions, 0);
      if k == |s.sessions| then s.(permits := s.permits + 1, h := Idle)
      else
        var c := s.counter + 1;
        s.(counter := c, sessions := s.sessions[k := Session(true, c, false)], sockets := s.sockets[k := true],
            h := Opening(k, c))
    case Opening(k, c) => s.(queue := if |s.queue| < DEPTH then s.queue + [Open(k, c)] else s.queue, h := Idle)
    case Holding(k, c, b) =>
      if received && |s.queue| < DEPTH then s.(queue := s.queue + [Frame(k, c, b)], h := Idle)
      else if b < POOL then s.(used := s.used[b := false], h := Idle) else s
    case Ending(k, c) =>
      if |s.queue| < DEPTH then s.(queue := s.queue + [Close(k, c)], h := Idle) else s.(h := Cleaning(k, c))
    case Cleaning(k, c) =>
      if k >= |s.sessions| || !s.sessions[k].active then s.(h := Idle)
      else s.(sessions := s.sessions[k := Session(false, c, false)], h := Giving(c), inlined := true)
    case Giving(c) => s.(permits := s.permits + 1, returned := s.returned + [c], h := Idle)
  }

  // ---------------------------------------------------------------- worker

  function WorkerStep(s: Server): Server
    requires Shape(s)
  {
    match s.w
    case Waiting => if s.queue == [] then s else s.(queue := s.queue[1..], w := Took(s.queue[0]))
    case Took(d) =>
      var stale := d.slot >= |s.sessions| || !s.sessions[d.slot].active || s.sessions[d.slot].conn != d.conn;
      s.(w := Checked(d, stale), inlined := false)
    case Checked(d, stale) =>
      (match d
       case Open(k, c) =>
         if stale || k >= |s.sessions| then s.(w := Waiting)
         else s.(calls := s.calls + [Call(c, s.sessions[k].conn, s.inlined)], w := Waiting)
       case Frame(k, c, b) =>
         if stale || k >= |s.sessions| || s.sessions[k].closing then s.(w := Releasing(b))
         else s.(calls := s.calls + [Call(c, s.sessions[k].conn, s.inlined)], w := Releasing(b))
       case Close(k, c) => s.(w := if stale then Waiting else Clearing(k, c)))
    case Releasing(b) => s.(used := if b < POOL then s.used[b := false] else s.used, w := Waiting)
    case Clearing(k, c) =>
      if k >= |s.sessions| || !s.sessions[k].active then s.(w := Waiting)
      else s.(sessions := s.sessions[k := Session(false, c, false)], w := Returning(c))
    case Returning(c) => s.(permits := s.permits + 1, returned := s.returned + [c], w := Waiting)
  }

  datatype Step = Tell(e: Event) | Handle(received: bool) | Work

  function Next(s: Server, x: Step): Server
    requires Shape(s)
  {
    match x
    case Tell(e) => if s.h.Idle? then Told(s, e) else s
    case Handle(received) => HandlerStep(s, received)
    case Work => WorkerStep(s)
  }

  lemma NextShape(s: Server, x: Step)
    requires Shape(s)
    ensures Shape(Next(s, x)) && |Next(s, x).sessions| == |s.sessions|
  {
  }

  function Start(max: nat): (s: Server)
    ensures Shape(s)
  {
    Server(seq(max, _ => Session(false, 0, false)), max, [], seq(POOL, _ => false), 0, seq(max, _ => false),
           Idle, Waiting, [], [], false)
  }

  function Run(max: nat, steps: seq<Step>): (s: Server)
    ensures Shape(s) && |s.sessions| == max
  {
    if steps == [] then Start(max)
    else
      NextShape(Run(max, steps[..|steps| - 1]), steps[|steps| - 1]);
      Next(Run(max, steps[..|steps| - 1]), steps[|steps| - 1])
  }
}
