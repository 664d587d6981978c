/** What every interleaving of the two tasks of the local server conserves: buffers, slot
    permits, connections. */
module ServerSafety {
  import opened ServerSpec

  // ---------------------------------------------------------------- counting

  function Tally<T>(q: seq<T>, p: T -> bool): nat {
    if q == [] then 0 else (if p(q[0]) then 1 else 0) + Tally(q[1..], p)
  }

  function One(b: bool): nat { if b then 1 else 0 }

  lemma {:induction false} TallyAppend<T>(q: seq<T>, x: T, p: T -> bool)
    ensures Tally(q + [x], p) == Tally(q, p) + One(p(x))
  {
    if q == [] {
      assert Tally([x], p) == One(p(x)) + Tally([x][1..], p);
    } else {
      assert (q + [x])[1..] == q[1..] + [x];
      TallyAppend(q[1..], x, p);
    }
  }

  lemma {:induction false} TallyUpdate<T>(q: seq<T>, i: nat, x: T, p: T -> bool)
    requires i < |q|
    ensures Tally(q[i := x], p) + One(p(q[i])) == Tally(q, p) + One(p(x))
  {
    if i > 0 {
      assert q[i := x][1..] == q[1..][i - 1 := x];
      TallyUpdate(q[1..], i - 1, x, p);
    } else {
      assert q[i := x][1..] == q[1..];
    }
  }

  lemma {:induction false} TallyHas<T>(q: seq<T>, i: nat, p: T -> bool)
    requires i < |q|
    ensures p(q[i]) ==> Tally(q, p) >= 1
  {
    if i > 0 {
      TallyHas(q[1..], i - 1, p);
    }
  }

  lemma {:induction false} TallyAll<T>(q: seq<T>, p: T -> bool)
    ensures Tally(q, p) <= |q|
    ensures (forall i | 0 <= i < |q| :: p(q[i])) <==> Tally(q, p) == |q|
    ensures (forall i | 0 <= i < |q| :: !p(q[i])) <==> Tally(q, p) == 0
  {
    if q != [] {
      TallyAll(q[1..], p);
      assert forall i | 0 < i < |q| :: q[i] == q[1..][i - 1];
      assert forall i | 0 <= i < |q| - 1 :: q[1..][i] == q[i + 1];
    }
  }

  function Active(): Session -> bool { (x: Session) => x.active }
  function ActiveWith(c: nat): Session -> bool { (x: Session) => x.active && x.conn == c }
  function Is(b: bool): bool -> bool { x => x == b }
  function Equal(c: nat): nat -> bool { x => x == c }
  function IsFrame(): Desc -> bool { (d: Desc) => d.Frame? }
  function FrameWith(b: nat): Desc -> bool { (d: Desc) => d.Frame? && d.buf == b }
  function CloseOf(k: nat): Desc -> bool { (d: Desc) => d.Close? && d.slot == k }

  // ---------------------------------------------------------------- permits

  /** Free permits, active sessions, and permits on their way make up the maximum. */
  predicate PermitsOk(s: Server) {
    s.permits + Tally(s.sessions, Active()) + One(s.h.Granted? || s.h.Giving?) + One(s.w.Returning?) == |s.sessions|
  }

  lemma PermitsKept(s: Server, x: Step)
    requires Shape(s) && PermitsOk(s)
    ensures PermitsOk(Next(s, x))
  {
    hide PermitsOk, Told, HandlerStep, WorkerStep;
    match x
    case Tell(e) => if s.h.Idle? { TellPermits(s, e); }
    case Handle(received) => HandlerPermits(s, received);
    case Work => WorkerPermits(s);
  }

  lemma TellPermits(s: Server, e: Event)
    requires Shape(s) && PermitsOk(s) && s.h.Idle?
    ensures PermitsOk(Told(s, e))
  {
    hide Tally;
    if e.SocketEnds? && e.slot < |s.sessions| {
      TallyUpdate(s.sessions, e.slot, s.sessions[e.slot].(closing := true), Active());
    }
  }

  lemma HandlerPermits(s: Server, received: bool)
    requires Shape(s) && PermitsOk(s)
    ensures PermitsOk(HandlerStep(s, received))
  {
    hide Tally;
    var k := FreeSlot(s.sessions, 0);
    if s.h.Granted? && k < |s.sessions| {
      TallyUpdate(s.sessions, k, Session(true, s.counter + 1, false), Active());
    }
    if s.h.Cleaning? && s.h.slot < |s.sessions| {
      TallyUpdate(s.sessions, s.h.slot, Session(false, s.h.conn, false), Active());
    }
  }

  lemma WorkerPermits(s: Server)
    requires Shape(s) && PermitsOk(s)
    ensures PermitsOk(WorkerStep(s))
  {
    hide Tally;
    if s.w.Clearing? && s.w.slot < |s.sessions| {
      TallyUpdate(s.sessions, s.w.slot, Session(false, s.w.conn, false), Active());
    }
  }

  /** A handler that was granted a permit always finds a free slot. */
  lemma GrantedFindsSlot(s: Server)
    requires Shape(s) && PermitsOk(s) && s.h.Granted?
    ensures FreeSlot(s.sessions, 0) < |s.sessions|
  {
    hide Tally;
    TallyAll(s.sessions, Active());
  }

  // ---------------------------------------------------------------- buffers

  function HeldBuffer(w: Worker): (b: nat)
    ensures b <= POOL
  {
    match w
    case Took(Frame(_, _, b)) => if b < POOL then b else POOL
    case Checked(Frame(_, _, b), _) => if b < POOL then b else POOL
    case Releasing(b) => if b < POOL then b else POOL
    case _ => POOL
  }

  function Holders(s: Server, b: nat): nat {
    Tally(s.queue, FrameWith(b)) + One(s.h.Holding? && s.h.buf == b) + One(HeldBuffer(s.w) == b)
  }

  /** Each buffer in use has exactly one holder: a queued descriptor, the handler or the
      worker; and there are as many in use as such descriptors. */
  predicate BuffersOk(s: Server) {
    && |s.used| == POOL
    && (forall b | 0 <= b < POOL :: Holders(s, b) == One(s.used[b]))
    && (forall i | 0 <= i < |s.queue| :: s.queue[i].Frame? ==> s.queue[i].buf < POOL)
    && (s.h.Holding? ==> s.h.buf < POOL)
    && (s.w.Took? && s.w.d.Frame? ==> s.w.d.buf < POOL) && (s.w.Checked? && s.w.d.Frame? ==> s.w.d.buf < POOL)
    && (s.w.Releasing? ==> s.w.buf < POOL)
    && Tally(s.used, Is(true)) == Tally(s.queue, IsFrame()) + One(s.h.Holding?) + One(HeldBuffer(s.w) < POOL)
  }

  lemma AcquireKept(s: Server, e: Event)
    requires Shape(s) && BuffersOk(s) && s.h.Idle?
    ensures BuffersOk(Told(s, e))
  {
    hide Tally, HeldBuffer, Is, FrameWith, IsFrame;
    var b := FreeBuffer(s.used, 0);
    if b < POOL {
      TallyUpdate(s.used, b, true, Is(true));
      IsApplied(true, false);
    }
  }

  lemma IsApplied(x: bool, y: bool)
    ensures Is(true)(x) == x && Is(true)(y) == y
  {
  }

  lemma QueuedFrames(q: seq<Desc>, d: Desc)
    ensures Tally(q + [d], IsFrame()) == Tally(q, IsFrame()) + One(d.Frame?)
    ensures forall b: nat :: Tally(q + [d], FrameWith(b)) == Tally(q, FrameWith(b)) + One(d.Frame? && d.buf == b)
  {
    hide Tally;
    TallyAppend(q, d, IsFrame());
    forall b: nat
      ensures Tally(q + [d], FrameWith(b)) == Tally(q, FrameWith(b)) + One(d.Frame? && d.buf == b)
    {
      TallyAppend(q, d, FrameWith(b));
    }
  }

  lemma DequeuedFrames(q: seq<Desc>)
    requires q != []
    ensures Tally(q, IsFrame()) == Tally(q[1..], IsFrame()) + One(q[0].Frame?)
    ensures forall b: nat :: Tally(q, FrameWith(b)) == Tally(q[1..], FrameWith(b)) + One(q[0].Frame? && q[0].buf == b)
  {
  }

  lemma HandlerBuffers(s: Server, received: bool)
    requires Shape(s) && BuffersOk(s)
    ensures BuffersOk(HandlerStep(s, received))
  {
    hide Tally, HeldBuffer, Is, FrameWith, IsFrame;
    match s.h
    case Opening(k, c) => QueuedFrames(s.queue, Open(k, c));
    case Holding(k, c, b) =>
      QueuedFrames(s.queue, Frame(k, c, b));
      ReleaseBuffer(s, b);
    case Ending(k, c) => QueuedFrames(s.queue, Close(k, c));
    case _ =>
  }

  lemma ReleaseBuffer(s: Server, b: nat)
    requires BuffersOk(s) && b < POOL
    requires (s.h.Holding? && s.h.buf == b) || HeldBuffer(s.w) == b
    ensures s.used[b] && Tally(s.used, Is(true)) == Tally(s.used[b := false], Is(true)) + 1
  {
    hide Tally, HeldBuffer, Is, FrameWith, IsFrame;
    assert Holders(s, b) == One(s.used[b]);
    TallyUpdate(s.used, b, false, Is(true));
    IsApplied(s.used[b], false);
  }

  lemma WorkerBuffers(s: Server)
    requires Shape(s) && BuffersOk(s)
    ensures BuffersOk(WorkerStep(s))
  {
    hide Tally, Is, FrameWith, IsFrame;
    match s.w
    case Waiting => if s.queue != [] { DequeuedFrames(s.queue); }
    case Releasing(b) => ReleaseBuffer(s, b);
    case _ =>
  }

  // ---------------------------------------------------------------- closing

  /** Who is going to give slot `k` back: an open socket, the handler, a queued CLOSE, the
      worker. */
  function Closers(s: Server, k: nat): nat
    requires k < |s.sockets|
  {
    One(s.sockets[k]) + One((s.h.Ending? || s.h.Cleaning?) && s.h.slot == k) + Tally(s.queue, CloseOf(k))
    + One(((s.w.Took? || s.w.Checked?) && s.w.d.Close? && s.w.d.slot == k) || (s.w.Clearing? && s.w.slot == k))
  }

  /** The connection meant is the one in the slot. */
  predicate Current(s: Server, k: nat, c: nat) {
    k < |s.sessions| && s.sessions[k].active && s.sessions[k].conn == c
  }

  /** Every active slot will be given back by exactly one party, no other slot by any, and
      whoever is about to do it means the connection in the slot. */
  predicate ClosingOk(s: Server) {
    && |s.sessions| == |s.sockets|
    && (forall k | 0 <= k < |s.sessions| :: Closers(s, k) == One(s.sessions[k].active))
    && (s.h.Ending? || s.h.Cleaning? ==> Current(s, s.h.slot, s.h.conn))
    && (forall i | 0 <= i < |s.queue| :: s.queue[i].Close? ==> Current(s, s.queue[i].slot, s.queue[i].conn))
    && ((s.w.Took? || s.w.Checked?) && s.w.d.Close? ==> Current(s, s.w.d.slot, s.w.d.conn))
    && (s.w.Checked? && s.w.d.Close? ==> !s.w.stale)
    && (s.w.Clearing? ==> Current(s, s.w.slot, s.w.conn))
  }

  lemma QueuedCloses(q: seq<Desc>, d: Desc, k: nat)
    ensures Tally(q + [d], CloseOf(k)) == Tally(q, CloseOf(k)) + One(d.Close? && d.slot == k)
  {
    TallyAppend(q, d, CloseOf(k));
  }

  lemma DequeuedCloses(q: seq<Desc>, k: nat)
    requires q != []
    ensures Tally(q, CloseOf(k)) == Tally(q[1..], CloseOf(k)) + One(q[0].Close? && q[0].slot == k)
  {
  }

  lemma QueuedCloseCounts(q: seq<Desc>, i: nat)
    requires i < |q| && q[i].Close?
    ensures Tally(q, CloseOf(q[i].slot)) >= 1
  {
    TallyHas(q, i, CloseOf(q[i].slot));
  }

  lemma ToldCloses(s: Server, e: Event)
    requires Shape(s) && ClosingOk(s) && s.h.Idle?
    ensures ClosingOk(Told(s, e))
  {
    hide Tally, CloseOf, FreeBuffer;
    if e.SocketEnds? && e.slot < |s.sockets| && s.sockets[e.slot] {
      assert Closers(s, e.slot) == One(s.sessions[e.slot].active);
    }
  }

  lemma HandlerCloses(s: Server, received: bool)
    requires Shape(s) && ClosingOk(s) && (s.h.Granted? ==> FreeSlot(s.sessions, 0) < |s.sessions|)
    ensures ClosingOk(HandlerStep(s, received))
  {
    hide Tally, CloseOf, Closers;
    match s.h
    case Granted => ActivateCloses(s, received);
    case Opening(k, c) => EnqueueCloses(s, received, Open(k, c));
    case Holding(k, c, b) => EnqueueCloses(s, received, Frame(k, c, b));
    case Ending(k, c) => EnqueueCloses(s, received, Close(k, c));
    case Cleaning(k, c) => CleaningCloses(s, received);
    case Giving(_) => SameClosers(s, HandlerStep(s, received));
    case Idle =>
  }

  lemma SameClosers(s: Server, m: Server)
    requires ClosingOk(s) && m.sessions == s.sessions && m.sockets == s.sockets && m.queue == s.queue && m.w == s.w
    requires !s.h.Ending? && !s.h.Cleaning? && !m.h.Ending? && !m.h.Cleaning?
    ensures ClosingOk(m)
  {
    hide Tally, CloseOf;
    assert forall k | 0 <= k < |s.sessions| :: Closers(m, k) == Closers(s, k);
  }

  lemma ActivateCloses(s: Server, received: bool)
    requires Shape(s) && ClosingOk(s) && s.h.Granted? && FreeSlot(s.sessions, 0) < |s.sessions|
    ensures ClosingOk(HandlerStep(s, received))
  {
    hide Tally, CloseOf, FreeSlot;
    var k := FreeSlot(s.sessions, 0);
    var m := HandlerStep(s, received);
    assert Closers(s, k) == 0;
    forall i: nat | i < |s.queue| && s.queue[i].Close?
      ensures s.queue[i].slot != k
    {
      assert Current(s, s.queue[i].slot, s.queue[i].conn);
    }
  }

  lemma EnqueueCloses(s: Server, received: bool, d: Desc)
    requires Shape(s) && ClosingOk(s)
    requires match s.h
      case Opening(k, c) => d == Open(k, c)
      case Holding(k, c, b) => d == Frame(k, c, b)
      case Ending(k, c) => d == Close(k, c)
      case _ => false
    ensures ClosingOk(HandlerStep(s, received))
  {
    hide Closers, Current;
    var m := HandlerStep(s, received);
    if m.queue == s.queue && !s.h.Ending? {
      SameClosers(s, m);
    } else if m.queue == s.queue {
      StillEnding(s, m);
    } else {
      Enqueued(s, m, d);
    }
  }

  lemma StillEnding(s: Server, m: Server)
    requires ClosingOk(s) && s.h.Ending? && m == s.(h := Cleaning(s.h.slot, s.h.conn))
    ensures ClosingOk(m)
  {
    hide Tally, CloseOf;
    assert forall k | 0 <= k < |s.sessions| :: Closers(m, k) == Closers(s, k);
  }

  lemma Enqueued(s: Server, m: Server, d: Desc)
    requires ClosingOk(s) && m == s.(queue := s.queue + [d], h := Idle)
    requires if s.h.Ending? then d == Close(s.h.slot, s.h.conn) else !d.Close? && !s.h.Cleaning?
    ensures ClosingOk(m)
  {
    hide Tally, CloseOf;
    forall k: nat | k < |s.sessions|
      ensures Closers(m, k) == Closers(s, k)
    {
      QueuedCloses(s.queue, d, k);
    }
    hide Closers;
    assert forall i | 0 <= i < |s.queue| :: m.queue[i] == s.queue[i];
  }

  lemma CleaningCloses(s: Server, received: bool)
    requires Shape(s) && ClosingOk(s) && s.h.Cleaning?
    ensures ClosingOk(HandlerStep(s, received))
  {
    hide Tally, CloseOf;
    assert Closers(s, s.h.slot) == 1;
    forall i: nat | i < |s.queue| && s.queue[i].Close?
      ensures s.queue[i].slot != s.h.slot
    {
      QueuedCloseCounts(s.queue, i);
    }
  }

  lemma WorkerCloses(s: Server)
    requires Shape(s) && ClosingOk(s)
    ensures ClosingOk(WorkerStep(s))
  {
    hide Closers, Current;
    match s.w
    case Waiting => if s.queue != [] { Dequeued(s); }
    case Took(d) => LookedUp(s);
    case Checked(d, stale) => Dispatched(s);
    case Clearing(k, c) => Cleared(s);
    case _ => WorkerIdles(s, WorkerStep(s));
  }

  lemma Dequeued(s: Server)
    requires ClosingOk(s) && s.w.Waiting? && s.queue != []
    ensures ClosingOk(s.(queue := s.queue[1..], w := Took(s.queue[0])))
  {
    hide Tally, CloseOf;
    var m := s.(queue := s.queue[1..], w := Took(s.queue[0]));
    forall k: nat | k < |s.sessions|
      ensures Closers(m, k) == Closers(s, k)
    {
      DequeuedCloses(s.queue, k);
    }
    hide Closers;
    assert forall i | 0 <= i < |m.queue| :: m.queue[i] == s.queue[i + 1];
  }

  lemma LookedUp(s: Server)
    requires Shape(s) && ClosingOk(s) && s.w.Took?
    ensures ClosingOk(WorkerStep(s))
  {
    hide Tally, CloseOf;
    assert forall k | 0 <= k < |s.sessions| :: Closers(WorkerStep(s), k) == Closers(s, k);
  }

  lemma Dispatched(s: Server)
    requires Shape(s) && ClosingOk(s) && s.w.Checked?
    ensures ClosingOk(WorkerStep(s))
  {
    hide Tally, CloseOf, WorkerStep;
    DispatchedParts(s);
    assert forall k | 0 <= k < |s.sessions| :: Closers(WorkerStep(s), k) == Closers(s, k);
  }

  lemma DispatchedParts(s: Server)
    requires Shape(s) && s.w.Checked?
    ensures var m := WorkerStep(s);
      && m.sessions == s.sessions && m.sockets == s.sockets && m.queue == s.queue && m.h == s.h
      && !m.w.Took? && !m.w.Checked? && (m.w.Clearing? <==> s.w.d.Close? && !s.w.stale)
      && (m.w.Clearing? ==> m.w.slot == s.w.d.slot && m.w.conn == s.w.d.conn)
  {
  }

  lemma WorkerIdles(s: Server, m: Server)
    requires ClosingOk(s) && m.sessions == s.sessions && m.sockets == s.sockets && m.queue == s.queue && m.h == s.h
    requires (s.w.Releasing? || s.w.Returning?) && m.w.Waiting?
    ensures ClosingOk(m)
  {
    hide Tally, CloseOf;
    assert forall k | 0 <= k < |s.sessions| :: Closers(m, k) == Closers(s, k);
  }

  lemma Cleared(s: Server)
    requires Shape(s) && ClosingOk(s) && s.w.Clearing?
    ensures ClosingOk(WorkerStep(s))
  {
    hide Tally, CloseOf;
    assert Closers(s, s.w.slot) == 1;
    forall i: nat | i < |s.queue| && s.queue[i].Close?
      ensures s.queue[i].slot != s.w.slot
    {
      QueuedCloseCounts(s.queue, i);
    }
  }
}
