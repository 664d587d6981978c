/** Whole runs of the local server: each connection's slot is returned exactly once; and
    exactly for which numbers of clients a descriptor reaches only the connection that
    produced it. */
module ServerRuns {
  import opened ServerSpec
  import opened ServerSafety

  // ---------------------------------------------------------------- exactly once

  /** Every connection so far is in a slot, or its permit is on its way back or has been
      returned, once; others never. */
  ghost predicate OnceOk(s: Server) {
    forall c: nat :: Fate(s, c) == One(1 <= c <= s.counter)
  }

  function Fate(s: Server, c: nat): nat {
    Tally(s.returned, Equal(c)) + Tally(s.sessions, ActiveWith(c)) + One(s.h == Giving(c)) + One(s.w == Returning(c))
  }

  lemma FateOfSession(sessions: seq<Session>, k: nat, x: Session, c: nat)
    requires k < |sessions|
    ensures Tally(sessions[k := x], ActiveWith(c)) + One(sessions[k].active && sessions[k].conn == c)
         == Tally(sessions, ActiveWith(c)) + One(x.active && x.conn == c)
  {
    TallyUpdate(sessions, k, x, ActiveWith(c));
  }

  lemma FateOfReturn(returned: seq<nat>, x: nat, c: nat)
    ensures Tally(returned + [x], Equal(c)) == Tally(returned, Equal(c)) + One(x == c)
  {
    TallyAppend(returned, x, Equal(c));
  }

  lemma FateKept(s: Server, x: Step, c: nat)
    requires Shape(s) && ClosingOk(s) && (s.h.Granted? ==> FreeSlot(s.sessions, 0) < |s.sessions|)
    ensures var m := Next(s, x);
      && Fate(m, c) == Fate(s, c) + One(m.counter == s.counter + 1 && c == m.counter)
      && s.counter <= m.counter <= s.counter + 1
  {
    hide Tally, ActiveWith, Equal, Closers;
    match x
    case Tell(e) =>
      if e.SocketEnds? && e.slot < |s.sessions| {
        FateOfSession(s.sessions, e.slot, s.sessions[e.slot].(closing := true), c);
      }
    case Handle(_) => FateHandled(s, c);
    case Work =>
      if s.w.Clearing? && s.w.slot < |s.sessions| {
        FateOfSession(s.sessions, s.w.slot, Session(false, s.w.conn, false), c);
      }
      if s.w.Returning? { FateOfReturn(s.returned, s.w.conn, c); }
  }

  lemma FateHandled(s: Server, c: nat)
    requires Shape(s) && ClosingOk(s) && (s.h.Granted? ==> FreeSlot(s.sessions, 0) < |s.sessions|)
    ensures forall received :: var m := HandlerStep(s, received);
      && Fate(m, c) == Fate(s, c) + One(m.counter == s.counter + 1 && c == m.counter)
      && s.counter <= m.counter <= s.counter + 1
  {
    hide Tally, ActiveWith, Equal, Closers, FreeSlot;
    var k := FreeSlot(s.sessions, 0);
    if s.h.Granted? {
      FateOfSession(s.sessions, k, Session(true, s.counter + 1, false), c);
    }
    if s.h.Cleaning? && s.h.slot < |s.sessions| {
      FateOfSession(s.sessions, s.h.slot, Session(false, s.h.conn, false), c);
    }
    if s.h.Giving? {
      FateOfReturn(s.returned, s.h.conn, c);
    }
  }

  // ---------------------------------------------------------------- generations

  /** A protocol call reaches the connection that produced the descriptor, unless the handler
      cleaned a slot up after the worker had looked at the session table. */
  predicate CallsOk(s: Server) {
    && (forall i | 0 <= i < |s.calls| :: !s.calls[i].inlined ==> s.calls[i].from == s.calls[i].to)
    && (s.w.Checked? && !s.w.stale && !s.inlined ==> Current(s, s.w.d.slot, s.w.d.conn))
  }

  lemma CallsKept(s: Server, x: Step)
    requires Shape(s) && CallsOk(s)
    ensures CallsOk(Next(s, x))
  {
  }

  // ---------------------------------------------------------------- every run

  ghost predicate Conserved(s: Server) {
    Shape(s) && PermitsOk(s) && BuffersOk(s) && ClosingOk(s) && OnceOk(s) && CallsOk(s)
  }

  lemma StepConserves(s: Server, x: Step)
    requires Conserved(s)
    ensures Conserved(Next(s, x))
  {
    hide Shape, PermitsOk, BuffersOk, ClosingOk, CallsOk, Fate, Told, HandlerStep, WorkerStep;
    NextShape(s, x);
    PermitsKept(s, x);
    CallsKept(s, x);
    if s.h.Granted? {
      GrantedFindsSlot(s);
    }
    forall c: nat
      ensures Fate(Next(s, x), c) == One(1 <= c <= Next(s, x).counter)
    {
      FateKept(s, x, c);
    }
    match x
    case Tell(e) => if s.h.Idle? { AcquireKept(s, e); ToldCloses(s, e); }
    case Handle(received) => HandlerBuffers(s, received); HandlerCloses(s, received);
    case Work => WorkerBuffers(s); WorkerCloses(s);
  }

  lemma StartConserved(max: nat)
    ensures Conserved(Start(max))
  {
    hide Tally, HeldBuffer;
    var s := Start(max);
    TallyAll(s.sessions, Active());
    TallyAll(s.used, Is(true));
    forall c: nat
      ensures Fate(s, c) == 0
    {
      TallyAll(s.sessions, ActiveWith(c));
      TallyAll(s.returned, Equal(c));
    }
    TallyAll(s.queue, IsFrame());
    forall b: nat
      ensures Tally(s.queue, FrameWith(b)) == 0 && Tally(s.queue, CloseOf(b)) == 0
    {
      TallyAll(s.queue, FrameWith(b));
      TallyAll(s.queue, CloseOf(b));
    }
    assert HeldBuffer(s.w) == POOL by { NobodyHolds(); }
  }

  lemma NobodyHolds()
    ensures HeldBuffer(Waiting) == POOL
  {
  }

  lemma {:induction false} RunConserves(max: nat, steps: seq<Step>)
    ensures Conserved(Run(max, steps))
  {
    hide Conserved, Next;
    if steps == [] {
      StartConserved(max);
    } else {
      RunConserves(max, steps[..|steps| - 1]);
      StepConserves(Run(max, steps[..|steps| - 1]), steps[|steps| - 1]);
    }
  }

  /** Conservation over every interleaving: the buffers in use are those of frames queued or
      held by a task; free permits, active sessions and permits on their way make up the
      maximum; a connection's permit is returned at most once, and has been returned once
      its slot is free and nobody has it on the way. */
  lemma ServerConserves(max: nat, steps: seq<Step>, c: nat)
    ensures var s := Run(max, steps);
      && Tally(s.used, Is(true)) == Tally(s.queue, IsFrame()) + One(s.h.Holding?) + One(HeldBuffer(s.w) < POOL)
      && s.permits + Tally(s.sessions, Active()) + One(s.h.Granted? || s.h.Giving?) + One(s.w.Returning?) == max
      && Tally(s.returned, Equal(c)) <= 1
      && (1 <= c <= s.counter && Tally(s.sessions, ActiveWith(c)) == 0 && s.h != Giving(c) && s.w != Returning(c)
          ==> Tally(s.returned, Equal(c)) == 1)
  {
    hide Tally, HeldBuffer, ClosingOk, CallsOk, Run;
    RunConserves(max, steps);
    assert Fate(Run(max, steps), c) <= 1;
  }

  // ---------------------------------------------------------------- up to two clients

  function OpenOf(k: nat): Desc -> bool { (d: Desc) => d.Open? && d.slot == k }

  /** The worker is about to give slot `k` back. */
  predicate Closing(s: Server, k: nat) {
    ((s.w.Took? || s.w.Checked?) && s.w.d.Close? && s.w.d.slot == k) || (s.w.Clearing? && s.w.slot == k)
  }

  /** At most one OPEN per slot, before its CLOSE, and only while the slot is active; the
      handler has never had to clean up itself. */
  predicate OpensOk(s: Server) {
    && !s.h.Cleaning? && !s.h.Giving? && !s.inlined
    && (forall k | 0 <= k < |s.sessions| ::
          Tally(s.queue, OpenOf(k)) + One(s.h.Opening? && s.h.slot == k) <= One(s.sessions[k].active && !Closing(s, k)))
    && (forall i | 0 <= i < |s.queue| :: s.queue[i].Open? ==> s.queue[i].slot < |s.sessions|)
    && (forall i, j | 0 <= i < j < |s.queue| ::
          s.queue[i].Close? && s.queue[j].Open? ==> s.queue[i].slot != s.queue[j].slot)
    && (s.h.Opening? ==> s.h.slot < |s.sockets| && s.sockets[s.h.slot])
  }

  /** With two slots a queue holds no more than its frames and one OPEN and CLOSE each. */
  lemma {:induction false} QueueSplit(q: seq<Desc>)
    requires forall i | 0 <= i < |q| :: q[i].Open? || q[i].Close? ==> q[i].slot < 2
    ensures |q| == Tally(q, IsFrame()) + Tally(q, OpenOf(0)) + Tally(q, OpenOf(1))
                 + Tally(q, CloseOf(0)) + Tally(q, CloseOf(1))
  {
    if q != [] {
      assert forall i | 0 <= i < |q| - 1 :: q[1..][i] == q[i + 1];
      QueueSplit(q[1..]);
    }
  }

  lemma {:induction false} NoneOf(q: seq<Desc>, k: nat)
    requires forall i | 0 <= i < |q| :: q[i].Open? || q[i].Close? ==> q[i].slot != k
    ensures Tally(q, OpenOf(k)) == 0 && Tally(q, CloseOf(k)) == 0
  {
    TallyAll(q, OpenOf(k));
    TallyAll(q, CloseOf(k));
  }

  /** With at most two clients a CLOSE always finds room. */
  lemma RoomForClose(s: Server)
    requires Shape(s) && BuffersOk(s) && ClosingOk(s) && OpensOk(s) && |s.sessions| <= 2 && s.h.Ending?
    ensures |s.queue| < DEPTH
  {
    hide Tally, OpenOf, CloseOf, HeldBuffer, IsFrame;
    forall i: nat | i < |s.queue| && s.queue[i].Close?
      ensures s.queue[i].slot < |s.sessions|
    {
      assert Current(s, s.queue[i].slot, s.queue[i].conn);
    }
    QueueSplit(s.queue);
    TallyAll(s.used, Is(true));
    assert Current(s, s.h.slot, s.h.conn);
    assert Closers(s, s.h.slot) == 1;
    assert Closers(s, 0) <= 1;
    if |s.sessions| == 2 {
      assert Closers(s, 1) <= 1;
    } else {
      NoneOf(s.queue, 1);
    }
  }

  lemma OpensTold(s: Server, e: Event)
    requires Shape(s) && ClosingOk(s) && OpensOk(s) && s.h.Idle?
    ensures OpensOk(Told(s, e))
  {
    hide Tally, OpenOf, FreeBuffer, Closers;
  }

  lemma OpensQueued(q: seq<Desc>, d: Desc, k: nat)
    ensures Tally(q + [d], OpenOf(k)) == Tally(q, OpenOf(k)) + One(d.Open? && d.slot == k)
  {
    TallyAppend(q, d, OpenOf(k));
  }

  lemma OpensDequeued(q: seq<Desc>, k: nat)
    requires q != []
    ensures Tally(q, OpenOf(k)) == Tally(q[1..], OpenOf(k)) + One(q[0].Open? && q[0].slot == k)
  {
  }

  lemma OpensEnqueued(s: Server, m: Server, d: Desc)
    requires Shape(s) && ClosingOk(s) && OpensOk(s) && m == s.(queue := s.queue + [d], h := Idle)
    requires if s.h.Opening? then d == Open(s.h.slot, s.h.conn) else !d.Open?
    ensures OpensOk(m)
  {
    hide Tally, OpenOf, CloseOf;
    forall k: nat
      ensures Tally(m.queue, OpenOf(k)) == Tally(s.queue, OpenOf(k)) + One(d.Open? && d.slot == k)
    {
      OpensQueued(s.queue, d, k);
    }
    if s.h.Opening? {
      var k := s.h.slot;
      assert Closers(s, k) <= 1;
      forall i: nat | i < |s.queue| && s.queue[i].Close?
        ensures s.queue[i].slot != k
      {
        QueuedCloseCounts(s.queue, i);
      }
    }
  }

  lemma OpensHandled(s: Server, received: bool)
    requires Shape(s) && ClosingOk(s) && OpensOk(s) && (s.h.Granted? ==> FreeSlot(s.sessions, 0) < |s.sessions|)
    requires s.h.Ending? ==> |s.queue| < DEPTH
    ensures OpensOk(HandlerStep(s, received))
  {
    hide Tally, OpenOf, CloseOf, FreeSlot, ClosingOk;
    var m := HandlerStep(s, received);
    match s.h
    case Opening(k, c) => if |s.queue| < DEPTH { OpensEnqueued(s, m, Open(k, c)); }
    case Holding(k, c, b) => if received && |s.queue| < DEPTH { OpensEnqueued(s, m, Frame(k, c, b)); }
    case Ending(k, c) => OpensEnqueued(s, m, Close(k, c));
    case Granted => OpensActivated(s, received);
    case _ =>
  }

  lemma OpensActivated(s: Server, received: bool)
    requires Shape(s) && ClosingOk(s) && OpensOk(s) && s.h.Granted? && FreeSlot(s.sessions, 0) < |s.sessions|
    ensures OpensOk(HandlerStep(s, received))
  {
    hide Tally, OpenOf, CloseOf, FreeSlot;
    var k := FreeSlot(s.sessions, 0);
    assert Closers(s, k) == 0;
    assert !Closing(s, k);
  }

  lemma OpensWorked(s: Server)
    requires Shape(s) && ClosingOk(s) && OpensOk(s)
    ensures OpensOk(WorkerStep(s))
  {
    hide Tally, OpenOf, CloseOf, Closers;
    if s.w.Waiting? {
      if s.queue != [] { OpensTaken(s); }
    }
  }

  lemma OpensTaken(s: Server)
    requires ClosingOk(s) && OpensOk(s) && s.w.Waiting? && s.queue != []
    ensures OpensOk(s.(queue := s.queue[1..], w := Took(s.queue[0])))
  {
    hide Tally, OpenOf, CloseOf;
    var d, q := s.queue[0], s.queue[1..];
    assert forall i | 0 <= i < |q| :: q[i] == s.queue[i + 1];
    forall k: nat
      ensures Tally(s.queue, OpenOf(k)) == Tally(q, OpenOf(k)) + One(d.Open? && d.slot == k)
    {
      OpensDequeued(s.queue, k);
    }
    if d.Close? {
      forall i: nat | i < |q| && q[i].Open?
        ensures q[i].slot != d.slot
      {
        assert s.queue[i + 1] == q[i];
      }
      NoOpens(q, d.slot);
      QueuedCloseCounts(s.queue, 0);
      assert Current(s, d.slot, d.conn) && Closers(s, d.slot) == 1;
    }
  }

  lemma NoOpens(q: seq<Desc>, k: nat)
    requires forall i: nat | i < |q| && q[i].Open? :: q[i].slot != k
    ensures Tally(q, OpenOf(k)) == 0
  {
    TallyAll(q, OpenOf(k));
  }

  lemma {:induction false} TwoClients(max: nat, steps: seq<Step>)
    requires max <= 2
    ensures Conserved(Run(max, steps)) && OpensOk(Run(max, steps))
  {
    hide Conserved, OpensOk, Told, HandlerStep, WorkerStep;
    RunConserves(max, steps);
    if steps == [] {
      StartOpens(max);
    } else {
      TwoClients(max, steps[..|steps| - 1]);
      OpensStep(Run(max, steps[..|steps| - 1]), steps[|steps| - 1]);
    }
  }

  lemma StartOpens(max: nat)
    ensures OpensOk(Start(max))
  {
  }

  lemma OpensStep(s: Server, x: Step)
    requires Conserved(s) && OpensOk(s) && |s.sessions| <= 2
    ensures OpensOk(Next(s, x))
  {
    hide Shape, PermitsOk, BuffersOk, ClosingOk, OnceOk, CallsOk, OpensOk, Told, HandlerStep, WorkerStep;
    match x
    case Tell(e) => if s.h.Idle? { OpensTold(s, e); }
    case Handle(received) =>
      if s.h.Granted? { GrantedFindsSlot(s); }
      if s.h.Ending? { RoomForClose(s); }
      OpensHandled(s, received);
    case Work => OpensWorked(s);
  }

  /** In a run in which the handler never cleans up, every call reaches its connection. */
  predicate Faithful(s: Server) {
    forall i | 0 <= i < |s.calls| :: s.calls[i].from == s.calls[i].to
  }

  lemma {:induction false} NeverInlined(max: nat, steps: seq<Step>)
    requires max <= 2
    ensures forall i | 0 <= i < |Run(max, steps).calls| :: !Run(max, steps).calls[i].inlined
  {
    hide Told, HandlerStep;
    if steps != [] {
      var s := Run(max, steps[..|steps| - 1]);
      NeverInlined(max, steps[..|steps| - 1]);
      NotInlinedNow(max, steps[..|steps| - 1]);
      CallsFromWorker(s, steps[|steps| - 1]);
    }
  }

  lemma NotInlinedNow(max: nat, steps: seq<Step>)
    requires max <= 2
    ensures !Run(max, steps).inlined
  {
    hide Run, Conserved;
    TwoClients(max, steps);
  }

  lemma CallsFromWorker(s: Server, x: Step)
    requires Shape(s)
    ensures var m := Next(s, x);
      || m.calls == s.calls
      || (|m.calls| == |s.calls| + 1 && m.calls[..|s.calls|] == s.calls && m.calls[|s.calls|].inlined == s.inlined)
  {
  }

  lemma FaithfulUpToTwo(max: nat, steps: seq<Step>)
    requires max <= 2
    ensures Faithful(Run(max, steps))
  {
    hide Run, OnceOk, BuffersOk, ClosingOk, PermitsOk;
    RunConserves(max, steps);
    NeverInlined(max, steps);
  }
}
