/** What becomes of what a client sends: a frame in time reaches the protocol, in order, and
    its buffer comes back. */
module ServerDelivery {
  import opened ServerSpec

  function Works(s: Server, n: nat): (m: Server)
    requires Shape(s)
    ensures Shape(m)
    decreases n
  {
    if n == 0 then s else Works(WorkerStep(s), n - 1)
  }

  /** The descriptor means the connection that is in its slot. */
  predicate Current(s: Server, k: nat, c: nat) {
    k < |s.sessions| && s.sessions[k].active && s.sessions[k].conn == c
  }

  /** A text frame for an open session is queued with a buffer of its own, if one is free
      and the queue has room; else nothing is left of it. */
  lemma FrameQueued(s: Server, k: nat, received: bool)
    requires Shape(s) && s.h.Idle? && k < |s.sessions|
    ensures var m := HandlerStep(Told(s, FrameArrives(k)), received);
      if s.sockets[k] && s.sessions[k].active && !s.sessions[k].closing && received && |s.queue| < 8
         && exists b :: 0 <= b < 4 && !s.used[b]
      then exists b: nat :: b < 4 && !s.used[b]
             && m == s.(used := s.used[b := true], queue := s.queue + [Frame(k, s.sessions[k].conn, b)])
      else m == s
  {
    var b := FreeBuffer(s.used, 0);
    if b < POOL {
      assert s.used[b := true][b := false] == s.used;
    }
  }

  /** The worker takes descriptors in the order they were queued. */
  lemma TakenInOrder(s: Server)
    requires Shape(s) && s.w.Waiting? && s.queue != []
    ensures WorkerStep(s) == s.(queue := s.queue[1..], w := Took(s.queue[0]))
  {
  }

  /** The protocol is called for a frame exactly when its connection is still the one in the
      slot and not closing; either way its buffer is free afterwards. */
  lemma FrameHandled(s: Server, k: nat, c: nat, b: nat)
    requires Shape(s) && s.w == Took(Frame(k, c, b)) && b < POOL
    ensures Works(s, 3) == s.(
      calls := if Current(s, k, c) && !s.sessions[k].closing then s.calls + [Call(c, c, false)] else s.calls,
      used := s.used[b := false], w := Waiting, inlined := false)
  {
    var a := WorkerStep(s);
    var d := WorkerStep(a);
    assert Works(s, 3) == Works(a, 2) == Works(d, 1) == Works(WorkerStep(d), 0);
  }

  /** ... for an OPEN when it is still the one in the slot. */
  lemma OpenHandled(s: Server, k: nat, c: nat)
    requires Shape(s) && s.w == Took(Open(k, c))
    ensures Works(s, 2) == s.(
      calls := if Current(s, k, c) then s.calls + [Call(c, c, false)] else s.calls, w := Waiting, inlined := false)
  {
    var a := WorkerStep(s);
    assert Works(s, 2) == Works(a, 1) == Works(WorkerStep(a), 0);
  }

  /** A CLOSE for the connection in the slot ends its session and gives its permit back. */
  lemma CloseHandled(s: Server, k: nat, c: nat)
    requires Shape(s) && s.w == Took(Close(k, c)) && Current(s, k, c)
    ensures Works(s, 4) == s.(
      sessions := s.sessions[k := Session(false, c, false)], permits := s.permits + 1,
      returned := s.returned + [c], w := Waiting, inlined := false)
  {
    var a := WorkerStep(s);
    var d := WorkerStep(a);
    var e := WorkerStep(d);
    assert Works(s, 4) == Works(a, 3) == Works(d, 2) == Works(e, 1) == Works(WorkerStep(e), 0);
  }

  /** Frames of connections that are in their slots and not closing. */
  predicate AllTimely(s: Server, q: seq<Desc>) {
    forall i | 0 <= i < |q| ::
      q[i].Frame? && q[i].buf < POOL && Current(s, q[i].slot, q[i].conn) && !s.sessions[q[i].slot].closing
  }

  function CallsFor(q: seq<Desc>): seq<Call> {
    if q == [] then [] else [Call(q[0].conn, q[0].conn, false)] + CallsFor(q[1..])
  }

  lemma OneDelivered(s: Server)
    requires Shape(s) && s.w.Waiting? && s.queue != [] && AllTimely(s, s.queue)
    ensures var d := s.queue[0];
      Works(s, 4) == s.(queue := s.queue[1..], calls := s.calls + [Call(d.conn, d.conn, false)],
                        used := s.used[d.buf := false], inlined := false)
  {
    var d := s.queue[0];
    TakenInOrder(s);
    var a := WorkerStep(s);
    FrameHandled(a, d.slot, d.conn, d.buf);
    hide WorkerStep;
    assert Works(s, 4) == Works(a, 3);
  }

  /** Buffer `b` is free if it was, or if a queued frame held it. */
  predicate Freed(before: seq<bool>, q: seq<Desc>, after: seq<bool>) {
    && |before| == |after| == POOL
    && (forall b | 0 <= b < POOL && !before[b] :: !after[b])
    && (forall i | 0 <= i < |q| && q[i].Frame? && q[i].buf < POOL :: !after[q[i].buf])
  }

  /** While no session changes, the worker delivers all queued frames, in order, each to its
      own connection, and frees their buffers. */
  lemma {:induction false} QueueIsDelivered(s: Server)
    requires Shape(s) && s.w.Waiting? && AllTimely(s, s.queue)
    ensures var m := Works(s, 4 * |s.queue|);
      && m.calls == s.calls + CallsFor(s.queue) && m.queue == [] && m.w.Waiting? && m.sessions == s.sessions
      && Freed(s.used, s.queue, m.used)
    decreases |s.queue|
  {
    if s.queue != [] {
      hide Works, Freed;
      var d, n := s.queue[0], 4 * |s.queue|;
      OneDelivered(s);
      var e := Works(s, 4);
      WorksOn(s, 4, n - 4);
      QueueIsDelivered(e);
      assert s.calls + ([Call(d.conn, d.conn, false)] + CallsFor(s.queue[1..]))
          == s.calls + [Call(d.conn, d.conn, false)] + CallsFor(s.queue[1..]);
      FreedMore(s.used, s.queue, Works(s, n).used);
    } else {
      assert s.calls + [] == s.calls;
    }
  }

  lemma FreedMore(before: seq<bool>, q: seq<Desc>, after: seq<bool>)
    requires q != [] && q[0].Frame? && q[0].buf < POOL == |before| && Freed(before[q[0].buf := false], q[1..], after)
    ensures Freed(before, q, after)
  {
    assert forall i | 0 < i < |q| :: q[i] == q[1..][i - 1];
  }

  lemma {:induction false} WorksOn(s: Server, m: nat, n: nat)
    requires Shape(s)
    ensures Works(s, m + n) == Works(Works(s, m), n)
    decreases m
  {
    if m > 0 {
      assert Works(s, 1) == Works(WorkerStep(s), 0) == WorkerStep(s);
      WorksOn(WorkerStep(s), m - 1, n);
    }
  }
}
