/** With three or more clients there is a run in which the protocol is called for a
    connection that did not produce the descriptor. */
module ServerRace {
  import opened ServerSpec
  import opened ServerSafety
  import opened ServerRuns

  lemma RunMore(max: nat, steps: seq<Step>, x: Step)
    ensures Shape(Run(max, steps)) && Run(max, steps + [x]) == Next(Run(max, steps), x)
  {
    assert (steps + [x])[..|steps|] == steps;
  }

  /** A run that reaches `s`. */
  ghost predicate Reached(max: nat, s: Server) {
    exists steps: seq<Step> :: Run(max, steps) == s
  }

  lemma StepReached(max: nat, s: Server, x: Step) returns (m: Server)
    requires Shape(s) && Reached(max, s)
    ensures m == Next(s, x) && Reached(max, m)
  {
    hide Run, Next;
    var steps: seq<Step> :| Run(max, steps) == s;
    RunMore(max, steps, x);
    m := Next(s, x);
    assert Run(max, steps + [x]) == m;
  }

  /** A client connects to slot `k`, and its OPEN is queued. */
  lemma Connects(max: nat, s: Server, k: nat) returns (m: Server)
    requires Shape(s) && Reached(max, s) && s.h.Idle? && s.permits > 0 && |s.queue| < DEPTH
    requires k < |s.sessions| && !s.sessions[k].active && forall j | 0 <= j < k :: s.sessions[j].active
    ensures Reached(max, m) && Shape(m)
    ensures var c := s.counter + 1;
      m == s.(permits := s.permits - 1, counter := c, sessions := s.sessions[k := Session(true, c, false)],
              sockets := s.sockets[k := true], queue := s.queue + [Open(k, c)])
  {
    hide Run, Reached;
    var a := StepReached(max, s, Tell(Connect));
    FirstFree(s.sessions, 0, k);
    var b := StepReached(max, a, Handle(true));
    m := StepReached(max, b, Handle(true));
  }

  lemma {:induction false} FirstFree(sessions: seq<Session>, i: nat, k: nat)
    requires i <= k < |sessions| && !sessions[k].active && forall j | i <= j < k :: sessions[j].active
    ensures FreeSlot(sessions, i) == k
    decreases k - i
  {
    if i < k {
      FirstFree(sessions, i + 1, k);
    }
  }

  /** A frame from slot `k` is received into buffer `b` and queued. */
  lemma Sends(max: nat, s: Server, k: nat, b: nat) returns (m: Server)
    requires Shape(s) && Reached(max, s) && s.h.Idle? && |s.queue| < DEPTH && b < POOL && FreeBuffer(s.used, 0) == b
    requires k < |s.sessions| && s.sockets[k] && s.sessions[k].active && !s.sessions[k].closing
    ensures Reached(max, m) && Shape(m)
    ensures m == s.(used := s.used[b := true], queue := s.queue + [Frame(k, s.sessions[k].conn, b)])
  {
    hide Run, Reached, FreeBuffer;
    var a := StepReached(max, s, Tell(FrameArrives(k)));
    m := StepReached(max, a, Handle(true));
  }

  /** The socket of slot `k` ends, and its CLOSE is queued. */
  lemma Ends(max: nat, s: Server, k: nat) returns (m: Server)
    requires Shape(s) && Reached(max, s) && s.h.Idle? && |s.queue| < DEPTH
    requires k < |s.sessions| && s.sockets[k] && s.sessions[k].active
    ensures Reached(max, m) && Shape(m)
    ensures m == s.(sockets := s.sockets[k := false], sessions := s.sessions[k := s.sessions[k].(closing := true)],
                    queue := s.queue + [Close(k, s.sessions[k].conn)])
  {
    hide Run, Reached;
    var a := StepReached(max, s, Tell(SocketEnds(k)));
    m := StepReached(max, a, Handle(true));
  }

  /** The worker takes the first descriptor and finds it is not stale. */
  lemma Takes(max: nat, s: Server) returns (m: Server)
    requires Shape(s) && Reached(max, s) && s.w.Waiting?
    requires s.queue != [] && Current(s, s.queue[0].slot, s.queue[0].conn)
    ensures Reached(max, m) && Shape(m)
    ensures m == s.(queue := s.queue[1..], w := Checked(s.queue[0], false), inlined := false)
  {
    hide Run, Reached;
    var a := StepReached(max, s, Work);
    m := StepReached(max, a, Work);
  }

  /** Once the worker has looked at the session table for a descriptor of slot 0, and the
      queue is full, the slot's socket ends and a new client connects: the protocol is called
      for the new connection. */
  lemma Misdelivers(max: nat, s: Server) returns (m: Server)
    requires Shape(s) && Reached(max, s) && s.h.Idle? && |s.queue| == DEPTH && |s.sessions| > 0
    requires s.w == Checked(Open(0, s.sessions[0].conn), false) && s.sockets[0] && s.sessions[0].active
    ensures Reached(max, m) && m.calls == s.calls + [Call(s.sessions[0].conn, s.counter + 1, true)]
  {
    hide Run, Reached;
    var a := StepReached(max, s, Tell(SocketEnds(0)));
    var b := StepReached(max, a, Handle(true));
    var c := StepReached(max, b, Handle(true));
    var d := StepReached(max, c, Handle(true));
    assert d.permits > 0 && !d.sessions[0].active && d.h.Idle?;
    var e := StepReached(max, d, Tell(Connect));
    FirstFree(e.sessions, 0, 0);
    var f := StepReached(max, e, Handle(true));
    m := StepReached(max, f, Work);
  }

  /** The queue is filled while the worker holds the OPEN of slot 0: two more clients, four
      frames, two closes. */
  lemma FillsQueue(max: nat) returns (s: Server)
    requires max >= 3
    ensures Reached(max, s) && Shape(s) && |s.sessions| == max && s.h.Idle? && |s.queue| == DEPTH
    ensures s.w == Checked(Open(0, 1), false) && s.sockets[0]
    ensures s.sessions[0] == Session(true, 1, false) && s.counter == 3
    ensures s.calls == []
  {
    hide Run, Reached, FreeBuffer;
    var s0 := Start(max);
    StartReached(max);
    var s1 := Connects(max, s0, 0);
    var s2 := Takes(max, s1);
    var s3 := Connects(max, s2, 1);
    var s4 := Connects(max, s3, 2);
    NextBuffer(0);
    NextBuffer(1);
    NextBuffer(2);
    NextBuffer(3);
    assert s4.used == Taken(0);
    var s5 := Sends(max, s4, 0, 0);
    assert s5.used == Taken(1);
    var s6 := Sends(max, s5, 0, 1);
    assert s6.used == Taken(2);
    var s7 := Sends(max, s6, 0, 2);
    assert s7.used == Taken(3);
    var s8 := Sends(max, s7, 0, 3);
    var s9 := Ends(max, s8, 1);
    s := Ends(max, s9, 2);
  }

  function Taken(n: nat): seq<bool> { [0 < n, 1 < n, 2 < n, 3 < n] }

  lemma NextBuffer(n: nat)
    requires n < POOL
    ensures FreeBuffer(Taken(n), 0) == n
  {
    assert FreeBuffer(Taken(n), 3) == if n <= 3 then 3 else 4;
    assert FreeBuffer(Taken(n), 2) == if n <= 2 then 2 else FreeBuffer(Taken(n), 3);
    assert FreeBuffer(Taken(n), 1) == if n <= 1 then 1 else FreeBuffer(Taken(n), 2);
  }

  lemma StartReached(max: nat)
    ensures Reached(max, Start(max))
  {
    assert Run(max, []) == Start(max);
  }

  /** In every run every descriptor reaches only the connection that produced it, if and only
      if the server is built for at most two clients. */
  lemma ExactlyUpToTwoClients(max: nat)
    ensures (forall s | Reached(max, s) :: Faithful(s)) <==> max <= 2
  {
    hide Run, Faithful;
    if max <= 2 {
      forall s | Reached(max, s)
        ensures Faithful(s)
      {
        var steps: seq<Step> :| Run(max, steps) == s;
        FaithfulUpToTwo(max, steps);
      }
    } else {
      var s := FillsQueue(max);
      var m := Misdelivers(max, s);
      NotFaithful(m);
    }
  }

  lemma NotFaithful(m: Server)
    requires m.calls == [Call(1, 4, true)]
    ensures !Faithful(m)
  {
    assert m.calls[0].from != m.calls[0].to;
  }
}
