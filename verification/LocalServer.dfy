/** The local server as it is kept: session table, permits, descriptor queue and buffers,
    updated step by step by its two tasks. */
module LocalServer {
  import opened ServerSpec
  import BufferPool

  class Tasks {
    const max: nat
    const sessions: array<Session>
    const sockets: array<bool>
    const pool: BufferPool.Pool
    var permits: nat
    var queue: seq<Desc>
    var counter: nat
    var h: Handler
    var w: Worker
    ghost var calls: seq<Call>
    ghost var returned: seq<nat>
    ghost var inlined: bool

    ghost predicate Valid() {
      sessions.Length == max == sockets.Length && pool.Valid() && pool.used != sockets
    }

    ghost function Model(): (s: Server)
      reads this, sessions, sockets, pool, pool.used
      requires Valid()
      ensures Shape(s)
    {
      Server(sessions[..], permits, queue, pool.used[..], counter, sockets[..], h, w, calls, returned, inlined)
    }

    constructor (max: nat)
      ensures Valid() && fresh(sessions) && fresh(sockets) && fresh(pool) && fresh(pool.used) && Model() == Start(max)
    {
      this.max := max;
      sessions := new Session[max](_ => Session(false, 0, false));
      sockets := new bool[max](_ => false);
      pool := new BufferPool.Pool();
      permits, queue, counter, h, w := max, [], 0, Idle, Waiting;
      calls, returned, inlined := [], [], false;
      new;
      assert sessions[..] == Start(max).sessions && sockets[..] == Start(max).sockets;
    }

    /** Queues a descriptor if there is room; never blocks. */
    method Enqueue(d: Desc) returns (ok: bool)
      requires Valid()
      modifies this`queue
      ensures ok == (old(|queue|) < DEPTH) && queue == if ok then old(queue) + [d] else old(queue)
    {
      if |queue| >= DEPTH { return false; }
      queue := queue + [d];
      return true;
    }

    method FirstFree() returns (k: nat)
      requires Valid()
      ensures k == FreeSlot(sessions[..], 0)
    {
      k := 0;
      while k < max && sessions[k].active
        invariant k <= max && FreeSlot(sessions[..], 0) == FreeSlot(sessions[..], k)
      {
        k := k + 1;
      }
    }

    // ---------------------------------------------------------------- HTTP task

    method OnHandshake()
      requires Valid() && h.Idle?
      modifies this`permits, this`h
      ensures Model() == Told(old(Model()), Connect)
    {
      if permits > 0 {
        permits, h := permits - 1, Granted;
      }
    }

    method OnTextFrame(k: nat)
      requires Valid() && h.Idle?
      modifies this`h, pool.used
      ensures Model() == Told(old(Model()), FrameArrives(k))
    {
      if k >= max || !sockets[k] || !sessions[k].active || sessions[k].closing { return; }
      var b := pool.Acquire();
      if b < POOL {
        h := Holding(k, sessions[k].conn, b);
      }
    }

    method OnSocketEnd(k: nat)
      requires Valid() && h.Idle?
      modifies this`h, sessions, sockets
      ensures Model() == Told(old(Model()), SocketEnds(k))
    {
      if k >= max || !sockets[k] { return; }
      sockets[k] := false;
      if sessions[k].active {
        sessions[k] := sessions[k].(closing := true);
        h := Ending(k, sessions[k].conn);
      }
    }

    method Handle(received: bool)
      requires Valid()
      modifies this, sessions, sockets, pool.used
      ensures Model() == HandlerStep(old(Model()), received)
    {
      hide FreeSlot;
      match h {
        case Idle =>
        case Granted => Activate();
        case Opening(k, c) =>
          var _ := Enqueue(Open(k, c));
          h := Idle;
        case Holding(k, c, b) => QueueFrame(k, c, b, received);
        case Ending(k, c) =>
          var ok := Enqueue(Close(k, c));
          h := if ok then Idle else Cleaning(k, c);
        case Cleaning(k, c) =>
          if k >= max || !sessions[k].active {
            h := Idle;
          } else {
            sessions[k] := Session(false, c, false);
            h, inlined := Giving(c), true;
          }
        case Giving(c) =>
          permits, h := permits + 1, Idle;
          returned := returned + [c];
      }
    }

    /** Under the session lock: the first free slot is taken for a new connection. */
    method Activate()
      requires Valid() && h.Granted?
      modifies this`permits, this`counter, this`h, sessions, sockets
      ensures forall received :: Model() == HandlerStep(old(Model()), received)
    {
      var k := FirstFree();
      if k == max {
        permits, h := permits + 1, Idle;
      } else {
        counter := counter + 1;
        sessions[k], sockets[k] := Session(true, counter, false), true;
        h := Opening(k, counter);
      }
    }

    method QueueFrame(k: nat, c: nat, b: nat, received: bool)
      requires Valid() && h == Holding(k, c, b)
      modifies this`queue, this`h, pool.used
      ensures Model() == HandlerStep(old(Model()), received)
    {
      var ok := false;
      if received {
        ok := Enqueue(Frame(k, c, b));
      }
      if ok {
        h := Idle;
      } else if b < POOL {
        pool.Release(b);
        h := Idle;
      }
    }

    // ---------------------------------------------------------------- worker

    method Work()
      requires Valid()
      modifies this, sessions, pool.used
      ensures Model() == WorkerStep(old(Model()))
    {
      match w {
        case Waiting =>
          if queue != [] {
            w := Took(queue[0]);
            queue := queue[1..];
          }
        case Took(d) =>
          w := Checked(d, d.slot >= max || !sessions[d.slot].active || sessions[d.slot].conn != d.conn);
          inlined := false;
        case Checked(d, stale) => Dispatch(d, stale);
        case Releasing(b) =>
          if b < POOL { pool.Release(b); }
          w := Waiting;
        case Clearing(k, c) =>
          if k >= max || !sessions[k].active {
            w := Waiting;
          } else {
            sessions[k] := Session(false, c, false);
            w := Returning(c);
          }
        case Returning(c) =>
          permits, w := permits + 1, Waiting;
          returned := returned + [c];
      }
    }

    method Dispatch(d: Desc, stale: bool)
      requires Valid() && w == Checked(d, stale)
      modifies this`w, this`calls
      ensures Model() == WorkerStep(old(Model()))
    {
      match d {
        case Open(k, c) =>
          if !stale && k < max { calls := calls + [Call(c, sessions[k].conn, inlined)]; }
          w := Waiting;
        case Frame(k, c, b) =>
          if !stale && k < max && !sessions[k].closing { calls := calls + [Call(c, sessions[k].conn, inlined)]; }
          w := Releasing(b);
        case Close(k, c) =>
          w := if stale then Waiting else Clearing(k, c);
      }
    }
  }
}
