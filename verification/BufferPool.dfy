/** The pool of frame buffers: a fixed table of flags. */
module BufferPool {
  import opened ServerSpec
  import opened ServerSafety

  class Pool {
    const used: array<bool>

    ghost predicate Valid() {
      used.Length == POOL
    }

    constructor ()
      ensures Valid() && fresh(used) && used[..] == seq(POOL, _ => false)
    {
      used := new bool[POOL](_ => false);
      new;
      assert used[..] == seq(POOL, _ => false);
    }

    /** Takes the first free buffer; none is left exactly when all are in use. */
    method Acquire() returns (b: nat)
      requires Valid()
      modifies used
      ensures b == FreeBuffer(old(used[..]), 0)
      ensures used[..] == if b < POOL then old(used[..])[b := true] else old(used[..])
      ensures b < POOL <==> exists i :: 0 <= i < POOL && !old(used[i])
    {
      b := 0;
      while b < POOL && used[b]
        invariant b <= POOL && FreeBuffer(used[..], 0) == FreeBuffer(used[..], b)
        invariant forall i | 0 <= i < b :: used[i]
      {
        b := b + 1;
      }
      if b < POOL {
        used[b] := true;
      }
    }

    method Release(b: nat)
      requires Valid() && b < POOL
      modifies used
      ensures used[..] == old(used[..])[b := false]
    {
      used[b] := false;
    }

    method InUse() returns (n: nat)
      requires Valid()
      ensures n == Tally(used[..], Is(true))
    {
      hide Is, Tally;
      n := 0;
      var i: nat := 0;
      assert used[0..] == used[..];
      while i < POOL
        invariant i <= POOL && n + Tally(used[i..], Is(true)) == Tally(used[..], Is(true))
      {
        TallyHead(used[i..]);
        assert used[i..][1..] == used[i + 1..];
        if used[i] { n := n + 1; }
        i := i + 1;
      }
      TallyNone();
      assert used[POOL..] == [];
    }
  }

  lemma TallyNone()
    ensures Tally([], Is(true)) == 0
  {
  }

  lemma TallyHead(u: seq<bool>)
    requires u != []
    ensures Tally(u, Is(true)) == One(u[0]) + Tally(u[1..], Is(true))
  {
  }

  /** A buffer handed out is not handed out again before it is released, and releasing it
      brings back exactly that one. */
  lemma AcquireRelease(u: seq<bool>)
    requires |u| == POOL && FreeBuffer(u, 0) < POOL
    ensures var b := FreeBuffer(u, 0);
      && FreeBuffer(u[b := true], 0) != b && u[b := true][b := false] == u
      && Tally(u[b := true], Is(true)) == Tally(u, Is(true)) + 1
  {
    var b := FreeBuffer(u, 0);
    TallyUpdate(u, b, true, Is(true));
    if FreeBuffer(u[b := true], 0) < POOL {
      assert !u[b := true][FreeBuffer(u[b := true], 0)];
    }
  }
}
