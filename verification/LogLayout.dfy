/** Where the records of the byte ring lie: the relation between the buffer, the
    ring's offsets and the chunks (serialised records) it holds. */
module LogLayout {
  import opened Bytes
  import opened LogRecord

  /** Chunks stored back to back. */
  function Concat(cs: seq<seq<u8>>): (s: seq<u8>)
    ensures |s| == Total(cs)
  {
    if cs == [] then [] else cs[0] + Concat(cs[1..])
  }

  function Total(cs: seq<seq<u8>>): nat {
    if cs == [] then 0 else |cs[0]| + Total(cs[1..])
  }

  predicate AllChunks(cs: seq<seq<u8>>) {
    forall i | 0 <= i < |cs| :: IsChunk(cs[i])
  }

  lemma {:induction false} ConcatSplit(xs: seq<seq<u8>>, ys: seq<seq<u8>>)
    ensures Concat(xs + ys) == Concat(xs) + Concat(ys)
    ensures Total(xs + ys) == Total(xs) + Total(ys)
  {
    if xs == [] {
      assert xs + ys == ys;
      assert [] + Concat(ys) == Concat(ys);
    } else {
      var all := xs + ys;
      ConcatSplit(xs[1..], ys);
      assert all[1..] == xs[1..] + ys && all[0] == xs[0];
      assert xs[0] + (Concat(xs[1..]) + Concat(ys)) == xs[0] + Concat(xs[1..]) + Concat(ys);
    }
  }

  lemma ConcatOne(c: seq<u8>)
    ensures Concat([c]) == c && Total([c]) == |c|
  {
  }

  lemma {:induction false} TotalBound(cs: seq<seq<u8>>)
    requires AllChunks(cs)
    ensures RECORD_MIN * |cs| <= Total(cs)
  {
    if cs != [] {
      TotalBound(cs[1..]);
    }
  }

  /** The window of chunk `i` in a run of chunks. */
  lemma ChunkWindow(cs: seq<seq<u8>>, i: nat)
    requires i < |cs|
    ensures Total(cs[..i + 1]) == Total(cs[..i]) + |cs[i]| <= Total(cs)
    ensures Concat(cs)[Total(cs[..i])..Total(cs[..i + 1])] == cs[i]
  {
    var pre, post := cs[..i], cs[i + 1..];
    assert cs == pre + ([cs[i]] + post);
    assert cs[..i + 1] == pre + [cs[i]];
    ConcatSplit(pre, [cs[i]] + post);
    ConcatSplit([cs[i]], post);
    ConcatSplit(pre, [cs[i]]);
    ConcatOne(cs[i]);
    SliceAfter(Concat(pre), cs[i] + Concat(post), 0, |cs[i]|);
  }

  /** The ring's offsets, with the chunks split at the buffer end: `front` starts at
      the tail, `back` starts at offset 0. `back` is empty while the layout is linear. */
  datatype Ring = Ring(capacity: nat, head: nat, tail: nat, used: int,
                       front: seq<seq<u8>>, back: seq<seq<u8>>)
  {
    function Chunks(): seq<seq<u8>> {
      front + back
    }

    function Count(): nat {
      |front| + |back|
    }

    /** End of the first run: the head, the wrap marker, or the buffer end. */
    function FrontEnd(): nat {
      tail + Total(front)
    }

    predicate Valid(mem: seq<u8>) {
      && 0 < capacity <= |mem|
      && AllChunks(front) && AllChunks(back)
      && if Count() == 0 then
           head == 0 && tail == 0 && used == 0
         else
           && tail < capacity && FrontEnd() <= capacity
           && mem[tail..FrontEnd()] == Concat(front)
           && if head > tail then Linear() else Wrapped(mem)
    }

    predicate Linear() {
      back == [] && head == FrontEnd() < capacity && used == head - tail
    }

    /** `head <= tail`: the free region is [head, tail). A gap left at the buffer
        end carries the marker 0; an exact fit leaves no gap. */
    predicate Wrapped(mem: seq<u8>)
      requires FrontEnd() <= capacity <= |mem|
    {
      && head == Total(back) <= tail
      && mem[..head] == Concat(back)
      && used == capacity - tail + head
      && (FrontEnd() < capacity ==> mem[FrontEnd()] == 0)
      && (back == [] ==> FrontEnd() == capacity)
    }

    /** Offset an iterator holds before it reads record `i`. A gap before record
        `i` is part of that position. */
    function StartOf(i: nat): nat
      requires i <= Count()
    {
      if i < |front| then tail + Total(front[..i])
      else if i == |front| && FrontEnd() < capacity then FrontEnd()
      else Total(back[..i - |front|])
    }

    /** Offset of record `i` itself: past the gap, if there is one before it. */
    function OffsetOf(i: nat): nat
      requires i <= Count()
    {
      if i == |front| then 0 else StartOf(i)
    }

    /** Contiguous room for `needed` bytes once the `e` oldest records are gone: behind
        the head, or (linear layout) at the start of the buffer. */
    predicate RoomAfter(e: nat, needed: nat)
      requires e <= Count()
    {
      if e == Count() then needed <= capacity
      else
        var t := StartOf(e);
        if head > t then head + needed <= capacity || needed <= t
        else head + needed <= t
    }
  }

  /** Chunk `c` is stored at offset `at`. */
  predicate StoredAt(mem: seq<u8>, at: nat, c: seq<u8>) {
    at + |c| <= |mem| && mem[at..at + |c|] == c
  }

  /** A reader that follows the offsets finds chunk `i`, and its end is where chunk
      `i + 1` starts. A gap is recognised by the marker, a chunk never looks like one. */
  lemma ChunkHere(g: Ring, mem: seq<u8>, i: nat)
    requires g.Valid(mem) && i < g.Count()
    ensures var c, at := g.Chunks()[i], g.OffsetOf(i);
      && IsChunk(c) && at + |c| <= g.capacity && StoredAt(mem, at, c)
      && (i + 1 < g.Count() ==> g.StartOf(i + 1) == if at + |c| == g.capacity then 0 else at + |c|)
    ensures g.StartOf(i) < g.capacity <= |mem|
    ensures if i == |g.front| && g.StartOf(i) != 0 then mem[g.StartOf(i)] == 0
            else g.OffsetOf(i) == g.StartOf(i)
  {
    if i < |g.front| {
      ChunkInFront(g, mem, i);
      FrontTail(g, i);
      assert g.front[..i + 1] == g.front || i + 1 < |g.front|;
    } else {
      ChunkInBack(g, mem, i - |g.front|);
    }
  }

  lemma ChunkInFront(g: Ring, mem: seq<u8>, i: nat)
    requires g.Valid(mem) && i < |g.front|
    ensures Total(g.front[..i + 1]) == Total(g.front[..i]) + |g.front[i]| <= Total(g.front)
    ensures StoredAt(mem, g.tail + Total(g.front[..i]), g.front[i])
  {
    hide Total, Concat;
    ChunkWindow(g.front, i);
    SliceOfSlice(mem, g.tail, g.FrontEnd(), Total(g.front[..i]), Total(g.front[..i + 1]));
  }

  lemma ChunkInBack(g: Ring, mem: seq<u8>, i: nat)
    requires g.Valid(mem) && i < |g.back|
    ensures Total(g.back[..i + 1]) == Total(g.back[..i]) + |g.back[i]| <= Total(g.back) == g.head
    ensures StoredAt(mem, Total(g.back[..i]), g.back[i])
  {
    hide Total, Concat;
    ChunkWindow(g.back, i);
    SliceOfSlice(mem, 0, g.head, Total(g.back[..i]), Total(g.back[..i + 1]));
    assert mem[..g.head] == mem[0..g.head];
  }

  /** Only the last chunk of a run can end where the run ends. */
  lemma FrontTail(g: Ring, i: nat)
    requires i < |g.front| && AllChunks(g.front)
    ensures i + 1 < |g.front| ==> Total(g.front[..i + 1]) < Total(g.front)
  {
    var pre, post := g.front[..i + 1], g.front[i + 1..];
    assert g.front == pre + post;
    ConcatSplit(pre, post);
    TotalBound(post);
  }

  /** The ring without its oldest chunk. A gap in front of it goes as well, and the
      chunks left at offset 0 become the first run once the tail wraps. */
  function Dropped(g: Ring): Ring
    requires g.Count() > 0
  {
    if g.Count() == 1 then
      Ring(g.capacity, 0, 0, 0, [], [])
    else if g.front == [] then
      g.(tail := |g.back[0]|, used := g.used - (g.capacity - g.tail) - |g.back[0]|, front := g.back[1..], back := [])
    else
      var c := g.front[0];
      if |g.front| == 1 && g.tail + |c| == g.capacity then
        g.(tail := 0, used := g.used - |c|, front := g.back, back := [])
      else
        g.(tail := g.tail + |c|, used := g.used - |c|, front := g.front[1..])
  }

  lemma DroppedIsValid(g: Ring, mem: seq<u8>)
    requires g.Valid(mem) && g.Count() > 0
    ensures Dropped(g).Valid(mem)
    ensures Dropped(g).Chunks() == g.Chunks()[1..] && Dropped(g).capacity == g.capacity
    ensures Dropped(g).Count() > 0 ==> Dropped(g).head == g.head
    ensures Dropped(g).used + RECORD_MIN <= g.used
  {
    if g.Count() == 1 {
      ChunkHere(g, mem, 0);
    } else if g.front == [] {
      DropFromBack(g, mem);
    } else {
      DropFromFront(g, mem);
    }
  }

  lemma DropFromBack(g: Ring, mem: seq<u8>)
    requires g.Valid(mem) && g.Count() > 1 && g.front == []
    ensures Dropped(g).Valid(mem) && Dropped(g).used + RECORD_MIN <= g.used
  {
    assert mem[..g.head] == mem[0..g.head];
    DropHead(g.back, mem, 0);
    TotalBound(g.back[1..]);
  }

  lemma DropFromFront(g: Ring, mem: seq<u8>)
    requires g.Valid(mem) && g.Count() > 1 && g.front != []
    ensures Dropped(g).Valid(mem) && Dropped(g).used + RECORD_MIN <= g.used
    ensures Dropped(g).Chunks() == g.Chunks()[1..]
  {
    DropHead(g.front, mem, g.tail);
    if |g.front| > 1 {
      DropAmongMany(g, mem);
    } else if g.FrontEnd() == g.capacity {
      DropBeforeWrap(g, mem);
    } else {
      assert g.Wrapped(mem);
      assert g.front[1..] == [];
    }
  }

  lemma DropAmongMany(g: Ring, mem: seq<u8>)
    requires g.Valid(mem) && |g.front| > 1 && IsChunk(g.front[0])
    requires AllChunks(g.front[1..]) && Total(g.front) == |g.front[0]| + Total(g.front[1..])
    requires mem[g.tail + |g.front[0]|..g.FrontEnd()] == Concat(g.front[1..])
    ensures Dropped(g).Valid(mem) && Dropped(g).used + RECORD_MIN <= g.used
  {
    TotalBound(g.front[1..]);
  }

  lemma DropBeforeWrap(g: Ring, mem: seq<u8>)
    requires g.Valid(mem) && |g.front| == 1 && g.Count() > 1 && g.FrontEnd() == g.capacity
    ensures Dropped(g).Valid(mem) && Dropped(g).used + RECORD_MIN <= g.used
  {
    ConcatOne(g.front[0]);
    assert g.front == [g.front[0]];
    TotalBound(g.back);
    assert mem[0..g.head] == mem[..g.head];
  }

  lemma DropHead(cs: seq<seq<u8>>, mem: seq<u8>, at: nat)
    requires cs != [] && AllChunks(cs)
    requires at + Total(cs) <= |mem| && mem[at..at + Total(cs)] == Concat(cs)
    ensures AllChunks(cs[1..]) && Total(cs) == |cs[0]| + Total(cs[1..])
    ensures mem[at + |cs[0]|..at + Total(cs)] == Concat(cs[1..])
  {
    SliceOfSlice(mem, at, at + Total(cs), |cs[0]|, Total(cs));
    SliceOf(cs[0], Concat(cs[1..]));
  }

  /** Dropping the oldest chunk moves no other chunk. */
  lemma DroppedKeepsStarts(g: Ring, mem: seq<u8>, i: nat)
    requires g.Valid(mem) && i + 1 < g.Count()
    ensures Dropped(g).Count() == g.Count() - 1
    ensures Dropped(g).StartOf(i) == g.StartOf(i + 1)
  {
    if g.front == [] {
      assert g.back[..i + 1][1..] == g.back[1..][..i];
    } else if i + 1 < |g.front| {
      assert g.front[..i + 1][1..] == g.front[1..][..i];
    } else {
      assert g.front[1..][..|g.front| - 1] == g.front[1..];
    }
  }

  /** The ring with chunk `c` appended where there is room for it. */
  function Placed(g: Ring, c: seq<u8>): Ring {
    var n := |c|;
    if g.Count() == 0 then
      Ring(g.capacity, if n == g.capacity then 0 else n, 0, n, [c], [])
    else if g.head <= g.tail then
      g.(head := g.head + n, used := g.used + n, back := g.back + [c])
    else if g.head + n <= g.capacity then
      g.(head := if g.head + n == g.capacity then 0 else g.head + n, used := g.used + n, front := g.front + [c])
    else
      g.(head := n, used := g.used + (g.capacity - g.head) + n, back := [c])
  }

  /** The bytes after placing `c`: behind the head, or at the start of the buffer
      with the gap marked. */
  function PlacedBytes(g: Ring, mem: seq<u8>, c: seq<u8>): seq<u8>
    requires g.Valid(mem) && IsChunk(c) && g.RoomAfter(0, |c|)
  {
    if g.Count() > 0 && g.head > g.tail && g.head + |c| > g.capacity then
      Patch(Patch(mem, g.head, [0]), 0, c)
    else
      Patch(mem, g.head, c)
  }

  lemma PlacedIsValid(g: Ring, mem: seq<u8>, c: seq<u8>)
    requires g.Valid(mem) && IsChunk(c) && g.RoomAfter(0, |c|)
    ensures Placed(g, c).Valid(PlacedBytes(g, mem, c))
    ensures Placed(g, c).capacity == g.capacity
    ensures Placed(g, c).Chunks() == g.Chunks() + [c]
  {
    ConcatOne(c);
    if g.Count() == 0 {
      PlaceFirst(g, mem, c);
    } else if g.head <= g.tail {
      TailIsStart(g);
      PlaceInside(g, mem, c);
    } else if g.head + |c| <= g.capacity {
      PlaceAtHead(g, mem, c);
    } else {
      TailIsStart(g);
      PlaceAtStart(g, mem, c);
    }
  }

  lemma TailIsStart(g: Ring)
    requires g.Count() > 0
    ensures g.front != [] ==> g.StartOf(0) == g.tail
    ensures g.front == [] ==> Total(g.front) == 0 && (g.tail < g.capacity ==> g.StartOf(0) == g.tail)
  {
  }

  lemma RunGrows(cs: seq<seq<u8>>, c: seq<u8>, mem: seq<u8>, at: nat)
    requires AllChunks(cs) && IsChunk(c)
    requires at + Total(cs) + |c| <= |mem| && mem[at..at + Total(cs)] == Concat(cs)
    ensures AllChunks(cs + [c]) && Total(cs + [c]) == Total(cs) + |c|
    ensures Patch(mem, at + Total(cs), c)[at..at + Total(cs) + |c|] == Concat(cs + [c])
  {
    var end := at + Total(cs);
    var mem' := Patch(mem, end, c);
    ConcatOne(c);
    ConcatSplit(cs, [c]);
    PatchFrame(mem, end, c, at, end);
    assert mem'[at..end + |c|] == mem'[at..end] + mem'[end..end + |c|];
  }

  lemma PlaceFirst(g: Ring, mem: seq<u8>, c: seq<u8>)
    requires g.Valid(mem) && IsChunk(c) && g.Count() == 0 && |c| <= g.capacity
    ensures Placed(g, c).Valid(Patch(mem, g.head, c))
  {
    ConcatOne(c);
  }

  lemma PlaceInside(g: Ring, mem: seq<u8>, c: seq<u8>)
    requires g.Valid(mem) && IsChunk(c) && g.Count() > 0 && g.head <= g.tail && g.head + |c| <= g.tail
    ensures Placed(g, c).Valid(Patch(mem, g.head, c))
  {
    var mem' := Patch(mem, g.head, c);
    assert mem[..g.head] == mem[0..g.head];
    RunGrows(g.back, c, mem, 0);
    assert mem'[..g.head + |c|] == mem'[0..g.head + |c|];
    PatchFrame(mem, g.head, c, g.tail, g.FrontEnd());
    if g.FrontEnd() < g.capacity {
      PatchFrame(mem, g.head, c, g.FrontEnd(), g.FrontEnd() + 1);
      assert mem'[g.FrontEnd()] == mem'[g.FrontEnd()..g.FrontEnd() + 1][0];
    }
  }

  lemma PlaceAtHead(g: Ring, mem: seq<u8>, c: seq<u8>)
    requires g.Valid(mem) && IsChunk(c) && g.Count() > 0 && g.tail < g.head && g.head + |c| <= g.capacity
    ensures Placed(g, c).Valid(Patch(mem, g.head, c))
  {
    RunGrows(g.front, c, mem, g.tail);
  }

  lemma PlaceAtStart(g: Ring, mem: seq<u8>, c: seq<u8>)
    requires g.Valid(mem) && IsChunk(c) && g.Count() > 0 && g.tail < g.head && |c| <= g.tail
    requires g.capacity < g.head + |c|
    ensures Placed(g, c).Valid(Patch(Patch(mem, g.head, [0]), 0, c))
  {
    assert g.Linear();
    var marked := Patch(mem, g.head, [0]);
    var mem' := Patch(marked, 0, c);
    PatchFrame(mem, g.head, [0], g.tail, g.head);
    PatchFrame(marked, 0, c, g.tail, g.head);
    PatchFrame(marked, 0, c, g.head, g.head + 1);
    assert mem'[g.head] == mem'[g.head..g.head + 1][0] == marked[g.head..g.head + 1][0] == 0;
    ConcatOne(c);
    assert mem'[..|c|] == mem'[0..|c|];
  }

  /** Records evicted before `needed` bytes fit: as long as there is no room, the
      oldest goes. */
  function Evictions(g: Ring, needed: nat): (e: nat)
    requires needed <= g.capacity
    ensures e <= g.Count()
    decreases g.Count()
  {
    if g.RoomAfter(0, needed) then 0 else 1 + Evictions(Dropped(g), needed)
  }

  /** The number of evictions is the least one after which there is room. */
  lemma {:induction false} EvictionsIsLeast(g: Ring, mem: seq<u8>, needed: nat)
    requires g.Valid(mem) && needed <= g.capacity
    ensures g.RoomAfter(Evictions(g, needed), needed)
    ensures forall k | 0 <= k < Evictions(g, needed) :: !g.RoomAfter(k, needed)
    decreases g.Count()
  {
    hide Ring.Valid;
    if !g.RoomAfter(0, needed) {
      var d := Dropped(g);
      DroppedIsValid(g, mem);
      EvictionsIsLeast(d, mem, needed);
      forall k | 0 <= k <= d.Count()
        ensures d.RoomAfter(k, needed) == g.RoomAfter(k + 1, needed)
      {
        if k < d.Count() {
          DroppedKeepsStarts(g, mem, k);
        }
      }
      forall k | 0 <= k < Evictions(g, needed) ensures !g.RoomAfter(k, needed) {
        if k > 0 {
          assert !d.RoomAfter(k - 1, needed);
        }
      }
    }
  }

  /** Number of minimal records it takes to cover `n` bytes. */
  function MinRecords(n: int): nat {
    if n <= 0 then 0 else (n + RECORD_MIN - 1) / RECORD_MIN
  }

  /** Once enough bytes are free and the layout is linear, evicting clears the start
      of the buffer. */
  lemma {:induction false} EvictionsLinear(g: Ring, mem: seq<u8>, needed: nat)
    requires g.Valid(mem) && needed <= g.capacity && g.head > g.tail
    ensures Evictions(g, needed) <= MinRecords(needed - g.tail)
    decreases g.Count()
  {
    hide Ring.Valid, Dropped, Ring.StartOf;
    if !g.RoomAfter(0, needed) {
      var d := Dropped(g);
      DroppedIsValid(g, mem);
      LinearDrop(g, mem);
      if d.Count() > 0 {
        EvictionsLinear(d, mem, needed);
      }
    }
  }

  lemma LinearDrop(g: Ring, mem: seq<u8>)
    requires g.Valid(mem) && g.head > g.tail
    ensures g.Count() > 0 && g.StartOf(0) == g.tail && Dropped(g).Count() == g.Count() - 1
    ensures Dropped(g).capacity == g.capacity
    ensures Dropped(g).Count() > 0 ==> Dropped(g).head > Dropped(g).tail >= g.tail + RECORD_MIN
  {
    assert g.Linear();
    DropHead(g.front, mem, g.tail);
    TotalBound(g.front[1..]);
  }

  /** Whatever the capacity and the layout, a push evicts no more than twice the
      number of minimal records that cover it. */
  lemma {:induction false} EvictionsBound(g: Ring, mem: seq<u8>, needed: nat)
    requires g.Valid(mem) && needed <= g.capacity
    ensures Evictions(g, needed) <= MinRecords(needed - (g.capacity - g.used)) + MinRecords(needed)
    ensures g.used <= g.capacity
    decreases g.Count()
  {
    hide Ring.Valid, Ring.RoomAfter, Dropped;
    UsedBound(g, mem, needed);
    if !g.RoomAfter(0, needed) {
      if needed <= g.capacity - g.used {
        FreeMeansLinear(g, mem, needed);
        EvictionsLinear(g, mem, needed);
      } else {
        DroppedIsValid(g, mem);
        EvictionsBound(Dropped(g), mem, needed);
      }
    }
  }

  lemma UsedBound(g: Ring, mem: seq<u8>, needed: nat)
    requires g.Valid(mem) && needed <= g.capacity
    ensures g.used <= g.capacity
    ensures !g.RoomAfter(0, needed) ==> g.Count() > 0
  {
  }

  lemma FreeMeansLinear(g: Ring, mem: seq<u8>, needed: nat)
    requires g.Valid(mem) && needed <= g.capacity - g.used && !g.RoomAfter(0, needed)
    ensures g.head > g.tail
  {
    if g.Count() > 0 {
      TailIsStart(g);
    }
  }
}
