/** The ring of pressure samples: a fixed array that drops the oldest sample when full, read
    without draining it by sequence number. */
module PressureRing {
  import opened Bytes

  datatype Sample = Sample(seqNo: u32, timestamp: u32, pressure: u16, status: u16)

  // ---------------------------------------------------------------- what the ring stands for

  /** Sample number `k` of a history counts from 1. */
  predicate Numbered(all: seq<Sample>) {
    forall k | 0 <= k < |all| :: all[k].seqNo == Wrap32(k + 1)
  }

  /** The array index of sample `k` of the history; counting goes round. */
  function Slot(k: nat, capacity: nat): (i: nat)
    requires capacity > 0
    ensures i < capacity
  {
    k % capacity
  }

  function Kept(all: seq<Sample>, capacity: nat): nat {
    if |all| < capacity then |all| else capacity
  }

  /** Samples evicted so far; what is left starts at this index of the history. */
  function Evicted(all: seq<Sample>, capacity: nat): nat { |all| - Kept(all, capacity) }

  /** The retained samples with numbers above `since`, oldest first, at most `max`. */
  function Newer(all: seq<Sample>, capacity: nat, since: nat, max: nat): seq<Sample> {
    var lo := if since > Evicted(all, capacity) then since else Evicted(all, capacity);
    if lo >= |all| then [] else if |all| - lo < max then all[lo..] else all[lo..lo + max]
  }

  /** What a read returns: the newer samples; asked for those above the largest 32-bit
      number, everything retained, because the successor of that number is 0. */
  function Answer(all: seq<Sample>, capacity: nat, since: u32, max: nat): seq<Sample> {
    Newer(all, capacity, if since == TWO_32 - 1 then 0 else since, max)
  }

  /** Where an answer starts in the history, and how long it is. */
  function Start(all: seq<Sample>, capacity: nat, since: u32): nat {
    var next := if since == TWO_32 - 1 then 0 else since;
    if next > Evicted(all, capacity) then next else Evicted(all, capacity)
  }

  /** A read returns a contiguous piece of the history. */
  lemma AnswerAt(all: seq<Sample>, capacity: nat, since: u32, max: nat)
    ensures var lo := Start(all, capacity, since);
      Answer(all, capacity, since, max)
      == if lo >= |all| then [] else all[lo..lo + if |all| - lo < max then |all| - lo else max]
  {
  }

  // ---------------------------------------------------------------- the ring

  class Ring {
    const samples: array<Sample>
    const capacity: nat
    var head: nat
    var count: nat
    var nextSeq: u32
    var overwritten: u32
    var highWatermark: nat
    ghost var all: seq<Sample>

    /** Sample `k` of the history, if retained, lies at `k` modulo the capacity. */
    ghost predicate Valid()
      reads this, samples
    {
      && 0 < capacity == samples.Length
      && head == Slot(|all|, capacity) && count == Kept(all, capacity) == highWatermark
      && nextSeq == Wrap32(|all| + 1) && overwritten == Wrap32(Evicted(all, capacity))
      && Numbered(all)
      && forall k | Evicted(all, capacity) <= k < |all| :: samples[Slot(k, capacity)] == all[k]
    }

    constructor (storage: array<Sample>)
      requires storage.Length > 0
      ensures Valid() && all == [] && samples == storage && capacity == storage.Length
    {
      samples, capacity := storage, storage.Length;
      head, count, nextSeq, overwritten, highWatermark, all := 0, 0, 1, 0, 0, [];
    }

    method Push(pressure: u16, status: u16, timestamp: u32) returns (number: u32)
      requires Valid()
      modifies this, samples
      ensures Valid() && number == Wrap32(|old(all)| + 1)
      ensures all == old(all) + [Sample(number, timestamp, pressure, status)]
    {
      hide Slot, Wrap32;
      WrapAdd(|all| + 1, 1);
      WrapAdd(Evicted(all, capacity), 1);
      forall k: nat | |all| - capacity < k < |all|
        ensures Slot(k, capacity) != Slot(|all|, capacity)
      {
        SlotsDiffer(k, |all|, capacity);
      }
      number := nextSeq;
      nextSeq := Wrap32(nextSeq + 1);
      samples[head] := Sample(number, timestamp, pressure, status);
      NextSlot(|all|, capacity);
      head := Slot(head + 1, capacity);
      if count < capacity {
        count := count + 1;
        if count > highWatermark { highWatermark := count; }
      } else {
        overwritten := Wrap32(overwritten + 1);
      }
      all := all + [Sample(number, timestamp, pressure, status)];
    }

    /** Fewer than 2^32 - 1 samples have been pushed since boot. */
    method ReadSince(since: u32, out: array<Sample>, max: nat) returns (n: nat)
      requires Valid() && |all| + 1 < TWO_32 && max <= out.Length && out != samples
      modifies out
      ensures n <= max && out[..n] == Answer(all, capacity, since, max)
      ensures forall i | n <= i < out.Length :: out[i] == old(out[i])
    {
      hide Slot, Wrap32, Answer, Numbered;
      NoWrap(|all| + 1);
      NoWrap(since + 1);
      NoWrap(|all| + 1 - count);
      EvictedAll(all, capacity);
      AnswerAt(all, capacity, since, max);
      if max == 0 || count == 0 { return 0; }
      var first := Sub32(nextSeq, count);
      var from := if Wrap32(since + 1) > first then Wrap32(since + 1) else first;
      assert from == Start(all, capacity, since) + 1;
      if from >= nextSeq { return 0; }
      var avail := nextSeq - from;
      n := if avail < max then avail else max;
      Position(|all|, capacity, count, from - 1);
      CopyOut(from - 1, Slot(Slot(head + capacity - count, capacity) + (from - first), capacity), out, n);
    }

    /** Copies `n` retained samples from number `k` on, going round the array. */
    method CopyOut(ghost k: nat, start: nat, out: array<Sample>, n: nat)
      requires Valid() && Evicted(all, capacity) <= k && k + n <= |all| && start == Slot(k, capacity)
      requires n <= out.Length && out != samples
      modifies out
      ensures out[..n] == all[k..k + n] && forall j | n <= j < out.Length :: out[j] == old(out[j])
    {
      hide Slot, Wrap32, Numbered, Evicted, Kept;
      ghost var lo := Evicted(all, capacity);
      var idx, i := start, 0;
      while i < n
        invariant i <= n && idx == Slot(k + i, capacity)
        invariant forall j | 0 <= j < i :: out[j] == all[k + j]
        invariant forall j | i <= j < out.Length :: out[j] == old(out[j])
      {
        assert samples[Slot(k + i, capacity)] == all[k + i];
        out[i] := samples[idx];
        NextSlot(k + i, capacity);
        idx := Slot(idx + 1, capacity);
        i := i + 1;
      }
    }

    /** The number of the oldest retained sample; the next number if there is none. */
    function FirstSeq(): (r: u32)
      reads this, samples
      requires Valid()
      ensures r == Wrap32(Evicted(all, capacity) + 1)
    {
      WrapSub(|all| + 1, count);
      Sub32(nextSeq, count % TWO_32)
    }
  }

  lemma WrapSub(x: nat, y: nat)
    requires y <= x
    ensures Sub32(Wrap32(x), y % TWO_32) == Wrap32(x - y)
  {
  }

  lemma NoWrap(x: nat)
    ensures x < TWO_32 ==> Wrap32(x) == x
    ensures Wrap32(TWO_32) == 0
  {
  }

  lemma NextSlot(k: nat, capacity: nat)
    requires capacity > 0
    ensures Slot(Slot(k, capacity) + 1, capacity) == Slot(k + 1, capacity)
  {
    ModAdd(k, 1, capacity);
  }

  lemma ModAdd(x: nat, y: nat, m: nat)
    requires m > 0
    ensures Slot(Slot(x, m) + y, m) == Slot(x + y, m)
  {
    ModShift(x % m + y, x / m, m);
  }

  lemma ModShift(x: int, q: int, m: nat)
    requires m > 0
    ensures (x + q * m) % m == x % m
  {
    var a, b := (x + q * m) / m, x / m;
    assert (a - b - q) * m == x % m - (x + q * m) % m;
    assert a - b - q >= 1 ==> (a - b - q) * m >= m;
    assert a - b - q <= -1 ==> (a - b - q) * m + m <= 0;
  }

  /** Two samples less than a capacity apart never share a slot. */
  lemma SlotsDiffer(k: nat, n: nat, capacity: nat)
    requires capacity > 0 && n - capacity < k < n
    ensures Slot(k, capacity) != Slot(n, capacity)
  {
    var q := n / capacity - k / capacity;
    assert n - k == q * capacity + (n % capacity - k % capacity);
    assert q >= 1 ==> q * capacity >= capacity;
    assert q <= 0 ==> q * capacity <= 0;
  }

  /** Where the code looks for sample `k`. */
  lemma Position(n: nat, capacity: nat, count: nat, k: nat)
    requires 0 < capacity && count <= capacity && count <= n && n - count <= k
    ensures Slot(Slot(Slot(n, capacity) + capacity - count, capacity) + (k - (n - count)), capacity)
         == Slot(k, capacity)
  {
    hide Slot;
    ModAdd(n, capacity - count, capacity);
    OneRound(n - count, capacity);
    ModAdd(n - count, k - (n - count), capacity);
  }

  lemma OneRound(k: nat, capacity: nat)
    requires capacity > 0
    ensures Slot(k + capacity, capacity) == Slot(k, capacity)
  {
    ModShift(k, 1, capacity);
  }

  // ---------------------------------------------------------------- a polling client

  datatype Entry = Missed | Received(sample: Sample)

  /** A client that polls with the number of the last sample it has received, or 0: what it
      has concatenated, and for every number up to that one whether it came. */
  datatype Client = Client(got: seq<Sample>, log: seq<Entry>)

  datatype Act = Push(pressure: u16, status: u16, timestamp: u32) | Poll(max: nat)

  datatype World = World(all: seq<Sample>, client: Client)

  function Entries(s: seq<Sample>): seq<Entry> {
    seq(|s|, i requires 0 <= i < |s| => Received(s[i]))
  }

  /** The client numbers the gap before a batch from the first sample in it. */
  function Polled(w: World, capacity: nat, max: nat): World {
    var c := w.client;
    var batch := Newer(w.all, capacity, |c.log|, max);
    if batch == [] then w
    else
      var gap := batch[0].seqNo - 1 - |c.log|;
      w.(client := Client(c.got + batch, c.log + seq(if gap < 0 then 0 else gap, _ => Missed) + Entries(batch)))
  }

  function Next(w: World, capacity: nat, a: Act): World {
    match a
    case Push(p, s, t) => w.(all := w.all + [Sample(Wrap32(|w.all| + 1), t, p, s)])
    case Poll(max) => Polled(w, capacity, max)
  }

  function Run(capacity: nat, acts: seq<Act>): World {
    if acts == [] then World([], Client([], []))
    else Next(Run(capacity, acts[..|acts| - 1]), capacity, acts[|acts| - 1])
  }

  function Came(log: seq<Entry>): seq<Sample> {
    if log == [] then []
    else Came(log[..|log| - 1]) + if log[|log| - 1].Missed? then [] else [log[|log| - 1].sample]
  }

  /** What has come is what was pushed, unmodified, in order and once; what has not come had
      been evicted. */
  predicate Faithful(w: World, capacity: nat) {
    && Numbered(w.all) && |w.client.log| <= |w.all| && w.client.got == Came(w.client.log)
    && forall k | 0 <= k < |w.client.log| ::
         match w.client.log[k]
         case Missed => k < Evicted(w.all, capacity)
         case Received(s) => s == w.all[k]
  }

  lemma {:induction false} CameAppend(log: seq<Entry>, more: seq<Entry>)
    ensures Came(log + more) == Came(log) + Came(more)
  {
    if more == [] {
      assert log + more == log;
    } else {
      var k := |more| - 1;
      assert (log + more)[..|log| + k] == log + more[..k];
      CameAppend(log, more[..k]);
    }
  }

  lemma {:induction false} CameMissed(n: nat)
    ensures Came(seq(n, _ => Missed)) == []
  {
    if n > 0 {
      assert seq(n, _ => Missed)[..n - 1] == seq(n - 1, _ => Missed);
      CameMissed(n - 1);
    }
  }

  lemma {:induction false} CameEntries(s: seq<Sample>)
    ensures Came(Entries(s)) == s
  {
    if s != [] {
      var k := |s| - 1;
      assert Entries(s)[..k] == Entries(s[..k]);
      CameEntries(s[..k]);
      assert s[..k] + [s[k]] == s;
    }
  }

  /** Where the next batch starts in the history. */
  function From(w: World, capacity: nat): nat {
    if |w.client.log| > Evicted(w.all, capacity) then |w.client.log| else Evicted(w.all, capacity)
  }

  lemma PollParts(w: World, capacity: nat, max: nat)
    requires Numbered(w.all) && |w.all| + 1 < TWO_32
    ensures var lo, c := From(w, capacity), w.client;
      if lo >= |w.all| || max == 0 then Polled(w, capacity, max) == w
      else
        var batch := w.all[lo..lo + if |w.all| - lo < max then |w.all| - lo else max];
        Polled(w, capacity, max) == w.(client := Client(c.got + batch, c.log + seq(lo - |c.log|,
            _ => Missed) + Entries(batch)))
  {
    hide Entries;
    var lo := From(w, capacity);
    if lo < |w.all| && max > 0 {
      var batch := Newer(w.all, capacity, |w.client.log|, max);
      assert batch == w.all[lo..lo + if |w.all| - lo < max then |w.all| - lo else max];
      assert batch[0] == w.all[lo] && batch[0].seqNo == lo + 1;
    }
  }

  /** A poll adds the numbers it skips and the samples it brings: skipped are exactly those
      evicted since the last poll, and the batch follows without a gap. */
  lemma PollExact(w: World, capacity: nat, max: nat)
    requires Faithful(w, capacity) && capacity > 0 && |w.all| + 1 < TWO_32
    ensures var m, lost := Polled(w, capacity, max), Evicted(w.all, capacity);
      && Faithful(m, capacity) && m.all == w.all
      && (m == w || forall k | |w.client.log| <= k < |m.client.log| :: m.client.log[k].Missed? <==> k < lost)
      && (max > 0 && m == w ==> |w.client.log| == |w.all|)
  {
    hide Came, Polled, Evicted;
    PollParts(w, capacity, max);
    var c, lo := w.client, From(w, capacity);
    EvictedAll(w.all, capacity);
    if lo < |w.all| && max > 0 {
      var batch := w.all[lo..lo + if |w.all| - lo < max then |w.all| - lo else max];
      var gap: seq<Entry> := seq(lo - |c.log|, _ => Missed);
      CameAppend(c.log, gap);
      CameAppend(c.log + gap, Entries(batch));
      CameMissed(lo - |c.log|);
      CameEntries(batch);
      assert c.got + [] == c.got;
      assert |Polled(w, capacity, max).client.log| == lo + |batch|;
    }
  }

  lemma EvictedAll(all: seq<Sample>, capacity: nat)
    requires capacity > 0
    ensures Evicted(all, capacity) <= |all| && (all != [] ==> Evicted(all, capacity) < |all|)
  {
  }

  lemma PushExact(w: World, capacity: nat, a: Act)
    requires Faithful(w, capacity) && capacity > 0 && a.Push?
    ensures Faithful(Next(w, capacity, a), capacity)
  {
    hide Came, Wrap32;
  }

  lemma StartFaithful(capacity: nat)
    ensures Faithful(World([], Client([], [])), capacity)
  {
  }

  /** For every interleaving of fewer than 2^32 - 1 pushes with polls of any size. */
  lemma {:induction false} NothingLostSilently(capacity: nat, acts: seq<Act>)
    requires capacity > 0 && |acts| + 1 < TWO_32
    ensures var w := Run(capacity, acts); Faithful(w, capacity) && |w.all| <= |acts|
  {
    hide Faithful, Polled;
    StartFaithful(capacity);
    if acts != [] {
      var k := |acts| - 1;
      NothingLostSilently(capacity, acts[..k]);
      var w := Run(capacity, acts[..k]);
      if acts[k].Poll? {
        PollExact(w, capacity, acts[k].max);
      } else {
        PushExact(w, capacity, acts[k]);
      }
    }
  }
}
