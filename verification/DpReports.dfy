/** Full and on-change reports, and a receiver that keeps a mirror by applying them. */
module DpReports {
  import opened Bytes
  import opened Datapoints

  datatype Entry = Entry(k: nat, d: seq<u8>)

  /** Points a full report carries, and those an on-change report may carry: discrete ones
      and analog ones with a deadband. */
  predicate Reported(d: Desc) { d.persist == VOLATILE }

  predicate Eligible(d: Desc) {
    Reported(d) && (d.kind == BOOL || d.kind == ENUM || d.deadband > 0.0)
  }

  predicate Banded(d: Desc) { d.kind == F32 && d.deadband > 0.0 }

  function Abs(x: real): real { if x < 0.0 then -x else x }

  /** The value differs enough from the baseline to be reported. */
  predicate Moved(c: Codec, d: Desc, cur: seq<u8>, last: seq<u8>) {
    if Banded(d) then Abs(c.toReal(cur) - c.toReal(last)) >= d.deadband else cur != last
  }

  /** Entries of a full report for the first `n` points. */
  function Full(table: seq<Desc>, img: seq<u8>, n: nat): seq<Entry>
    requires TableOk(table, |img|) && n <= |table|
  {
    if n == 0 then []
    else Full(table, img, n - 1) + if Reported(table[n - 1]) then [Entry(n - 1, SlotOf(img, table[n - 1]))] else []
  }

  /** On-change report for the first `n` points: the entries, and the advanced baseline. */
  function Changes(table: seq<Desc>, c: Codec, img: seq<u8>, last: seq<u8>, n: nat): (r: (seq<Entry>, seq<u8>))
    requires TableOk(table, |img|) && |last| == |img| && n <= |table|
    ensures |r.1| == |img|
  {
    if n == 0 then ([], last)
    else
      var (out, base) := Changes(table, c, img, last, n - 1);
      var d := table[n - 1];
      var cur := SlotOf(img, d);
      if Eligible(d) && Moved(c, d, cur, SlotOf(base, d)) then (out + [Entry(n - 1, cur)], Patch(base, d.off, cur))
      else (out, base)
  }

  // ---------------------------------------------------------------- the receiver

  /** What the receiver knows of each point. */
  type View = seq<seq<u8>>

  function Applied(v: View, out: seq<Entry>): (w: View)
    ensures |w| == |v|
  {
    if out == [] then v
    else
      var w := Applied(v, out[..|out| - 1]);
      var e := out[|out| - 1];
      if e.k < |v| then w[e.k := e.d] else w
  }

  lemma {:induction false} AppliedMore(v: View, out: seq<Entry>, e: Entry)
    ensures Applied(v, out + [e]) == if e.k < |v| then Applied(v, out)[e.k := e.d] else Applied(v, out)
  {
    assert (out + [e])[..|out|] == out;
  }

  /** After a full report the receiver has every reported point as it is. */
  lemma {:induction false} FullSets(table: seq<Desc>, img: seq<u8>, v: View, n: nat, i: nat)
    requires TableOk(table, |img|) && |v| == |table| && n <= |table| && i < |table|
    ensures Applied(v, Full(table, img, n))[i] == if i < n && Reported(table[i]) then SlotOf(img, table[i]) else v[i]
  {
    hide SlotOf, Applied;
    SlotExists(table, img, i);
    if n > 0 {
      FullSets(table, img, v, n - 1, i);
      if Reported(table[n - 1]) {
        AppliedMore(v, Full(table, img, n - 1), Entry(n - 1, SlotOf(img, table[n - 1])));
      } else {
        assert Full(table, img, n - 1) + [] == Full(table, img, n - 1);
      }
    } else {
      AppliedNothing(v);
    }
  }

  /** The baseline is what the receiver has, for every point deltas are sent for. */
  predicate InStep(table: seq<Desc>, v: View, last: seq<u8>)
    requires TableOk(table, |last|)
  {
    |v| == |table| && forall i | 0 <= i < |table| && Eligible(table[i]) :: v[i] == SlotOf(last, table[i])
  }

  /** How close the receiver's value is to the current one. */
  predicate Close(c: Codec, d: Desc, cur: seq<u8>, seen: seq<u8>) {
    if Banded(d) then Abs(c.toReal(cur) - c.toReal(seen)) < d.deadband else cur == seen
  }

  predicate Faithful(table: seq<Desc>, c: Codec, img: seq<u8>, v: View)
    requires TableOk(table, |img|)
  {
    && |v| == |table|
    && forall i | 0 <= i < |table| && Eligible(table[i]) :: Close(c, table[i], SlotOf(img, table[i]), v[i])
  }

  /** The first `n` points are dealt with: receiver and baseline still agree, and for these
      points they are close to the current values. */
  lemma {:induction false} ChangesFollow(table: seq<Desc>, c: Codec, img: seq<u8>, last: seq<u8>, v: View, n: nat)
    requires TableOk(table, |img|) && |last| == |img| && n <= |table| && InStep(table, v, last)
    ensures var (out, base) := Changes(table, c, img, last, n); var w := Applied(v, out);
      && InStep(table, w, base)
      && (forall i | 0 <= i < n && Eligible(table[i]) :: Close(c, table[i], SlotOf(img, table[i]), w[i]))
  {
    hide Eligible, Moved, Close, Applied;
    if n > 0 {
      ChangesFollow(table, c, img, last, v, n - 1);
      OneChange(table, c, img, last, v, n);
    } else {
      AppliedNothing(v);
    }
  }

  lemma AppliedNothing(v: View)
    ensures Applied(v, []) == v
  {
  }

  lemma OneChange(table: seq<Desc>, c: Codec, img: seq<u8>, last: seq<u8>, v: View, n: nat)
    requires TableOk(table, |img|) && |last| == |img| && 0 < n <= |table| && |v| == |table|
    requires var (out, base) := Changes(table, c, img, last, n - 1); var w := Applied(v, out);
      && InStep(table, w, base)
      && (forall i | 0 <= i < n - 1 && Eligible(table[i]) :: Close(c, table[i], SlotOf(img, table[i]), w[i]))
    ensures var (out, base) := Changes(table, c, img, last, n); var w := Applied(v, out);
      && InStep(table, w, base)
      && (forall i | 0 <= i < n && Eligible(table[i]) :: Close(c, table[i], SlotOf(img, table[i]), w[i]))
  {
    hide TableOk, Applied, SlotOf, Close, Moved, Eligible;
    var (out, base) := Changes(table, c, img, last, n - 1);
    var k, d := n - 1, table[n - 1];
    SlotExists(table, img, k);
    SlotExists(table, base, k);
    var cur := SlotOf(img, d);
    CloseOrMoved(c, d, cur, SlotOf(base, d));
    if Eligible(d) && Moved(c, d, cur, SlotOf(base, d)) {
      AppliedMore(v, out, Entry(k, cur));
      SlotSize(table, img, k);
      PatchSlot(table, base, k, cur);
      CloseToItself(c, d, cur);
    }
  }

  lemma SlotExists(table: seq<Desc>, img: seq<u8>, k: nat)
    requires TableOk(table, |img|) && k < |table|
    ensures table[k].End() <= |img|
  {
  }

  lemma SlotSize(table: seq<Desc>, img: seq<u8>, k: nat)
    requires TableOk(table, |img|) && k < |table|
    ensures table[k].End() <= |img| && |SlotOf(img, table[k])| == Size(table[k].kind)
  {
  }

  lemma CloseOrMoved(c: Codec, d: Desc, cur: seq<u8>, last: seq<u8>)
    ensures Moved(c, d, cur, last) <==> !Close(c, d, cur, last)
  {
  }

  lemma CloseToItself(c: Codec, d: Desc, cur: seq<u8>)
    ensures Close(c, d, cur, cur)
  {
  }

  // ---------------------------------------------------------------- runs

  datatype Step = Update(img: seq<u8>) | FullReport | ChangeReport | LocalReport

  datatype Link = Link(img: seq<u8>, last: seq<u8>, view: View)

  /** The image changes at will; reports reach the receiver; a report to a local session
      does not. */
  function Next(table: seq<Desc>, c: Codec, l: Link, s: Step): Link
    requires TableOk(table, |l.img|) && |l.last| == |l.img|
  {
    match s
    case Update(img) => if |img| == |l.img| then l.(img := img) else l
    case FullReport => l.(last := l.img, view := Applied(l.view, Full(table, l.img, |table|)))
    case ChangeReport =>
      var (out, base) := Changes(table, c, l.img, l.last, |table|);
      l.(last := base, view := Applied(l.view, out))
    case LocalReport => l
  }

  function Run(table: seq<Desc>, c: Codec, l: Link, steps: seq<Step>): (m: Link)
    requires TableOk(table, |l.img|) && |l.last| == |l.img|
    ensures |m.img| == |l.img| && |m.last| == |m.img|
    decreases |steps|
  {
    if steps == [] then l else Next(table, c, Run(table, c, l, steps[..|steps| - 1]), steps[|steps| - 1])
  }

  lemma FullInStep(table: seq<Desc>, c: Codec, l: Link)
    requires TableOk(table, |l.img|) && |l.last| == |l.img| && |l.view| == |table|
    ensures var m := Next(table, c, l, FullReport); InStep(table, m.view, m.last) && Faithful(table, c, m.img, m.view)
  {
    hide TableOk, Full, Applied, Close, SlotOf;
    var m := Next(table, c, l, FullReport);
    forall i: nat | i < |table| && Eligible(table[i])
      ensures table[i].End() <= |l.img| && m.view[i] == SlotOf(l.img, table[i])
      ensures Close(c, table[i], SlotOf(l.img, table[i]), m.view[i])
    {
      SlotExists(table, l.img, i);
      FullSets(table, l.img, l.view, |table|, i);
      CloseToItself(c, table[i], SlotOf(l.img, table[i]));
    }
    FaithfulFrom(table, c, l.img, m.view);
  }

  lemma FaithfulFrom(table: seq<Desc>, c: Codec, img: seq<u8>, v: View)
    requires TableOk(table, |img|) && |v| == |table|
    requires forall i: nat | i < |table| && Eligible(table[i]) ::
      table[i].End() <= |img| && v[i] == SlotOf(img, table[i]) && Close(c, table[i], SlotOf(img, table[i]), v[i])
    ensures InStep(table, v, img) && Faithful(table, c, img, v)
  {
    hide Close, SlotOf, Eligible;
  }

  /** Once the receiver has had one full report, it agrees after every further report with
      each discrete point exactly, and with each point that has a deadband to less than it,
      however the image moves in between and whatever is reported to local sessions. */
  lemma {:induction false} MirrorFaithful(table: seq<Desc>, c: Codec, l: Link, steps: seq<Step>)
    requires TableOk(table, |l.img|) && |l.last| == |l.img| && InStep(table, l.view, l.last)
    ensures var m := Run(table, c, l, steps);
      && InStep(table, m.view, m.last)
      && (steps != [] && (steps[|steps| - 1].ChangeReport? || steps[|steps| - 1].FullReport?)
          ==> Faithful(table, c, m.img, m.view))
  {
    hide TableOk, Changes, Full, Applied, Close, SlotOf, Eligible;
    if steps != [] {
      var n := |steps| - 1;
      MirrorFaithful(table, c, l, steps[..n]);
      var k := Run(table, c, l, steps[..n]);
      match steps[n]
      case Update(_) =>
      case FullReport => FullInStep(table, c, k);
      case ChangeReport => ChangesFollow(table, c, k.img, k.last, k.view, |table|);
      case LocalReport =>
    }
  }

  lemma {:induction false} RunFrom(table: seq<Desc>, c: Codec, l: Link, s: Step, steps: seq<Step>)
    requires TableOk(table, |l.img|) && |l.last| == |l.img|
    ensures |Next(table, c, l, s).img| == |Next(table, c, l, s).last| == |l.img|
    ensures Run(table, c, l, [s] + steps) == Run(table, c, Next(table, c, l, s), steps)
    decreases |steps|
  {
    hide TableOk;
    if steps == [] {
      assert [s] + steps == [s] && [s][..0] == [];
      assert Run(table, c, l, []) == l;
    } else {
      var n := |steps| - 1;
      assert ([s] + steps)[..n + 1] == [s] + steps[..n];
      RunFrom(table, c, l, s, steps[..n]);
    }
  }

  /** ... so from any state of baseline and receiver, once one full report has come. */
  lemma MirrorFromFirstReport(table: seq<Desc>, c: Codec, l: Link, steps: seq<Step>)
    requires TableOk(table, |l.img|) && |l.last| == |l.img| && |l.view| == |table|
    ensures var m := Run(table, c, l, [FullReport] + steps);
      && InStep(table, m.view, m.last)
      && (steps == [] || steps[|steps| - 1].ChangeReport? || steps[|steps| - 1].FullReport?
          ==> Faithful(table, c, m.img, m.view))
  {
    hide TableOk, InStep, Faithful, Next, Run;
    FullInStep(table, c, l);
    RunFrom(table, c, l, FullReport, steps);
    MirrorFaithful(table, c, Next(table, c, l, FullReport), steps);
    RunNothing(table, c, Next(table, c, l, FullReport));
  }

  lemma RunNothing(table: seq<Desc>, c: Codec, l: Link)
    requires TableOk(table, |l.img|) && |l.last| == |l.img|
    ensures Run(table, c, l, []) == l
  {
  }

  // ---------------------------------------------------------------- spelled out

  /** The receiver's value of a point: exact for truth values and enumerations, less than the
      deadband away for F32 points that have one, exact for other points that have one. */
  predicate Mirrors(c: Codec, d: Desc, cur: seq<u8>, seen: seq<u8>) {
    d.persist == VOLATILE ==>
      && (d.kind in {BOOL, ENUM} ==> seen == cur)
      && (d.kind == F32 && d.deadband > 0.0 ==> -d.deadband < c.toReal(cur) - c.toReal(seen) < d.deadband)
      && (d.kind != F32 && d.deadband > 0.0 ==> seen == cur)
  }

  /** From the first full report on, after every report to the receiver, each point. */
  lemma MirrorShows(table: seq<Desc>, c: Codec, l: Link, steps: seq<Step>, i: nat)
    requires TableOk(table, |l.img|) && |l.last| == |l.img| && |l.view| == |table| && i < |table|
    requires steps == [] || steps[|steps| - 1].ChangeReport? || steps[|steps| - 1].FullReport?
    ensures var m := Run(table, c, l, [FullReport] + steps);
      && table[i].End() <= |m.img| && |m.view| == |table|
      && Mirrors(c, table[i], SlotOf(m.img, table[i]), m.view[i])
  {
    hide TableOk, Run, SlotOf;
    MirrorFromFirstReport(table, c, l, steps);
    SlotExists(table, l.img, i);
  }

  /** The point is worth reporting. */
  predicate Worth(c: Codec, d: Desc, cur: seq<u8>, last: seq<u8>) {
    && d.persist == VOLATILE && (d.kind in {BOOL, ENUM} || d.deadband > 0.0)
    && if d.kind != F32 then cur != last
       else c.toReal(cur) - c.toReal(last) >= d.deadband || c.toReal(last) - c.toReal(cur) >= d.deadband
  }

  /** Number of entries for point `i`. */
  function EntriesFor(out: seq<Entry>, i: nat): nat {
    if out == [] then 0 else EntriesFor(out[..|out| - 1], i) + if out[|out| - 1].k == i then 1 else 0
  }

  lemma EntriesStep(out: seq<Entry>, e: Entry, i: nat)
    ensures EntriesFor(out + [e], i) == EntriesFor(out, i) + if e.k == i then 1 else 0
    ensures EntriesFor([], i) == 0
  {
    assert (out + [e])[..|out|] == out;
  }

  /** An on-change report has one entry, with the current value, for each point that is
      worth it, and none for any other: nothing is sent needlessly. */
  lemma {:induction false} ChangesAreWorth(table: seq<Desc>, c: Codec, img: seq<u8>, last: seq<u8>, n: nat, i: nat)
    requires TableOk(table, |img|) && |last| == |img| && n <= |table| && i < |table|
    ensures table[i].End() <= |img|
    ensures var (out, base) := Changes(table, c, img, last, n);
      && EntriesFor(out, i)
         == (if i < n && Worth(c, table[i], SlotOf(img, table[i]), SlotOf(last, table[i])) then 1 else 0)
      && (i >= n ==> SlotOf(base, table[i]) == SlotOf(last, table[i]))
      && forall e <- out :: e.k < |table| && table[e.k].End() <= |img| && e.d == SlotOf(img, table[e.k])
  {
    hide TableOk, SlotOf, EntriesFor;
    SlotExists(table, img, i);
    EntriesStep([], Entry(0, []), i);
    if n > 0 {
      ChangesAreWorth(table, c, img, last, n - 1, i);
      ChangesAreWorth(table, c, img, last, n - 1, n - 1);
      var (out, base) := Changes(table, c, img, last, n - 1);
      var d := table[n - 1];
      SlotSize(table, img, n - 1);
      EntriesStep(out, Entry(n - 1, SlotOf(img, d)), i);
      PatchSlot(table, base, n - 1, SlotOf(img, d));
      WorthIsMoved(c, d, SlotOf(img, d), SlotOf(last, d));
    }
  }

  lemma WorthIsMoved(c: Codec, d: Desc, cur: seq<u8>, last: seq<u8>)
    ensures Worth(c, d, cur, last) <==> Eligible(d) && Moved(c, d, cur, last)
  {
  }
}
