/** The store with several writers: a batch is validated and committed under one lock hold,
    measurements are updated without the lock at any moment, also between two slots of a
    commit. */
module DpConcurrent {
  import opened Bytes
  import opened Datapoints
  import opened DpReports
  import DpMeaning

  /** The transaction of the writer that holds the lock: its batch, its private copy, how
      many items it has committed. */
  datatype Txn = Unlocked | Committing(batch: seq<Item>, tmp: seq<u8>, n: nat)

  datatype Shared = Shared(table: seq<Desc>, f: Fields, c: Codec, img: seq<u8>, txn: Txn)

  datatype Step =
    | Begin(batch: seq<Item>)
    | CommitSlot
    | Unlock
    | Measure(k: nat, d: seq<u8>)

  ghost predicate Shape(s: Shared) {
    && TableOk(s.table, |s.img|) && FieldsOk(s.table, s.f) && CodecOk(s.c)
    && (s.txn.Committing? ==> |s.txn.tmp| == |s.img| && s.txn.n <= |s.txn.batch|)
  }

  /** The batch can be written: every item parses and the result meets the constraints. */
  predicate Valid(s: Shared, batch: seq<Item>)
    requires TableOk(s.table, |s.img|) && FieldsOk(s.table, s.f)
  {
    Errors(s.table, s.c, batch) == [] && Constraints(s.table, s.f, s.c, Staged(s.table, s.c, batch, s.img)).Fine?
  }

  /** A writer gets the lock, stages and validates: a rejected batch releases it at once. A
      measurement is updated by its owner: never a point the constraints speak about. */
  ghost function Next(s: Shared, x: Step): (m: Shared)
    requires Shape(s)
    ensures Shape(m) && m.table == s.table && m.f == s.f && m.c == s.c && |m.img| == |s.img|
  {
    match x
    case Begin(batch) =>
      if s.txn.Unlocked? && Valid(s, batch) then
        s.(txn := Committing(batch, Staged(s.table, s.c, batch, s.img), 0))
      else s
    case CommitSlot =>
      if s.txn.Committing? && s.txn.n < |s.txn.batch| then
        s.(img := CommittedOne(s.table, s.txn.batch[s.txn.n], s.txn.tmp, s.img), txn := s.txn.(n := s.txn.n + 1))
      else s
    case Unlock => if s.txn.Committing? && s.txn.n == |s.txn.batch| then s.(txn := Unlocked) else s
    case Measure(k, d) =>
      if k < |s.table| && !s.f.Has(k) && |d| == Size(s.table[k].kind) then
        s.(img := Patch(s.img, s.table[k].off, d))
      else s
  }

  ghost function Run(s: Shared, steps: seq<Step>): (m: Shared)
    requires Shape(s)
    ensures Shape(m) && m.table == s.table && m.f == s.f && m.c == s.c && |m.img| == |s.img|
    decreases |steps|
  {
    if steps == [] then s else Next(Run(s, steps[..|steps| - 1]), steps[|steps| - 1])
  }

  // ---------------------------------------------------------------- constraints

  /** While a commit is under way, the copy meets the constraints, and each point they speak
      about already has the copy's value, or will get it, or has not changed. */
  ghost predicate Sound(s: Shared) {
    && Shape(s)
    && match s.txn
       case Unlocked => Constraints(s.table, s.f, s.c, s.img).Fine?
       case Committing(batch, tmp, n) =>
         && Constraints(s.table, s.f, s.c, tmp).Fine?
         && forall i | 0 <= i < |s.table| && s.f.Has(i) :: Settled(s, batch, tmp, n, i)
  }

  predicate Settled(s: Shared, batch: seq<Item>, tmp: seq<u8>, n: nat, i: nat)
    requires TableOk(s.table, |s.img|) && |tmp| == |s.img| && n <= |batch| && i < |s.table|
  {
    SlotOf(s.img, s.table[i]) == SlotOf(tmp, s.table[i])
    || (s.table[i].access == RW && Names(s.table, batch, |batch|, i) && !Names(s.table, batch, n, i))
  }

  lemma BeginSound(s: Shared, batch: seq<Item>)
    requires Sound(s) && s.txn.Unlocked?
    ensures Sound(Next(s, Begin(batch)))
  {
    hide TableOk, Constraints, Staged, SlotOf, Names, Written, Errors, FieldsOk;
    if Valid(s, batch) {
      var m := Next(s, Begin(batch));
      forall i: nat | i < |s.table| && s.f.Has(i)
        ensures Settled(m, batch, m.txn.tmp, 0, i)
      {
        SlotExists(s.table, s.img, i);
        StagedSlot(s.table, s.c, batch, s.img, i);
        WrittenIsNamed(s.table, s.c, batch, i);
        NamedByNone(s.table, batch, i);
      }
    }
  }

  lemma NamedByNone(table: seq<Desc>, batch: seq<Item>, i: nat)
    ensures !Names(table, batch, 0, i)
  {
  }

  lemma CommitSound(s: Shared)
    requires Sound(s)
    ensures Sound(Next(s, CommitSlot))
  {
    hide TableOk, Constraints, SlotOf, Names, CommittedOne, FieldsOk;
    if s.txn.Committing? && s.txn.n < |s.txn.batch| {
      var m := Next(s, CommitSlot);
      var batch, tmp, n := s.txn.batch, s.txn.tmp, s.txn.n;
      forall i: nat | i < |s.table| && s.f.Has(i)
        ensures Settled(m, batch, tmp, n + 1, i)
      {
        SlotExists(s.table, s.img, i);
        SlotExists(s.table, tmp, i);
        CommittedOneSlot(s.table, batch[n], tmp, s.img, i);
        NamesOneMore(s.table, batch, n + 1, i);
        assert Settled(s, batch, tmp, n, i);
      }
    }
  }

  lemma UnlockSound(s: Shared)
    requires Sound(s)
    ensures Sound(Next(s, Unlock))
  {
    hide TableOk, Constraints, SlotOf, Names, FieldsOk;
    if s.txn.Committing? && s.txn.n == |s.txn.batch| {
      forall i: nat | i < |s.table| && s.f.Has(i)
        ensures SlotFits(s.table, s.img, i) && SlotOf(s.img, s.table[i]) == SlotOf(s.txn.tmp, s.table[i])
      {
        FitsSlot(s.table, s.img, i);
        assert Settled(s, s.txn.batch, s.txn.tmp, s.txn.n, i);
      }
      SameConstraints(s.table, s.f, s.c, s.img, s.txn.tmp);
    }
  }

  lemma SameConstraints(table: seq<Desc>, f: Fields, c: Codec, x: seq<u8>, y: seq<u8>)
    requires TableOk(table, |x|) && |x| == |y| && FieldsOk(table, f)
    requires forall i: nat | i < |table| && f.Has(i) ::
      SlotFits(table, x, i) && SlotOf(x, table[i]) == SlotOf(y, table[i])
    ensures Constraints(table, f, c, x) == Constraints(table, f, c, y)
  {
    hide SlotOf, Constraints, FieldsOk;
    assert forall i | 0 <= i < |table| && f.Has(i) :: SlotFits(table, x, i);
    ConstraintsDependOnFields(table, f, c, x, y);
  }

  lemma MeasureSound(s: Shared, k: nat, d: seq<u8>)
    requires Sound(s)
    ensures Sound(Next(s, Measure(k, d)))
  {
    hide TableOk, Constraints, Names, FieldsOk, SlotOf;
    if k < |s.table| && !s.f.Has(k) && |d| == Size(s.table[k].kind) {
      PatchSlot(s.table, s.img, k, d);
      var m := Next(s, Measure(k, d));
      forall i: nat | i < |s.table| && s.f.Has(i)
        ensures SlotFits(s.table, m.img, i) && SlotOf(m.img, s.table[i]) == SlotOf(s.img, s.table[i])
      {
        FitsSlot(s.table, s.img, i);
        FitsSlot(s.table, m.img, i);
      }
      SameConstraints(s.table, s.f, s.c, m.img, s.img);
      if s.txn.Committing? {
        forall i: nat | i < |s.table| && s.f.Has(i)
          ensures Settled(m, s.txn.batch, s.txn.tmp, s.txn.n, i)
        {
          assert Settled(s, s.txn.batch, s.txn.tmp, s.txn.n, i);
        }
      }
    }
  }

  lemma {:induction false} RunSound(s: Shared, steps: seq<Step>)
    requires Sound(s)
    ensures Sound(Run(s, steps))
    decreases |steps|
  {
    hide Sound, Next, Shape;
    SoundShape(s);
    if steps != [] {
      var n := |steps| - 1;
      RunSound(s, steps[..n]);
      StepSound(Run(s, steps[..n]), steps[n]);
    }
  }

  lemma SoundShape(s: Shared)
    requires Sound(s)
    ensures Shape(s)
  {
  }

  lemma StepSound(s: Shared, x: Step)
    requires Sound(s)
    ensures Sound(Next(s, x))
  {
    hide Sound, Shape;
    SoundShape(s);
    match x
    case Begin(batch) => if s.txn.Unlocked? { BeginSound(s, batch); }
    case CommitSlot => CommitSound(s);
    case Unlock => UnlockSound(s);
    case Measure(k, d) => MeasureSound(s, k, d);
  }

  /** Once the constraints hold they hold whenever no batch is being committed, so in every
      snapshot taken under the lock: over all interleavings of batches and measurements. */
  lemma ConstraintsKept(s: Shared, steps: seq<Step>)
    requires Shape(s) && s.txn.Unlocked? && Constraints(s.table, s.f, s.c, s.img).Fine?
    ensures var m := Run(s, steps); m.txn.Unlocked? ==> Constraints(m.table, m.f, m.c, m.img).Fine?
  {
    hide Run, Constraints, TableOk;
    RunSound(s, steps);
  }

  /** In terms of what the points show: a sensible configuration stays one. */
  lemma SensibleKept(s: Shared, steps: seq<Step>)
    requires Shape(s) && s.txn.Unlocked? && DpMeaning.Sensible(s.table, s.f, s.c, s.img)
    ensures var m := Run(s, steps); m.txn.Unlocked? ==> DpMeaning.Sensible(m.table, m.f, m.c, m.img)
  {
    hide Run, Constraints, TableOk, DpMeaning.Sensible;
    DpMeaning.ConstraintsMean(s.table, s.f, s.c, s.img);
    ConstraintsKept(s, steps);
    var m := Run(s, steps);
    DpMeaning.ConstraintsMean(m.table, m.f, m.c, m.img);
  }

  /** A reader without the lock may see a violation: while the first slot of a batch that
      moves the lower switching pressure past the old upper one has been copied and the
      upper one has not. */
  lemma UnlockedReadMayViolate(s: Shared, batch: seq<Item>)
    requires Shape(s) && s.txn.Unlocked? && Valid(s, batch) && batch != []
    requires Find(s.table, batch[0].key, 0) == s.f.minPressure && s.table[s.f.minPressure].access == RW
    requires s.f.minPressure != s.f.maxPressure
    requires var tmp := Staged(s.table, s.c, batch, s.img);
      s.c.toReal(SlotOf(tmp, s.table[s.f.minPressure])) >= s.c.toReal(SlotOf(s.img, s.table[s.f.maxPressure]))
    ensures var m := Next(Next(s, Begin(batch)), CommitSlot);
      m.txn.Committing? && Constraints(m.table, m.f, m.c, m.img) == Violated(s.f.maxPressure)
  {
    hide Find, Staged, Errors;
    var tmp := Staged(s.table, s.c, batch, s.img);
    CommittedOneSlot(s.table, batch[0], tmp, s.img, s.f.minPressure);
    CommittedOneSlot(s.table, batch[0], tmp, s.img, s.f.maxPressure);
  }

  // ---------------------------------------------------------------- atomicity

  /** The measurements of a stretch of steps, applied on their own. */
  ghost function Measured(s: Shared, steps: seq<Step>): (m: Shared)
    requires Shape(s)
    ensures Shape(m) && m.table == s.table && m.f == s.f && m.c == s.c && |m.img| == |s.img| && m.txn == s.txn
    decreases |steps|
  {
    if steps == [] then s
    else
      var m := Measured(s, steps[..|steps| - 1]);
      if steps[|steps| - 1].Measure? then Next(m, steps[|steps| - 1]) else m
  }

  /** No measurement hits a point the batch names. */
  predicate Apart(table: seq<Desc>, batch: seq<Item>, steps: seq<Step>) {
    forall i | 0 <= i < |steps| && steps[i].Measure? :: !Names(table, batch, |batch|, steps[i].k)
  }

  /** Each slot during a commit: the copy's value if the batch has written it, else what the
      measurements alone make of it. */
  ghost predicate Woven(s: Shared, now: Shared, alone: Shared, i: nat)
    requires Shape(now) && Shape(alone) && now.table == alone.table && i < |now.table|
    requires now.txn.Committing? && |alone.img| == |now.img|
  {
    var written := now.table[i].access == RW && Names(now.table, now.txn.batch, now.txn.n, i);
    SlotOf(now.img, now.table[i]) == SlotOf(if written then now.txn.tmp else alone.img, now.table[i])
  }

  lemma {:induction false} WovenRun(s: Shared, steps: seq<Step>, i: nat)
    requires Shape(s) && s.txn.Committing? && s.txn.n == 0 && i < |s.table| && Apart(s.table, s.txn.batch, steps)
    requires forall x <- steps :: !x.Unlock?
    ensures var m := Run(s, steps);
      && m.txn.Committing? && m.txn.batch == s.txn.batch && m.txn.tmp == s.txn.tmp
      && Woven(s, m, Measured(s, steps), i)
    decreases |steps|
  {
    hide Shape, TableOk, Woven, Names, SlotOf, Next;
    if steps == [] {
      WovenStart(s, i);
    } else {
      var n := |steps| - 1;
      assert Apart(s.table, s.txn.batch, steps[..n]) by {
        assert forall j | 0 <= j < n :: steps[..n][j] == steps[j];
      }
      assert forall x <- steps[..n] :: x in steps;
      WovenRun(s, steps[..n], i);
      assert steps[n] in steps;
      WovenStep(s, Run(s, steps[..n]), Measured(s, steps[..n]), steps[n], i);
    }
  }

  lemma WovenStart(s: Shared, i: nat)
    requires Shape(s) && s.txn.Committing? && s.txn.n == 0 && i < |s.table|
    ensures Woven(s, s, s, i)
  {
    NamedByNone(s.table, s.txn.batch, i);
  }

  lemma WovenStep(s: Shared, now: Shared, alone: Shared, x: Step, i: nat)
    requires Shape(now) && Shape(alone) && now.table == alone.table && now.f == alone.f
    requires i < |now.table| && |alone.img| == |now.img|
    requires now.txn.Committing? && Woven(s, now, alone, i) && !x.Unlock?
    requires x.Measure? ==> !Names(now.table, now.txn.batch, |now.txn.batch|, x.k)
    ensures var m := Next(now, x); var a := if x.Measure? then Next(alone, x) else alone;
      m.txn.Committing? && m.txn.batch == now.txn.batch && m.txn.tmp == now.txn.tmp && Woven(s, m, a, i)
  {
    hide TableOk, Names, SlotOf, CommittedOne, FieldsOk;
    var table, batch, n := now.table, now.txn.batch, now.txn.n;
    if x.CommitSlot? && n < |batch| {
      CommittedOneSlot(table, batch[n], now.txn.tmp, now.img, i);
      NamesOneMore(table, batch, n + 1, i);
    } else if x.Measure? && x.k < |table| && !now.f.Has(x.k) && |x.d| == Size(table[x.k].kind) {
      PatchSlot(table, now.img, x.k, x.d);
      PatchSlot(table, alone.img, x.k, x.d);
      NamesGrow(table, batch, n, x.k);
    }
  }

  lemma NamesGrow(table: seq<Desc>, batch: seq<Item>, n: nat, i: nat)
    requires n <= |batch|
    ensures Names(table, batch, n, i) ==> Names(table, batch, |batch|, i)
  {
    hide Find;
  }

  /** A writer's turn: it begins, and after `steps` has committed all items. */
  ghost function Turn(s: Shared, batch: seq<Item>, steps: seq<Step>): (m: Shared)
    requires Shape(s)
    ensures Shape(m) && m.table == s.table && m.c == s.c && |m.img| == |s.img|
  {
    Run(Next(s, Begin(batch)), steps)
  }

  ghost predicate WholeTurn(s: Shared, batch: seq<Item>, steps: seq<Step>)
    requires Shape(s)
  {
    && s.txn.Unlocked? && Valid(s, batch) && Apart(s.table, batch, steps) && (forall x <- steps :: !x.Unlock?)
    && var m := Turn(s, batch, steps); m.txn.Committing? && m.txn.n == |batch|
  }

  /** Point `i` has the value the batch gives it, or else what the measurements made of it. */
  ghost predicate Settles(s: Shared, batch: seq<Item>, steps: seq<Step>, m: Shared, i: nat)
    requires Shape(s) && Shape(m) && m.table == s.table && |m.img| == |s.img| && i < |s.table|
  {
    var o := Written(s.table, s.c, batch, i);
    SlotOf(m.img, s.table[i]) == if o.Writes? then o.d else SlotOf(Measured(s, steps).img, s.table[i])
  }

  /** An accepted batch, whatever measurements are updated while it is committed, ends with
      exactly its own points changed, to the values it gives, and every measurement kept. */
  lemma BatchIsAtomic(s: Shared, batch: seq<Item>, steps: seq<Step>, i: nat)
    requires Shape(s) && i < |s.table| && WholeTurn(s, batch, steps)
    ensures var m := Next(Turn(s, batch, steps), Unlock); m.txn.Unlocked? && Settles(s, batch, steps, m, i)
  {
    hide TableOk, Names, SlotOf, Written, Staged, Constraints, FieldsOk, Run, Measured, Errors, Shape;
    var b := Next(s, Begin(batch));
    BegunIs(s, batch);
    WovenRun(b, steps, i);
    TurnSettles(s, batch, steps, i);
  }

  lemma BegunIs(s: Shared, batch: seq<Item>)
    requires Shape(s) && s.txn.Unlocked? && Valid(s, batch)
    ensures TableOk(s.table, |s.img|)
    ensures Next(s, Begin(batch)) == s.(txn := Committing(batch, Staged(s.table, s.c, batch, s.img), 0))
  {
  }

  lemma TurnSettles(s: Shared, batch: seq<Item>, steps: seq<Step>, i: nat)
    requires Shape(s) && i < |s.table| && WholeTurn(s, batch, steps)
    requires var b, m := Next(s, Begin(batch)), Turn(s, batch, steps);
      m.txn.Committing? && m.txn.batch == b.txn.batch && m.txn.tmp == b.txn.tmp && Woven(b, m, Measured(b, steps), i)
    ensures Settles(s, batch, steps, Next(Turn(s, batch, steps), Unlock), i)
  {
    hide TableOk, Names, SlotOf, Written, Staged, Constraints, FieldsOk, Run, Measured, Errors;
    FitsSlot(s.table, s.img, i);
    WrittenIsNamed(s.table, s.c, batch, i);
    StagedSlot(s.table, s.c, batch, s.img, i);
    MeasuredAlone(s, Next(s, Begin(batch)), steps);
    AllWritten(s.table, s.c, batch, i);
  }

  /** Measurements do not depend on who holds the lock. */
  lemma {:induction false} MeasuredAlone(s: Shared, b: Shared, steps: seq<Step>)
    requires Shape(s) && Shape(b) && b == s.(txn := b.txn)
    ensures Measured(b, steps).img == Measured(s, steps).img
    decreases |steps|
  {
    hide Shape;
    if steps != [] {
      MeasuredAlone(s, b, steps[..|steps| - 1]);
    }
  }

  /** In a batch without errors every named point that may be written is written. */
  lemma {:induction false} AllWritten(table: seq<Desc>, c: Codec, batch: seq<Item>, i: nat)
    requires Errors(table, c, batch) == [] && i < |table|
    ensures Names(table, batch, |batch|, i) ==> Written(table, c, batch, i).Writes?
  {
    hide Find;
    if batch != [] {
      var n := |batch| - 1;
      AllWritten(table, c, batch[..n], i);
      NamesOneMore(table, batch, n + 1, i);
      PrefixNames(table, batch, n, i);
    }
  }

  lemma PrefixNames(table: seq<Desc>, batch: seq<Item>, n: nat, i: nat)
    requires n <= |batch|
    ensures Names(table, batch[..n], n, i) <==> Names(table, batch, n, i)
  {
    hide Find;
    if Names(table, batch, n, i) {
      var j :| 0 <= j < n && Find(table, batch[j].key, 0) == i;
      assert Find(table, batch[..n][j].key, 0) == i;
    }
    if Names(table, batch[..n], n, i) {
      var j :| 0 <= j < n && Find(table, batch[..n][j].key, 0) == i;
      assert Find(table, batch[j].key, 0) == i;
    }
  }

  /** A measurement is in the image at once, whether or not a writer has the lock, and
      touches no other point. */
  lemma MeasurementShows(s: Shared, k: nat, d: seq<u8>, i: nat)
    requires Shape(s) && k < |s.table| && !s.f.Has(k) && |d| == Size(s.table[k].kind) && i < |s.table|
    ensures var m := Next(s, Measure(k, d));
      && s.table[i].End() <= |s.img| && m.txn == s.txn
      && SlotOf(m.img, s.table[i]) == if i == k then d else SlotOf(s.img, s.table[i])
  {
    hide TableOk, SlotOf, FieldsOk;
    SlotExists(s.table, s.img, i);
    PatchSlot(s.table, s.img, k, d);
  }
}
