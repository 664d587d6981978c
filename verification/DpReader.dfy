/** What a reader of the configuration points can see, with and without the lock: nine
    points, and a batch that moves both switching pressures past the old upper one. */
module DpReader {
  import opened Bytes
  import opened Datapoints
  import opened DpConcurrent
  import opened DpMeaning

  const TABLE: seq<Desc> := [
    Point("Fon_Min_Pressure", F32, 0), Point("Fon_Max_Pressure", F32, 4),
    Point("Fon_Alert_High_Pressure", F32, 8), Point("Fon_Alert_Low_Pressure", F32, 12),
    Point("Fon_Max_On_Time", U16, 16), Point("Fon_Min_On_Time", U16, 18),
    Point("Fon_Dry_Run_Detect_Time", U16, 20), Point("Fon_Report_Interval", U16, 22),
    Point("Can_Bitrate", U16, 24)]

  const FIELDS := Fields(0, 1, 2, 3, 4, 5, 6, 7, 8)

  function Point(name: string, kind: Type, off: nat): Desc {
    Desc(name, kind, RW, NVS, off, Unbounded, Unbounded, 0.0)
  }

  /** Small whole numbers survive the conversion, as they do in binary32. */
  ghost predicate Exact(c: Codec) {
    CodecOk(c) && forall x: real | x in {1.0, 2.0, 3.0, 4.0, 5.0, 6.0} :: c.toReal(c.fromReal(x)) == x
  }

  /** Lower and upper switching pressure `lo` and `hi`, alerts at 6 and 1; times 60, 5, 10 and
      60 seconds, 250 kbit/s. */
  function Image(c: Codec, lo: seq<u8>, hi: seq<u8>): seq<u8> {
    Laid(lo, hi, c.fromReal(6.0), c.fromReal(1.0), TIMES)
  }

  const TIMES: seq<u8> := [60, 0, 5, 0, 10, 0, 60, 0, 250, 0]

  function Laid(lo: seq<u8>, hi: seq<u8>, high: seq<u8>, low: seq<u8>, times: seq<u8>): seq<u8> {
    lo + hi + high + low + times
  }

  const BATCH: seq<Item> := [Item("Fon_Min_Pressure", JNumber(4.0)), Item("Fon_Max_Pressure", JNumber(5.0))]

  function Quiet(c: Codec): Shared { Shared(TABLE, FIELDS, c, Image(c, c.fromReal(2.0), c.fromReal(3.0)), Unlocked) }

  /** The store at rest, with a sensible configuration. */
  ghost predicate Good(s: Shared) {
    Shape(s) && s.txn.Unlocked? && Sensible(s.table, s.f, s.c, s.img)
  }

  /** In every run from every such store a reader finds a sensible configuration whenever it
      reads: at any moment, or only while no writer has the lock. */
  ghost predicate AlwaysSeesFine(c: Codec, takesLock: bool) {
    forall s: Shared, steps: seq<Step> | s.c == c && Good(s) ::
      var m := Run(s, steps); (takesLock ==> m.txn.Unlocked?) ==> Sensible(m.table, m.f, m.c, m.img)
  }

  /** Length and sixth character: enough to tell the nine names apart. */
  function Key(name: string): (int, char) {
    (|name|, if |name| > 5 then name[5] else ' ')
  }

  const KEYS := [(16, 'i'), (16, 'a'), (23, 'l'), (22, 'l'), (15, 'a'), (15, 'i'), (23, 'r'), (19, 'e'), (11, 'i')]
  const ENDS := [4, 8, 12, 16, 18, 20, 22, 24, 26]

  lemma TablePoint(i: nat)
    requires i < 9
    ensures |TABLE| == 9 && Key(TABLE[i].name) == KEYS[i]
    ensures TABLE[i].access == RW && TABLE[i].off == (if i == 0 then 0 else ENDS[i - 1]) && TABLE[i].End() == ENDS[i]
  {
  }

  lemma TableIsOk()
    ensures TableOk(TABLE, 26) && FieldsOk(TABLE, FIELDS)
  {
    assert FieldsOk(TABLE, FIELDS);
    TablesDistinct();
  }

  lemma TablesDistinct()
    ensures TableOk(TABLE, 26)
  {
    hide TABLE, Key;
    TablePoint(0);
    forall i: nat, j: nat | i < j < |TABLE|
      ensures TABLE[i].name != TABLE[j].name && TABLE[i].End() <= TABLE[j].off
    {
      TablePoint(i);
      TablePoint(j);
    }
    forall i: nat | i < |TABLE|
      ensures TABLE[i].End() <= 26
    {
      TablePoint(i);
    }
  }

  lemma LaidSlots(lo: seq<u8>, hi: seq<u8>, high: seq<u8>, low: seq<u8>, times: seq<u8>)
    requires |lo| == |hi| == |high| == |low| == 4 && |times| == 10
    ensures var m := Laid(lo, hi, high, low, times);
      && |m| == 26 && m[0..4] == lo && m[4..8] == hi && m[8..12] == high && m[12..16] == low
      && m[16..18] == times[0..2] && m[18..20] == times[2..4] && m[20..22] == times[4..6]
      && m[22..24] == times[6..8] && m[24..26] == times[8..10]
  {
  }

  lemma ImageSlots(c: Codec, lo: seq<u8>, hi: seq<u8>)
    requires Exact(c) && |lo| == |hi| == 4
    ensures TableOk(TABLE, 26) && FieldsOk(TABLE, FIELDS) && |Image(c, lo, hi)| == 26 && |TABLE| == 9
    ensures var m := Image(c, lo, hi);
      && SlotOf(m, TABLE[0]) == lo && SlotOf(m, TABLE[1]) == hi
      && SlotOf(m, TABLE[2]) == c.fromReal(6.0) && SlotOf(m, TABLE[3]) == c.fromReal(1.0)
      && SlotOf(m, TABLE[4]) == [60, 0] && SlotOf(m, TABLE[5]) == [5, 0] && SlotOf(m, TABLE[6]) == [10, 0]
      && SlotOf(m, TABLE[7]) == [60, 0] && SlotOf(m, TABLE[8]) == [250, 0]
  {
    hide TABLE, Laid, TableOk, FieldsOk;
    TableIsOk();
    LaidSlots(lo, hi, c.fromReal(6.0), c.fromReal(1.0), TIMES);
    assert TIMES[0..2] == [60, 0] && TIMES[2..4] == [5, 0] && TIMES[4..6] == [10, 0] && TIMES[6..8] == [60, 0];
    assert TIMES[8..10] == [250, 0];
    TablePoint(0); TablePoint(1); TablePoint(2); TablePoint(3);
    TablePoint(4); TablePoint(5); TablePoint(6); TablePoint(7); TablePoint(8);
  }

  lemma Judgement(c: Codec, lo: seq<u8>, hi: seq<u8>)
    requires Exact(c) && |lo| == |hi| == 4
    ensures TableOk(TABLE, 26) && FieldsOk(TABLE, FIELDS) && |Image(c, lo, hi)| == 26
    ensures Constraints(TABLE, FIELDS, c, Image(c, lo, hi))
         == if !(c.toReal(lo) < c.toReal(hi)) then Violated(1)
            else if !(c.toReal(hi) < 6.0) then Violated(2)
            else if !(1.0 < c.toReal(lo)) then Violated(3)
            else Fine
  {
    hide TABLE, Laid, Image, TableOk, SlotOf, FieldsOk;
    ImageSlots(c, lo, hi);
    assert c.toReal(c.fromReal(6.0)) == 6.0 && c.toReal(c.fromReal(1.0)) == 1.0;
  }

  lemma StartIsGood(c: Codec)
    requires Exact(c)
    ensures Good(Quiet(c))
  {
    hide TABLE, Image, TableOk, Constraints, FieldsOk, Sensible;
    Judgement(c, c.fromReal(2.0), c.fromReal(3.0));
    ConstraintsMean(TABLE, FIELDS, c, Quiet(c).img);
  }

  lemma Finds()
    ensures Find(TABLE, "Fon_Min_Pressure", 0) == 0 && Find(TABLE, "Fon_Max_Pressure", 0) == 1
  {
    assert "Fon_Min_Pressure"[5] != "Fon_Max_Pressure"[5];
  }

  lemma Judges(c: Codec)
    requires Exact(c)
    ensures Judged(TABLE, c, BATCH[0]) == Writes(0, c.fromReal(4.0))
    ensures Judged(TABLE, c, BATCH[1]) == Writes(1, c.fromReal(5.0))
  {
    Finds();
    hide Find;
  }

  lemma Patched(lo: seq<u8>, hi: seq<u8>, lo': seq<u8>, hi': seq<u8>, high: seq<u8>, low: seq<u8>, times: seq<u8>)
    requires |lo| == |hi| == |lo'| == |hi'| == |high| == |low| == 4 && |times| == 10
    ensures Patch(Laid(lo, hi, high, low, times), 0, lo') == Laid(lo', hi, high, low, times)
    ensures Patch(Laid(lo', hi, high, low, times), 4, hi') == Laid(lo', hi', high, low, times)
  {
  }

  lemma BatchIsStaged(c: Codec)
    requires Exact(c)
    ensures TableOk(TABLE, 26) && |Image(c, c.fromReal(2.0), c.fromReal(3.0))| == 26
    ensures Errors(TABLE, c, BATCH) == []
    ensures Staged(TABLE, c, BATCH, Image(c, c.fromReal(2.0), c.fromReal(3.0)))
         == Image(c, c.fromReal(4.0), c.fromReal(5.0))
  {
    hide TABLE, TableOk, Judged, Laid, Patch, SlotOf, FieldsOk;
    Judges(c);
    ImageSlots(c, c.fromReal(2.0), c.fromReal(3.0));
    TablePoint(0);
    TablePoint(1);
    Patched(c.fromReal(2.0), c.fromReal(3.0), c.fromReal(4.0), c.fromReal(5.0), c.fromReal(6.0), c.fromReal(1.0),
            TIMES);
    var img, one := Image(c, c.fromReal(2.0), c.fromReal(3.0)), [BATCH[0]];
    assert BATCH[..|BATCH| - 1] == one && one[..|one| - 1] == [];
    assert Errors(TABLE, c, []) == [] && Errors(TABLE, c, one) == [];
    assert Staged(TABLE, c, [], img) == img;
    assert Staged(TABLE, c, one, img) == Image(c, c.fromReal(4.0), c.fromReal(3.0));
  }

  /** Two steps of the store: the batch is accepted and its first point is copied. */
  lemma HalfCommitted(c: Codec)
    requires Exact(c)
    ensures Good(Quiet(c))
    ensures var m := Next(Next(Quiet(c), Begin(BATCH)), CommitSlot);
      && m.txn.Committing? && Constraints(m.table, m.f, m.c, m.img) == Violated(FIELDS.maxPressure)
      && !Sensible(m.table, m.f, m.c, m.img)
  {
    hide Sensible;
    hide Find, TABLE, TableOk, Image, Constraints, Staged, SlotOf, Errors, FieldsOk, Next;
    StartIsGood(c);
    BatchIsStaged(c);
    Judgement(c, c.fromReal(4.0), c.fromReal(5.0));
    ImageSlots(c, c.fromReal(4.0), c.fromReal(5.0));
    ImageSlots(c, c.fromReal(2.0), c.fromReal(3.0));
    Finds();
    TablePoint(0);
    UnlockedReadMayViolate(Quiet(c), BATCH);
    var m := Next(Next(Quiet(c), Begin(BATCH)), CommitSlot);
    ConstraintsMean(m.table, m.f, m.c, m.img);
  }

  /** A reader sees a sensible configuration in every run if and only if it takes the lock,
      whatever the conversions, as long as they keep small whole numbers. */
  lemma ExactlyWithLock(c: Codec, takesLock: bool)
    requires Exact(c)
    ensures AlwaysSeesFine(c, takesLock) <==> takesLock
  {
    hide Constraints, TableOk, Exact, Sensible;
    if takesLock {
      forall s: Shared, steps: seq<Step> | s.c == c && Good(s)
        ensures var m := Run(s, steps); m.txn.Unlocked? ==> Sensible(m.table, m.f, m.c, m.img)
      {
        SensibleKept(s, steps);
      }
    } else {
      HalfCommitted(c);
      HalfRun(c);
    }
  }

  lemma HalfRun(c: Codec)
    requires Good(Quiet(c))
    ensures Run(Quiet(c), [Begin(BATCH), CommitSlot]) == Next(Next(Quiet(c), Begin(BATCH)), CommitSlot)
    ensures Quiet(c).c == c
  {
    hide Next, TableOk, Sensible;
    var steps := [Begin(BATCH), CommitSlot];
    assert steps[..1] == [Begin(BATCH)] && steps[..1][..0] == [];
    assert Run(Quiet(c), []) == Quiet(c);
  }

  /** Such conversions exist. */
  lemma SomeCodec() returns (c: Codec)
    ensures Exact(c)
  {
    c := Codec(x => if 0.0 <= x < 256.0 then [x.Floor, 0, 0, 0] else [0, 0, 0, 0],
               s => if |s| == 0 then 0.0 else s[0] as real);
  }
}
