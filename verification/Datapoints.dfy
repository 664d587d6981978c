/** The datapoint catalogue and its byte image: slots, parsing of written values, atomic
    batches, cross-field constraints, full and on-change reports. */
module Datapoints {
  import opened Bytes
  import opened DpDigits

  const STR_MAX: nat := 64

  datatype Type = BOOL | U8 | U16 | U32 | U64 | I8 | I16 | I32 | F32 | ENUM | STR
  datatype Access = RO | RW | WO
  datatype Persist = VOLATILE | NVS | STATIC

  function Size(t: Type): (n: nat)
    ensures n > 0
  {
    match t
    case BOOL | U8 | I8 | ENUM => 1
    case U16 | I16 => 2
    case U32 | I32 | F32 => 4
    case U64 => 8
    case STR => STR_MAX
  }

  datatype Bound = Unbounded | At(value: real)

  datatype Desc = Desc(name: string, kind: Type, access: Access, persist: Persist, off: nat, min: Bound, max: Bound,
      deadband: real)
  {
    function End(): nat { off + Size(kind) }
  }

  /** A generated catalogue: names are distinct, slots lie in the image and do not overlap. */
  predicate TableOk(table: seq<Desc>, size: nat) {
    && (forall i | 0 <= i < |table| :: table[i].End() <= size)
    && (forall i, j | 0 <= i < j < |table| ::
          table[i].name != table[j].name && (table[i].End() <= table[j].off || table[j].End() <= table[i].off))
  }

  function SlotOf(img: seq<u8>, d: Desc): seq<u8>
    requires d.End() <= |img|
  {
    img[d.off..d.End()]
  }

  /** Index of a name in the catalogue, its length if absent. */
  function Find(table: seq<Desc>, name: string, i: nat): (k: nat)
    requires i <= |table|
    ensures i <= k <= |table|
    ensures k < |table| ==> table[k].name == name
    ensures forall j | i <= j < k :: table[j].name != name
    decreases |table| - i
  {
    if i == |table| || table[i].name == name then i else Find(table, name, i + 1)
  }

  // ---------------------------------------------------------------- values

  /** A parsed JSON value; strings are NUL-free bytes. */
  datatype Json = JNumber(n: real) | JBool(b: bool) | JString(s: seq<u8>) | JOther

  datatype Error = UNKNOWN_NAME | READ_ONLY | TYPE_MISMATCH | OUT_OF_RANGE | TOO_LONG | CONSTRAINT

  datatype Parsed = Bytes(d: seq<u8>) | Bad(e: Error)

  /** The conversions from a number to binary32 and back. */
  datatype Codec = Codec(fromReal: real -> seq<u8>, toReal: seq<u8> -> real)

  ghost predicate CodecOk(c: Codec) {
    forall x :: |c.fromReal(x)| == 4
  }

  function Truncated(x: real): int {
    if x >= 0.0 then x.Floor else -(-x).Floor
  }

  /** The low `n` bytes of an integer, least significant first. */
  function IntBytes(x: int, n: nat): (s: seq<u8>)
    ensures |s| == n
    decreases n
  {
    if n == 0 then [] else [x % 0x100] + IntBytes(x / 0x100, n - 1)
  }

  function InRange(d: Desc, x: real): bool {
    (d.min.At? ==> x >= d.min.value) && (d.max.At? ==> x <= d.max.value)
  }

  function ParseValue(c: Codec, d: Desc, v: Json): Parsed {
    match d.kind
    case BOOL => if v.JBool? then Bytes([if v.b then 1 else 0]) else Bad(TYPE_MISMATCH)
    case U64 =>
      if !v.JString? then Bad(TYPE_MISMATCH)
      else
        var x := ReadU64(v.s);
        if x.Is? then Bytes(IntBytes(x.v, 8)) else Bad(TYPE_MISMATCH)
    case STR =>
      if !v.JString? then Bad(TYPE_MISMATCH)
      else if |v.s| >= STR_MAX then Bad(TOO_LONG)
      else Bytes(v.s + seq(STR_MAX - |v.s|, _ => 0))
    case _ =>
      if !v.JNumber? then Bad(TYPE_MISMATCH)
      else if !InRange(d, v.n) then Bad(OUT_OF_RANGE)
      else if d.kind == F32 then Bytes(c.fromReal(v.n))
      else Bytes(IntBytes(Truncated(v.n), Size(d.kind)))
  }

  lemma ParsedSize(c: Codec, d: Desc, v: Json)
    requires CodecOk(c)
    ensures ParseValue(c, d, v).Bytes? ==> |ParseValue(c, d, v).d| == Size(d.kind)
  {
  }

  // ---------------------------------------------------------------- batches

  datatype Item = Item(key: string, value: Json)

  datatype Outcome = Writes(k: nat, d: seq<u8>) | Fails(e: Error)

  function Judged(table: seq<Desc>, c: Codec, x: Item): Outcome {
    var k := Find(table, x.key, 0);
    if k == |table| then Fails(UNKNOWN_NAME)
    else if table[k].access != RW then Fails(READ_ONLY)
    else
      match ParseValue(c, table[k], x.value)
      case Bytes(d) => Writes(k, d)
      case Bad(e) => Fails(e)
  }

  lemma JudgedFits(table: seq<Desc>, c: Codec, x: Item)
    requires CodecOk(c)
    ensures var o := Judged(table, c, x);
      o.Writes? ==>
        && o.k < |table| && table[o.k].name == x.key && table[o.k].access == RW
        && |o.d| == Size(table[o.k].kind)
  {
    var k := Find(table, x.key, 0);
    if k < |table| {
      ParsedSize(c, table[k], x.value);
    }
  }

  /** The value the batch gives point `i`: the last item that names it decides. */
  function Written(table: seq<Desc>, c: Codec, batch: seq<Item>, i: nat): Outcome {
    if batch == [] then Fails(UNKNOWN_NAME)
    else
      var o := Judged(table, c, batch[|batch| - 1]);
      if o.Writes? && o.k == i then o else Written(table, c, batch[..|batch| - 1], i)
  }

  lemma {:induction false} WrittenFits(table: seq<Desc>, c: Codec, batch: seq<Item>, i: nat)
    requires CodecOk(c) && i < |table|
    ensures var o := Written(table, c, batch, i); o.Writes? ==> o.k == i && |o.d| == Size(table[i].kind)
  {
    hide Judged;
    if batch != [] {
      JudgedFits(table, c, batch[|batch| - 1]);
      WrittenFits(table, c, batch[..|batch| - 1], i);
    }
  }

  /** Names and reasons of the items that cannot be written. */
  function Errors(table: seq<Desc>, c: Codec, batch: seq<Item>): seq<(string, Error)> {
    if batch == [] then []
    else
      var x := batch[|batch| - 1];
      var o := Judged(table, c, x);
      Errors(table, c, batch[..|batch| - 1]) + if o.Fails? then [(x.key, o.e)] else []
  }

  /** `m` is `img` with exactly the slots the batch writes replaced by its values. */
  predicate IsStaged(table: seq<Desc>, c: Codec, batch: seq<Item>, img: seq<u8>, m: seq<u8>)
    requires TableOk(table, |img|)
  {
    && |m| == |img|
    && (forall i | 0 <= i < |table| ::
          var o := Written(table, c, batch, i);
          SlotOf(m, table[i]) == if o.Writes? then o.d else SlotOf(img, table[i]))
    && (forall b | 0 <= b < |img| && Between(table, b) :: m[b] == img[b])
  }

  /** A byte of the image that belongs to no slot (padding). */
  predicate Between(table: seq<Desc>, b: nat) {
    forall i | 0 <= i < |table| :: b < table[i].off || table[i].End() <= b
  }

  // ---------------------------------------------------------------- constraints

  /** The points the cross-field constraints speak about, by index. */
  datatype Fields = Fields(minPressure: nat, maxPressure: nat, alertHigh: nat, alertLow: nat, maxOn: nat, minOn: nat,
                           dryRun: nat, interval: nat, bitrate: nat)
  {
    predicate Has(i: nat) {
      i == minPressure || i == maxPressure || i == alertHigh || i == alertLow || i == maxOn || i == minOn || i == dryRun
      || i == interval || i == bitrate
    }
  }

  predicate FieldsOk(table: seq<Desc>, f: Fields) {
    && f.minPressure < |table| && f.maxPressure < |table| && f.alertHigh < |table| && f.alertLow < |table|
    && f.maxOn < |table| && f.minOn < |table| && f.dryRun < |table| && f.interval < |table| && f.bitrate < |table|
    && table[f.minPressure].kind == F32 && table[f.maxPressure].kind == F32 && table[f.alertHigh].kind == F32
    && table[f.alertLow].kind == F32 && table[f.maxOn].kind == U16 && table[f.minOn].kind == U16
    && table[f.dryRun].kind == U16 && table[f.interval].kind == U16 && table[f.bitrate].kind == U16
  }

  /** The first constraint the image violates, named by a point; `None` if there is none. */
  datatype Verdict = Fine | Violated(k: nat)

  function Constraints(table: seq<Desc>, f: Fields, c: Codec, img: seq<u8>): Verdict
    requires TableOk(table, |img|) && FieldsOk(table, f)
  {
    var minP, maxP := c.toReal(SlotOf(img, table[f.minPressure])), c.toReal(SlotOf(img, table[f.maxPressure]));
    var maxOn := FromLe16(SlotOf(img, table[f.maxOn]));
    if !(minP < maxP) then Violated(f.maxPressure)
    else if !(maxP < c.toReal(SlotOf(img, table[f.alertHigh]))) then Violated(f.alertHigh)
    else if !(c.toReal(SlotOf(img, table[f.alertLow])) < minP) then Violated(f.alertLow)
    else if maxOn < 10 then Violated(f.maxOn)
    else if !(FromLe16(SlotOf(img, table[f.minOn])) < maxOn) then Violated(f.minOn)
    else if !(FromLe16(SlotOf(img, table[f.dryRun])) < maxOn) then Violated(f.dryRun)
    else if !(1 <= FromLe16(SlotOf(img, table[f.interval])) <= 3600) then Violated(f.interval)
    else if FromLe16(SlotOf(img, table[f.bitrate])) in {10, 20, 50, 100, 125, 250, 500, 800, 1000} then Fine
    else Violated(f.bitrate)
  }

  /** Constraints look at nothing but their own points. */
  lemma ConstraintsDependOnFields(table: seq<Desc>, f: Fields, c: Codec, x: seq<u8>, y: seq<u8>)
    requires TableOk(table, |x|) && |x| == |y| && FieldsOk(table, f)
    requires forall i | 0 <= i < |table| && f.Has(i) :: SlotOf(x, table[i]) == SlotOf(y, table[i])
    ensures Constraints(table, f, c, x) == Constraints(table, f, c, y)
  {
    hide FromLe16;
    var t := table;
    assert SlotOf(x, t[f.minPressure]) == SlotOf(y, t[f.minPressure]);
    assert SlotOf(x, t[f.maxPressure]) == SlotOf(y, t[f.maxPressure]);
    assert SlotOf(x, t[f.alertHigh]) == SlotOf(y, t[f.alertHigh]);
    assert SlotOf(x, t[f.alertLow]) == SlotOf(y, t[f.alertLow]);
    assert SlotOf(x, t[f.maxOn]) == SlotOf(y, t[f.maxOn]) && SlotOf(x, t[f.minOn]) == SlotOf(y, t[f.minOn]);
    assert SlotOf(x, t[f.dryRun]) == SlotOf(y, t[f.dryRun]) && SlotOf(x, t[f.interval]) == SlotOf(y, t[f.interval]);
    assert SlotOf(x, t[f.bitrate]) == SlotOf(y, t[f.bitrate]);
  }

  /** Writing a slot leaves every other slot alone. */
  lemma PatchSlot(table: seq<Desc>, img: seq<u8>, k: nat, d: seq<u8>)
    requires TableOk(table, |img|) && k < |table| && |d| == Size(table[k].kind)
    ensures var m := Patch(img, table[k].off, d);
      && |m| == |img| && SlotOf(m, table[k]) == d
      && (forall i | 0 <= i < |table| && i != k :: SlotOf(m, table[i]) == SlotOf(img, table[i]))
      && (forall b | 0 <= b < |img| && !(table[k].off <= b < table[k].End()) :: m[b] == img[b])
  {
    var m := Patch(img, table[k].off, d);
    forall i: nat | i < |table| && i != k
      ensures SlotOf(m, table[i]) == SlotOf(img, table[i])
    {
      PatchFrame(img, table[k].off, d, table[i].off, table[i].End());
    }
  }

  /** Images that agree on all slots and on the padding are equal. */
  lemma SameImage(table: seq<Desc>, x: seq<u8>, y: seq<u8>)
    requires TableOk(table, |x|) && |y| == |x|
    requires forall i | 0 <= i < |table| :: SlotOf(x, table[i]) == SlotOf(y, table[i])
    requires forall b | 0 <= b < |x| && Between(table, b) :: x[b] == y[b]
    ensures x == y
  {
    hide SlotOf;
    forall b: nat | b < |x|
      ensures x[b] == y[b]
    {
      if !Between(table, b) {
        var i :| 0 <= i < |table| && table[i].off <= b < table[i].End();
        InSlot(x, table[i], b);
        InSlot(y, table[i], b);
      }
    }
  }

  lemma InSlot(img: seq<u8>, d: Desc, b: nat)
    requires d.off <= b < d.End() <= |img|
    ensures |SlotOf(img, d)| == Size(d.kind) && SlotOf(img, d)[b - d.off] == img[b]
  {
  }

  // ---------------------------------------------------------------- staging and committing

  /** The private copy after all items: each valid value stored in its slot. */
  function Staged(table: seq<Desc>, c: Codec, batch: seq<Item>, img: seq<u8>): (m: seq<u8>)
    requires TableOk(table, |img|)
    ensures |m| == |img|
  {
    if batch == [] then img
    else
      var m := Staged(table, c, batch[..|batch| - 1], img);
      var o := Judged(table, c, batch[|batch| - 1]);
      if o.Writes? && o.k < |table| && |o.d| == Size(table[o.k].kind) then Patch(m, table[o.k].off, o.d) else m
  }

  lemma {:induction false} StagedIs(table: seq<Desc>, c: Codec, batch: seq<Item>, img: seq<u8>)
    requires TableOk(table, |img|) && CodecOk(c)
    ensures IsStaged(table, c, batch, img, Staged(table, c, batch, img))
  {
    hide Judged, TableOk;
    if batch != [] {
      var n := |batch| - 1;
      StagedIs(table, c, batch[..n], img);
      var m := Staged(table, c, batch[..n], img);
      JudgedFits(table, c, batch[n]);
      var o := Judged(table, c, batch[n]);
      if o.Writes? {
        PatchSlot(table, m, o.k, o.d);
        PaddingKept(table, m, o.k, o.d);
      }
    }
  }

  lemma PaddingKept(table: seq<Desc>, m: seq<u8>, k: nat, d: seq<u8>)
    requires TableOk(table, |m|) && k < |table| && |d| == Size(table[k].kind)
    ensures forall b | 0 <= b < |m| && Between(table, b) :: Patch(m, table[k].off, d)[b] == m[b]
  {
    PatchSlot(table, m, k, d);
  }

  /** Commit of the first `n` items: each named point's slot is copied from the copy. */
  function Committed(table: seq<Desc>, batch: seq<Item>, tmp: seq<u8>, img: seq<u8>, n: nat): (m: seq<u8>)
    requires TableOk(table, |img|) && |tmp| == |img| && n <= |batch|
    ensures |m| == |img|
  {
    if n == 0 then img else CommittedOne(table, batch[n - 1], tmp, Committed(table, batch, tmp, img, n - 1))
  }

  function CommittedOne(table: seq<Desc>, x: Item, tmp: seq<u8>, img: seq<u8>): (m: seq<u8>)
    requires TableOk(table, |img|) && |tmp| == |img|
    ensures |m| == |img|
  {
    var k := Find(table, x.key, 0);
    if k < |table| && table[k].access == RW then Patch(img, table[k].off, SlotOf(tmp, table[k])) else img
  }

  /** Some of the first `n` items names point `i`. */
  predicate Names(table: seq<Desc>, batch: seq<Item>, n: nat, i: nat)
    requires n <= |batch|
  {
    exists j :: 0 <= j < n && Find(table, batch[j].key, 0) == i
  }

  /** What a commit has done so far: the named points have the copy's values, everything
      else is as it was. */
  lemma {:induction false} CommittedSlots(table: seq<Desc>, batch: seq<Item>, tmp: seq<u8>, img: seq<u8>, n: nat,
          i: nat)
    requires TableOk(table, |img|) && |tmp| == |img| && n <= |batch| && i < |table|
    ensures SlotOf(Committed(table, batch, tmp, img, n), table[i])
         == SlotOf(if table[i].access == RW && Names(table, batch, n, i) then tmp else img, table[i])
  {
    hide TableOk, Find, SlotOf;
    if n > 0 {
      CommittedSlots(table, batch, tmp, img, n - 1, i);
      CommittedOneSlot(table, batch[n - 1], tmp, Committed(table, batch, tmp, img, n - 1), i);
      NamesOneMore(table, batch, n, i);
    }
  }

  lemma NamesOneMore(table: seq<Desc>, batch: seq<Item>, n: nat, i: nat)
    requires 0 < n <= |batch|
    ensures Names(table, batch, n, i) <==> Names(table, batch, n - 1, i) || Find(table, batch[n - 1].key, 0) == i
  {
    hide Find;
    if Find(table, batch[n - 1].key, 0) == i {
      assert Names(table, batch, n, i);
    }
  }

  lemma CommittedOneSlot(table: seq<Desc>, x: Item, tmp: seq<u8>, img: seq<u8>, i: nat)
    requires TableOk(table, |img|) && |tmp| == |img| && i < |table|
    ensures SlotOf(CommittedOne(table, x, tmp, img), table[i])
         == SlotOf(if table[i].access == RW && Find(table, x.key, 0) == i then tmp else img, table[i])
    ensures forall b | 0 <= b < |img| && Between(table, b) :: CommittedOne(table, x, tmp, img)[b] == img[b]
  {
    hide Find;
    var k := Find(table, x.key, 0);
    if k < |table| {
      PatchSlot(table, img, k, SlotOf(tmp, table[k]));
    }
  }

  lemma {:induction false} CommittedPadding(table: seq<Desc>, batch: seq<Item>, tmp: seq<u8>, img: seq<u8>, n: nat)
    requires TableOk(table, |img|) && |tmp| == |img| && n <= |batch|
    ensures forall b | 0 <= b < |img| && Between(table, b) :: Committed(table, batch, tmp, img, n)[b] == img[b]
  {
    hide TableOk, CommittedOne, Between;
    if n > 0 {
      CommittedPadding(table, batch, tmp, img, n - 1);
      if |table| > 0 {
        CommittedOneSlot(table, batch[n - 1], tmp, Committed(table, batch, tmp, img, n - 1), 0);
      } else {
        EmptyCommit(table, batch[n - 1], tmp, Committed(table, batch, tmp, img, n - 1));
      }
    }
  }

  lemma EmptyCommit(table: seq<Desc>, x: Item, tmp: seq<u8>, img: seq<u8>)
    requires table == [] && |tmp| == |img|
    ensures TableOk(table, |img|) && CommittedOne(table, x, tmp, img) == img
  {
  }

  /** An item that writes a point names it. */
  lemma {:induction false} WrittenIsNamed(table: seq<Desc>, c: Codec, batch: seq<Item>, i: nat)
    requires CodecOk(c) && i < |table|
    ensures Written(table, c, batch, i).Writes? ==> table[i].access == RW && Names(table, batch, |batch|, i)
  {
    hide Find;
    if batch != [] {
      var n := |batch| - 1;
      WrittenIsNamed(table, c, batch[..n], i);
      JudgedFits(table, c, batch[n]);
      if Judged(table, c, batch[n]).Writes? && Judged(table, c, batch[n]).k == i {
        assert Find(table, batch[n].key, 0) == i;
        assert Names(table, batch, |batch|, i);
      } else if Names(table, batch[..n], n, i) {
        var j :| 0 <= j < n && Find(table, batch[..n][j].key, 0) == i;
        assert Find(table, batch[j].key, 0) == i;
      }
    }
  }

  /** Committing all of a valid batch on the image it was staged from gives the copy. */
  lemma CommitIsStaged(table: seq<Desc>, c: Codec, batch: seq<Item>, img: seq<u8>)
    requires TableOk(table, |img|) && CodecOk(c)
    ensures Committed(table, batch, Staged(table, c, batch, img), img, |batch|) == Staged(table, c, batch, img)
  {
    hide TableOk, Staged, Committed, Written, Names, SlotOf, Between;
    var tmp := Staged(table, c, batch, img);
    StagedIs(table, c, batch, img);
    var m := Committed(table, batch, tmp, img, |batch|);
    CommittedPadding(table, batch, tmp, img, |batch|);
    forall i: nat | i < |table|
      ensures SlotFits(table, img, i) && SlotOf(m, table[i]) == SlotOf(tmp, table[i])
    {
      FitsSlot(table, img, i);
      CommittedSlots(table, batch, tmp, img, |batch|, i);
      WrittenIsNamed(table, c, batch, i);
      StagedSlot(table, c, batch, img, i);
    }
    SameSlots(table, m, tmp);
  }

  predicate SlotFits(table: seq<Desc>, img: seq<u8>, i: nat) { i < |table| && table[i].End() <= |img| }

  lemma FitsSlot(table: seq<Desc>, img: seq<u8>, i: nat)
    requires TableOk(table, |img|) && i < |table|
    ensures SlotFits(table, img, i)
  {
  }

  lemma StagedSlot(table: seq<Desc>, c: Codec, batch: seq<Item>, img: seq<u8>, i: nat)
    requires TableOk(table, |img|) && CodecOk(c) && i < |table|
    ensures SlotFits(table, img, i)
    ensures var o := Written(table, c, batch, i);
      SlotOf(Staged(table, c, batch, img), table[i]) == if o.Writes? then o.d else SlotOf(img, table[i])
  {
    hide Staged, Written, SlotOf;
    StagedIs(table, c, batch, img);
  }

  lemma SameSlots(table: seq<Desc>, x: seq<u8>, y: seq<u8>)
    requires TableOk(table, |x|) && |y| == |x|
    requires forall i: nat | i < |table| :: SlotFits(table, x, i) && SlotOf(x, table[i]) == SlotOf(y, table[i])
    requires forall b | 0 <= b < |x| && Between(table, b) :: x[b] == y[b]
    ensures x == y
  {
    hide SlotOf, Between;
    assert forall i | 0 <= i < |table| :: SlotFits(table, x, i);
    SameImage(table, x, y);
  }
}
