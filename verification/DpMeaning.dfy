/** What a write means: in terms of the values a report shows, not of bytes and slots. */
module DpMeaning {
  import opened Bytes
  import opened DpDigits
  import opened Datapoints
  import opened DpJson

  // ---------------------------------------------------------------- constraints

  /** The number of a point. */
  function At(table: seq<Desc>, c: Codec, img: seq<u8>, i: nat): real
    requires TableOk(table, |img|) && i < |table|
  {
    NumberOf(c, table[i].kind, SlotOf(img, table[i]))
  }

  /** The configuration makes sense: the pressures ascend from the low alert over the
      switching pressures to the high alert, the minimum on-time and the dry-run detection
      end before the maximum on-time, reports come every second to every hour, and the bit
      rate is one of section 7 of CiA 301 or 100 kbit/s. */
  predicate Sensible(table: seq<Desc>, f: Fields, c: Codec, img: seq<u8>)
    requires TableOk(table, |img|) && FieldsOk(table, f)
  {
    && At(table, c, img, f.alertLow) < At(table, c, img, f.minPressure)
    && At(table, c, img, f.minPressure) < At(table, c, img, f.maxPressure)
    && At(table, c, img, f.maxPressure) < At(table, c, img, f.alertHigh)
    && 10.0 <= At(table, c, img, f.maxOn)
    && At(table, c, img, f.minOn) < At(table, c, img, f.maxOn)
    && At(table, c, img, f.dryRun) < At(table, c, img, f.maxOn)
    && 1.0 <= At(table, c, img, f.interval) <= 3600.0
    && At(table, c, img, f.bitrate) in {10.0, 20.0, 50.0, 100.0, 125.0, 250.0, 500.0, 800.0, 1000.0}
  }

  /** What can be wrong, each with the point that is blamed for it, in the order in which
      it is looked for. */
  function Faults(table: seq<Desc>, f: Fields, c: Codec, img: seq<u8>): seq<(nat, bool)>
    requires TableOk(table, |img|) && FieldsOk(table, f)
  {
    [(f.maxPressure, At(table, c, img, f.minPressure) >= At(table, c, img, f.maxPressure)),
     (f.alertHigh, At(table, c, img, f.maxPressure) >= At(table, c, img, f.alertHigh)),
     (f.alertLow, At(table, c, img, f.alertLow) >= At(table, c, img, f.minPressure)),
     (f.maxOn, At(table, c, img, f.maxOn) < 10.0),
     (f.minOn, At(table, c, img, f.minOn) >= At(table, c, img, f.maxOn)),
     (f.dryRun, At(table, c, img, f.dryRun) >= At(table, c, img, f.maxOn)),
     (f.interval, At(table, c, img, f.interval) < 1.0 || At(table, c, img, f.interval) > 3600.0),
     (f.bitrate, At(table, c, img, f.bitrate) !in {10.0, 20.0, 50.0, 100.0, 125.0, 250.0, 500.0, 800.0, 1000.0})]
  }

  /** The point is blamed for the first fault there is. */
  predicate Blamed(table: seq<Desc>, f: Fields, c: Codec, img: seq<u8>, k: nat)
    requires TableOk(table, |img|) && FieldsOk(table, f)
  {
    var faults := Faults(table, f, c, img);
    exists i :: 0 <= i < |faults| && faults[i] == (k, true) && forall j | 0 <= j < i :: !faults[j].1
  }

  lemma WordNumber(s: seq<u8>)
    requires |s| == 2
    ensures Unsigned(s) == FromLe16(s)
  {
    assert s[1..][0] == s[1] && s[1..][1..] == [];
    assert Unsigned(s[1..]) == s[1];
  }

  lemma WordAt(table: seq<Desc>, c: Codec, img: seq<u8>, i: nat)
    requires TableOk(table, |img|) && i < |table| && table[i].kind == U16
    ensures |SlotOf(img, table[i])| == 2 && At(table, c, img, i) == FromLe16(SlotOf(img, table[i])) as real
  {
    hide Unsigned, FromLe16;
    WordNumber(SlotOf(img, table[i]));
  }

  lemma WordsAt(table: seq<Desc>, f: Fields, c: Codec, img: seq<u8>)
    requires TableOk(table, |img|) && FieldsOk(table, f)
    ensures forall i | i in {f.maxOn, f.minOn, f.dryRun, f.interval, f.bitrate} ::
      |SlotOf(img, table[i])| == 2 && At(table, c, img, i) == FromLe16(SlotOf(img, table[i])) as real
    ensures forall i | i in {f.minPressure, f.maxPressure, f.alertHigh, f.alertLow} ::
      At(table, c, img, i) == c.toReal(SlotOf(img, table[i]))
  {
    forall i | i in {f.maxOn, f.minOn, f.dryRun, f.interval, f.bitrate}
      ensures |SlotOf(img, table[i])| == 2 && At(table, c, img, i) == FromLe16(SlotOf(img, table[i])) as real
    {
      WordAt(table, c, img, i);
    }
  }

  /** The checks of a batch accept exactly the sensible configurations, ... */
  lemma ConstraintsMean(table: seq<Desc>, f: Fields, c: Codec, img: seq<u8>)
    requires TableOk(table, |img|) && FieldsOk(table, f)
    ensures Constraints(table, f, c, img).Fine? <==> Sensible(table, f, c, img)
  {
    WordsAt(table, f, c, img);
    hide FromLe16, Unsigned, SlotOf, At;
  }

  /** The first entry that is true. */
  function FirstOf(faults: seq<(nat, bool)>): Verdict {
    if faults == [] then Fine else if faults[0].1 then Violated(faults[0].0) else FirstOf(faults[1..])
  }

  /** ... and blame the first fault there is for one that is not. */
  lemma ViolationBlames(table: seq<Desc>, f: Fields, c: Codec, img: seq<u8>)
    requires TableOk(table, |img|) && FieldsOk(table, f)
    ensures var v := Constraints(table, f, c, img); v.Violated? ==> v.k < |table| && Blamed(table, f, c, img, v.k)
  {
    hide FromLe16, Unsigned, SlotOf, At, Blamed, FirstOf, Faults, Constraints;
    var v, faults := Constraints(table, f, c, img), Faults(table, f, c, img);
    ConstraintsFirst(table, f, c, img);
    FaultsArePoints(table, f, c, img);
    if v.Violated? {
      var i := FirstIs(faults);
      BlamedAt(table, f, c, img, v.k, i);
    }
  }

  lemma ConstraintsFirst(table: seq<Desc>, f: Fields, c: Codec, img: seq<u8>)
    requires TableOk(table, |img|) && FieldsOk(table, f)
    ensures Constraints(table, f, c, img) == FirstOf(Faults(table, f, c, img))
  {
    WordsAt(table, f, c, img);
    hide FromLe16, Unsigned, SlotOf, At, FirstOf;
    var s := Faults(table, f, c, img);
    EightFirst(s, s[0], s[1], s[2], s[3], s[4], s[5], s[6], s[7]);
  }

  lemma FaultsArePoints(table: seq<Desc>, f: Fields, c: Codec, img: seq<u8>)
    requires TableOk(table, |img|) && FieldsOk(table, f)
    ensures forall x <- Faults(table, f, c, img) :: x.0 < |table|
  {
    hide At;
  }

  lemma EightFirst(s: seq<(nat, bool)>, a: (nat, bool), b: (nat, bool), c: (nat, bool), d: (nat, bool),
          e: (nat, bool), f: (nat, bool), g: (nat, bool), h: (nat, bool))
    requires s == [a, b, c, d, e, f, g, h]
    ensures FirstOf(s) ==
      if a.1 then Violated(a.0) else if b.1 then Violated(b.0) else if c.1 then Violated(c.0)
      else if d.1 then Violated(d.0) else if e.1 then Violated(e.0) else if f.1 then Violated(f.0)
      else if g.1 then Violated(g.0) else if h.1 then Violated(h.0) else Fine
  {
    assert s[1..] == [b, c, d, e, f, g, h] && s[1..][1..] == [c, d, e, f, g, h];
    assert [c, d, e, f, g, h][1..] == [d, e, f, g, h] && [d, e, f, g, h][1..] == [e, f, g, h];
    assert [e, f, g, h][1..] == [f, g, h] && [f, g, h][1..] == [g, h] && [g, h][1..] == [h] && [h][1..] == [];
    assert FirstOf([]) == Fine && FirstOf([h]) == if h.1 then Violated(h.0) else Fine;
    assert FirstOf([g, h]) == if g.1 then Violated(g.0) else if h.1 then Violated(h.0) else Fine;
    assert FirstOf([e, f, g, h]) == if e.1 then Violated(e.0) else if f.1 then Violated(f.0) else FirstOf([g, h]);
    assert FirstOf([c, d, e, f, g, h])
        == if c.1 then Violated(c.0) else if d.1 then Violated(d.0) else FirstOf([e, f, g, h]);
  }

  lemma FirstIs(faults: seq<(nat, bool)>) returns (i: nat)
    requires FirstOf(faults).Violated?
    ensures i < |faults| && faults[i] == (FirstOf(faults).k, true) && forall j | 0 <= j < i :: !faults[j].1
  {
    if faults[0].1 {
      i := 0;
    } else {
      i := FirstIs(faults[1..]);
      i := i + 1;
    }
  }

  lemma BlamedAt(table: seq<Desc>, f: Fields, c: Codec, img: seq<u8>, k: nat, i: nat)
    requires TableOk(table, |img|) && FieldsOk(table, f)
    requires var faults := Faults(table, f, c, img);
      i < |faults| && faults[i] == (k, true) && forall j | 0 <= j < i :: !faults[j].1
    ensures Blamed(table, f, c, img, k)
  {
    hide Faults;
  }

  // ---------------------------------------------------------------- items

  /** The value can be written to the point: it has the point's JSON type, is in its range,
      and fits. */
  predicate Takes(d: Desc, v: Json) {
    match d.kind
    case BOOL => v.JBool?
    case STR => v.JString? && |v.s| < 64
    case U64 => v.JString? && ReadU64(v.s).Is?
    case _ => v.JNumber? && (d.min.At? ==> d.min.value <= v.n) && (d.max.At? ==> v.n <= d.max.value)
  }

  predicate Writable(table: seq<Desc>, x: Item) {
    exists k :: 0 <= k < |table| && table[k].name == x.key && table[k].access == RW && Takes(table[k], x.value)
  }

  lemma JudgedMeans(table: seq<Desc>, c: Codec, x: Item, size: nat)
    requires TableOk(table, size)
    ensures Judged(table, c, x).Writes? <==> Writable(table, x)
  {
    var k := Find(table, x.key, 0);
    hide Find;
    if k < |table| && Judged(table, c, x).Writes? {
      assert Takes(table[k], x.value);
    }
    if j :| 0 <= j < |table| && table[j].name == x.key && table[j].access == RW && Takes(table[j], x.value) {
      assert j == k;
    }
  }

  /** A batch has no errors exactly when each of its items can be written. */
  lemma {:induction false} NoErrorsMeans(table: seq<Desc>, c: Codec, batch: seq<Item>, size: nat)
    requires TableOk(table, size)
    ensures Errors(table, c, batch) == [] <==> forall i | 0 <= i < |batch| :: Writable(table, batch[i])
  {
    hide TableOk, Judged, Writable;
    if batch != [] {
      var n := |batch| - 1;
      NoErrorsMeans(table, c, batch[..n], size);
      JudgedMeans(table, c, batch[n], size);
      assert batch == batch[..n] + [batch[n]];
    }
  }

  /** The reason given for an item that cannot be written. */
  predicate Because(table: seq<Desc>, x: Item, e: Error) {
    if forall k | 0 <= k < |table| :: table[k].name != x.key then e == UNKNOWN_NAME
    else exists k :: 0 <= k < |table| && table[k].name == x.key && Refuses(table[k], x.value, e)
  }

  predicate Refuses(d: Desc, v: Json, e: Error) {
    match e
    case READ_ONLY => d.access != RW
    case TOO_LONG => d.access == RW && d.kind == STR && v.JString? && |v.s| >= 64
    case OUT_OF_RANGE =>
      && d.access == RW && v.JNumber? && d.kind !in {BOOL, STR, U64}
      && ((d.min.At? && v.n < d.min.value) || (d.max.At? && v.n > d.max.value))
    case TYPE_MISMATCH =>
      && d.access == RW
      && (match d.kind
          case BOOL => !v.JBool?
          case STR => !v.JString?
          case U64 => !v.JString? || ReadU64(v.s).NotANumber?
          case _ => !v.JNumber?)
    case _ => false
  }

  lemma FailedBecause(table: seq<Desc>, c: Codec, x: Item)
    ensures var o := Judged(table, c, x); o.Fails? ==> Because(table, x, o.e)
  {
    var k := Find(table, x.key, 0);
    hide Find;
    if k < |table| && Judged(table, c, x).Fails? {
      assert table[k].name == x.key && Refuses(table[k], x.value, Judged(table, c, x).e);
    }
  }

  /** The errors of a batch name its unwritable items, in its order, each with its reason. */
  predicate Explain(table: seq<Desc>, batch: seq<Item>, errors: seq<(string, Error)>) {
    if batch == [] then errors == []
    else
      var n, x := |batch| - 1, batch[|batch| - 1];
      if Writable(table, x) then Explain(table, batch[..n], errors)
      else
        && errors != [] && errors[|errors| - 1].0 == x.key && Because(table, x, errors[|errors| - 1].1)
        && Explain(table, batch[..n], errors[..|errors| - 1])
  }

  lemma {:induction false} ErrorsExplain(table: seq<Desc>, c: Codec, batch: seq<Item>, size: nat)
    requires TableOk(table, size)
    ensures Explain(table, batch, Errors(table, c, batch))
  {
    hide TableOk, Judged, Writable, Because;
    if batch != [] {
      var n := |batch| - 1;
      ErrorsExplain(table, c, batch[..n], size);
      JudgedMeans(table, c, batch[n], size);
      FailedBecause(table, c, batch[n]);
      var e := Errors(table, c, batch[..n]);
      assert forall x: (string, Error) :: (e + [x])[..|e|] == e;
      assert e + [] == e;
    }
  }

  // ---------------------------------------------------------------- values

  /** Largest distance between the whole numbers of a kind and 0, plus 1. */
  predicate InWidth(kind: Type, x: int) {
    match kind
    case U8 | ENUM => 0 <= x < 0x100
    case U16 => 0 <= x < 0x1_0000
    case U32 => 0 <= x < 0x1_0000_0000
    case I8 => -0x80 <= x < 0x80
    case I16 => -0x8000 <= x < 0x8000
    case I32 => -0x8000_0000 <= x < 0x8000_0000
    case _ => true
  }

  /** What a report shows is what was written: truth values and text as they are, 64-bit
      values as the number the text says, whole numbers cut towards zero, numbers of F32
      points as they convert. */
  predicate Same(c: Codec, kind: Type, v: Json, s: seq<u8>)
    requires |s| == Size(kind)
  {
    match kind
    case BOOL => Shown(c, kind, s) == v
    case STR => Shown(c, kind, s) == v
    case U64 => v.JString? && ReadU64(v.s) == Is(Unsigned(s))
    case F32 => v.JNumber? && NumberOf(c, kind, s) == c.toReal(c.fromReal(v.n))
    case _ =>
      && v.JNumber?
      && var x := NumberOf(c, kind, s);
         x == x.Floor as real && (if v.n >= 0.0 then 0.0 <= x <= v.n < x + 1.0 else x - 1.0 < v.n <= x <= 0.0)
  }

  lemma {:induction false} BytesOf(x: nat, n: nat)
    requires x < Pow256(n)
    ensures Unsigned(IntBytes(x, n)) == x
    decreases n
  {
    if n > 0 {
      BytesOf(x / 0x100, n - 1);
      assert IntBytes(x, n)[1..] == IntBytes(x / 0x100, n - 1);
    }
  }

  lemma SignedOf(x: int, n: nat)
    requires 0 - Pow256(n) <= 2 * x < Pow256(n) && n > 0
    ensures Signed(IntBytes(x, n)) == x
  {
    if x < 0 {
      BytesModulo(x + Pow256(n), n);
      BytesOf(x + Pow256(n), n);
    } else {
      BytesOf(x, n);
    }
  }

  lemma Widths()
    ensures Pow256(1) == 0x100 && Pow256(2) == 0x1_0000 && Pow256(4) == 0x1_0000_0000
  {
    assert Pow256(2) == 0x1_0000;
  }

  lemma NumberShown(c: Codec, kind: Type, x: int)
    requires kind !in {BOOL, STR, U64, F32} && InWidth(kind, x)
    ensures NumberOf(c, kind, IntBytes(x, Size(kind))) == x as real
  {
    hide IntBytes, Unsigned, Signed, Pow256;
    Widths();
    if kind in {I8, I16, I32} {
      SignedOf(x, Size(kind));
    } else {
      BytesOf(x, Size(kind));
    }
  }

  /** A value that can be written, and whose whole part fits the point, is shown again. */
  lemma WrittenIsShown(c: Codec, d: Desc, v: Json)
    requires CodecOk(c) && Takes(d, v) && (v.JString? ==> NulFree(v.s))
    requires v.JNumber? ==> InWidth(d.kind, Truncated(v.n))
    ensures var p := ParseValue(c, d, v); p.Bytes? && |p.d| == Size(d.kind) && Same(c, d.kind, v, p.d)
  {
    hide IntBytes, Unsigned, Signed, ReadU64, CString;
    ParsedSize(c, d, v);
    var p := ParseValue(c, d, v);
    match d.kind
    case BOOL =>
    case STR => StringReadBack(p.d, v.s);
    case U64 =>
      EightBytes();
      BytesOf(ReadU64(v.s).v, 8);
    case F32 =>
    case _ => NumberShown(c, d.kind, Truncated(v.n));
  }

  /** Item `j` is the last one of the batch that names point `i`. */
  predicate Last(table: seq<Desc>, batch: seq<Item>, i: nat, j: nat) {
    && i < |table| && j < |batch| && batch[j].key == table[i].name
    && forall k | j < k < |batch| :: batch[k].key != table[i].name
  }

  lemma {:induction false} WrittenByLast(table: seq<Desc>, c: Codec, batch: seq<Item>, size: nat, i: nat, j: nat)
    requires TableOk(table, size) && Last(table, batch, i, j) && Writable(table, batch[j])
    ensures Written(table, c, batch, i) == Judged(table, c, batch[j])
    ensures var p := ParseValue(c, table[i], batch[j].value);
      Takes(table[i], batch[j].value) && p.Bytes? && Judged(table, c, batch[j]) == Writes(i, p.d)
    decreases |batch|
  {
    var n := |batch| - 1;
    if j == n {
      JudgedMeans(table, c, batch[j], size);
    } else {
      hide Writable, Takes, ParseValue;
      WrittenByLast(table, c, batch[..n], size, i, j);
      assert batch[n].key != table[i].name;
    }
  }

  lemma {:induction false} NotNamed(table: seq<Desc>, c: Codec, batch: seq<Item>, i: nat)
    requires i < |table| && forall k | 0 <= k < |batch| :: batch[k].key != table[i].name
    ensures Written(table, c, batch, i).Fails?
  {
    if batch != [] {
      NotNamed(table, c, batch[..|batch| - 1], i);
    }
  }

  /** After a batch each point it names shows the value of the last item that names it; the
      others are as they were. */
  lemma BatchShown(table: seq<Desc>, c: Codec, batch: seq<Item>, img: seq<u8>, i: nat)
    requires TableOk(table, |img|) && CodecOk(c) && i < |table|
    requires forall k | 0 <= k < |batch| :: Writable(table, batch[k])
    ensures forall j: nat | Last(table, batch, i, j) && Plain(table[i].kind, batch[j].value) ::
      Shows(c, table[i], batch[j].value, Staged(table, c, batch, img))
    ensures (forall k | 0 <= k < |batch| :: batch[k].key != table[i].name) ==>
      SlotOf(Staged(table, c, batch, img), table[i]) == SlotOf(img, table[i])
  {
    hide Staged, Takes, Same, ParseValue, Writable, Truncated;
    StagedSlot(table, c, batch, img, i);
    forall j: nat | Last(table, batch, i, j) && Plain(table[i].kind, batch[j].value)
      ensures Shows(c, table[i], batch[j].value, Staged(table, c, batch, img))
    {
      WrittenByLast(table, c, batch, |img|, i, j);
      WrittenIsShown(c, table[i], batch[j].value);
    }
    if forall k | 0 <= k < |batch| :: batch[k].key != table[i].name {
      NotNamed(table, c, batch, i);
    }
  }

  /** Text without NUL; a number whose whole part fits the kind. */
  predicate Plain(kind: Type, v: Json) {
    (v.JString? ==> NulFree(v.s)) && (v.JNumber? ==> InWidth(kind, Truncated(v.n)))
  }

  /** The point shows the value in this image. */
  predicate Shows(c: Codec, d: Desc, v: Json, img: seq<u8>) {
    d.End() <= |img| && Same(c, d.kind, v, SlotOf(img, d))
  }
}
