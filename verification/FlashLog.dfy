/** The flash log as it is kept: slots rewritten in place at boot, records appended, the
    acknowledgement flipped without an erase. */
module FlashLog {
  import opened Bytes
  import opened FlashSlots

  const LEVEL_OFF: u8 := 0
  const LEVEL_TRACE: u8 := 5

  /** The first `max` records of at most this level, oldest first. */
  function Selected(records: seq<Record>, level: u8, max: nat): (s: seq<Record>)
    ensures |s| <= max
  {
    if records == [] || max == 0 then []
    else
      var r := records[0];
      if r.level > level then Selected(records[1..], level, max) else [r] + Selected(records[1..], level, max - 1)
  }

  lemma SelectedStep(records: seq<Record>, i: nat, level: u8, max: nat)
    requires i < |records| && max > 0
    ensures Selected(records[i..], level, max)
      == if records[i].level > level then Selected(records[i + 1..], level, max)
         else [records[i]] + Selected(records[i + 1..], level, max - 1)
  {
    assert records[i..][1..] == records[i + 1..];
  }

  /** Without a limit a read keeps the order, drops the records that are not important
      enough, and nothing else, ... */
  lemma {:induction false} SelectedFilters(xs: seq<Record>, ys: seq<Record>, r: Record, level: u8)
    ensures Selected(xs + ys, level, |xs + ys|) == Selected(xs, level, |xs|) + Selected(ys, level, |ys|)
    ensures Selected([r], level, 1) == if r.level <= level then [r] else []
  {
    assert [r][1..] == [];
    if xs == [] {
      assert xs + ys == ys;
    } else {
      assert (xs + ys)[1..] == xs[1..] + ys;
      SelectedFilters(xs[1..], ys, r, level);
      SelectedCut(xs[1..] + ys, level, |xs + ys|);
      SelectedCut(xs[1..], level, |xs|);
    }
  }

  /** ... with a limit it delivers the first so many of these. */
  lemma {:induction false} SelectedCut(rs: seq<Record>, level: u8, max: nat)
    ensures var all := Selected(rs, level, |rs|);
      Selected(rs, level, max) == if max < |all| then all[..max] else all
    decreases |rs|
  {
    if rs != [] && max > 0 {
      SelectedCut(rs[1..], level, max);
      SelectedCut(rs[1..], level, max - 1);
      SelectedCut(rs[1..], level, |rs|);
      SelectedCut(rs[1..], level, |rs| - 1);
      SelectedBound(rs[1..], level, |rs| - 1);
    } else if rs != [] {
      assert Selected(rs, level, |rs|)[..0] == [];
    }
  }

  lemma {:induction false} SelectedBound(rs: seq<Record>, level: u8, max: nat)
    ensures |Selected(rs, level, max)| <= |rs| && |Selected(rs, level, max)| <= max
    decreases |rs|
  {
    if rs != [] && max > 0 {
      SelectedBound(rs[1..], level, max);
      SelectedBound(rs[1..], level, max - 1);
    }
  }

  method Select(records: seq<Record>, level: u8, max: nat) returns (out: seq<Record>)
    ensures out == Selected(records, level, max)
  {
    hide Selected;
    out := [];
    var i := 0;
    assert records[0..] == records;
    while i < |records| && |out| < max
      invariant i <= |records| && |out| <= max
      invariant out + Selected(records[i..], level, max - |out|) == Selected(records, level, max)
    {
      SelectedStep(records, i, level, max - |out|);
      ghost var rest := Selected(records[i + 1..], level, max - |out| - 1);
      if records[i].level <= level {
        assert out + ([records[i]] + rest) == (out + [records[i]]) + rest;
        out := out + [records[i]];
      }
      i := i + 1;
    }
    SelectedEnd(records[i..], level, max - |out|);
  }

  lemma SelectedEnd(records: seq<Record>, level: u8, max: nat)
    requires records == [] || max == 0
    ensures Selected(records, level, max) == []
  {
  }

  method Choose(a: Slot, b: Slot) returns (own: nat)
    ensures own == Own(a, b)
  {
    if a.Invalid? { return 0; }
    if b.Invalid? { return 1; }
    if a.acked == 0 && b.acked != 0 { return 0; }
    if b.acked == 0 && a.acked != 0 { return 1; }
    own := if a.generation <= b.generation then 0 else 1;
  }

  class Store {
    const slots: array<Slot>
    var active: bool
    var own: nat
    var offered: bool
    var prevId: u32

    ghost predicate Ok()
      reads this
    {
      slots.Length == 2 && own <= 1
    }

    ghost function Model(): (d: Device)
      reads this, slots
      requires Ok()
      ensures Shape(d)
    {
      Device(slots[..], active, own, offered, prevId)
    }

    constructor ()
      ensures Ok() && Model() == START.d && fresh(slots)
    {
      slots := new Slot[2](_ => Invalid);
      active, own, offered, prevId := false, 0, false, 0;
      new;
      assert slots[..] == [Invalid, Invalid];
    }

    /** At boot; `reach` is how far the power lasts, or flash obeys. */
    method Init(bootId: u32, reach: Reach, ok0: bool, ok1: bool)
      requires Ok()
      modifies this, slots
      ensures Ok() && Model() == Booted(old(Model()), bootId, reach, ok0, ok1)
    {
      hide NextGeneration, Own;
      ghost var was := slots[..];
      var a, b := Seen(slots[0], ok0), Seen(slots[1], ok1);
      own := Choose(a, b);
      var prev := if own == 0 then b else a;
      offered := prev.Valid? && prev.acked != 0 && prev.bootId != bootId;
      prevId := if prev.Valid? then prev.bootId else 0;
      active := false;
      if reach == Untouched { return; }
      slots[own] := Invalid;
      assert slots[..] == was[own := Invalid];
      if reach == ErasedOnly { return; }
      slots[own] := Valid(bootId, NextGeneration(a, b), PENDING, []);
      assert slots[..] == was[own := Valid(bootId, NextGeneration(a, b), PENDING, [])];
      active := true;
    }

    method Append(r: Record)
      requires Ok()
      modifies slots
      ensures Model() == Appended(old(Model()), r)
    {
      if active && slots[own].Valid? {
        slots[own] := slots[own].(records := slots[own].records + [r]);
      }
    }

    method ReadPreviousBoot(minLevel: u8, max: nat) returns (out: seq<Record>)
      requires Ok()
      ensures out == if !offered || !active || slots[1 - own].Invalid? then []
                     else Selected(slots[1 - own].records, if minLevel == LEVEL_OFF then LEVEL_TRACE else minLevel, max)
    {
      if !offered || !active || slots[1 - own].Invalid? { return []; }
      out := Select(slots[1 - own].records, if minLevel == LEVEL_OFF then LEVEL_TRACE else minLevel, max);
    }

    method AckPreviousBoot(bootId: u32) returns (ok: bool)
      requires Ok()
      modifies this`offered, slots
      ensures Ok() && Model() == Acked(old(Model()), bootId)
      ensures ok == (old(offered) && active && (bootId == 0 || bootId == prevId))
    {
      if !offered || !active { return false; }
      if bootId != 0 && bootId != prevId { return false; }
      if slots[1 - own].Valid? {
        slots[1 - own] := slots[1 - own].(acked := 0);
      }
      offered := false;
      return true;
    }
  }

  /** What a completed boot logged, its successor reads back: everything up to the level
      asked for and the room given, until it is acknowledged. */
  lemma NextBootReads(w: World, s: Step)
    requires Safe(w) && w.known && s.Boot? && Readable(s) && s.reach == Complete && s.bootId != w.bootId
    requires w.boots + 1 < TWO_32
    ensures var d := FlashSlots.Next(w, s).d;
      && d.offered && d.active && d.prevId == w.bootId
      && d.slots[1 - d.own].Valid? && d.slots[1 - d.own].records == w.records
  {
    hide NextGeneration;
    BootSpares(w, s);
  }
}
