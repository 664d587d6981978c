/** The flash log: two slots, each with a header and the records of one boot. The slot to
    erase is chosen at boot; the power may fail between the erase and the header. */
module FlashSlots {
  import opened Bytes

  const PENDING: u32 := 0xFFFF_FFFF

  datatype Record = Record(level: u8, payload: seq<u8>)

  /** A slot without a valid header, or one boot's header and records. */
  datatype Slot = Invalid | Valid(bootId: u32, generation: u32, acked: u32, records: seq<Record>)

  /** How far a boot gets with flash: not even the erase, the erase only, the header too. */
  datatype Reach = Untouched | ErasedOnly | Complete

  // ---------------------------------------------------------------- slot choice

  /** What the boot reads of a slot: a header that cannot be read counts as invalid. */
  function Seen(s: Slot, readable: bool): Slot { if readable then s else Invalid }

  /** The slot a boot takes: an invalid or acknowledged one, else the older generation. */
  function Own(a: Slot, b: Slot): (k: nat)
    ensures k <= 1
  {
    if a.Invalid? then 0
    else if b.Invalid? then 1
    else if a.acked == 0 && b.acked != 0 then 0
    else if b.acked == 0 && a.acked != 0 then 1
    else if a.generation <= b.generation then 0 else 1
  }

  function After(s: Slot, gen: u32): u32 {
    if s.Valid? && s.generation >= gen then Wrap32(s.generation + 1) else gen
  }

  function NextGeneration(a: Slot, b: Slot): u32 { After(b, After(a, 1)) }

  // ---------------------------------------------------------------- the device

  /** Flash, and what the running boot knows: whether its tier is active, its slot, whether
      records of an earlier boot are on offer, and whose. */
  datatype Device = Device(slots: seq<Slot>, active: bool, own: nat, offered: bool, prevId: u32)

  predicate Shape(d: Device) { |d.slots| == 2 && d.own <= 1 }

  function Booted(d: Device, bootId: u32, reach: Reach, ok0: bool, ok1: bool): (m: Device)
    requires Shape(d)
    ensures Shape(m)
  {
    var a, b := Seen(d.slots[0], ok0), Seen(d.slots[1], ok1);
    var own := Own(a, b);
    var prev := if own == 0 then b else a;
    var offered := prev.Valid? && prev.acked != 0 && prev.bootId != bootId;
    var prevId := if prev.Valid? then prev.bootId else 0;
    var slots := match reach
      case Untouched => d.slots
      case ErasedOnly => d.slots[own := Invalid]
      case Complete => d.slots[own := Valid(bootId, NextGeneration(a, b), PENDING, [])];
    Device(slots, reach == Complete, own, offered, prevId)
  }

  function Appended(d: Device, r: Record): (m: Device)
    requires Shape(d)
    ensures Shape(m)
  {
    var s := d.slots[d.own];
    if !d.active || s.Invalid? then d else d.(slots := d.slots[d.own := s.(records := s.records + [r])])
  }

  /** The server acknowledges the earlier boot's records (boot id 0: whichever they are). */
  function Acked(d: Device, bootId: u32): (m: Device)
    requires Shape(d)
    ensures Shape(m)
  {
    var s := d.slots[1 - d.own];
    if !d.offered || !d.active || (bootId != 0 && bootId != d.prevId) then d
    else d.(slots := if s.Valid? then d.slots[1 - d.own := s.(acked := 0)] else d.slots, offered := false)
  }

  datatype Step =
    | Boot(bootId: u32, reach: Reach, ok0: bool, ok1: bool)
    | Append(r: Record)
    | Ack(bootId: u32)

  /** A device and what an observer remembers of the most recent boot that completed its
      header: its slot, its boot id, its records; and how many boots there were. */
  datatype World = World(d: Device, boots: nat, known: bool, slot: nat, bootId: u32, records: seq<Record>)

  function Next(w: World, s: Step): (m: World)
    requires Shape(w.d)
    ensures Shape(m.d)
  {
    match s
    case Boot(id, reach, ok0, ok1) =>
      var d := Booted(w.d, id, reach, ok0, ok1);
      if reach == Complete then World(d, w.boots + 1, true, d.own, id, []) else w.(d := d, boots := w.boots + 1)
    case Append(r) =>
      w.(d := Appended(w.d, r), records := if w.d.active then w.records + [r] else w.records)
    case Ack(id) => w.(d := Acked(w.d, id))
  }

  /** Header reads succeed. */
  predicate Readable(s: Step) { s.Boot? ==> s.ok0 && s.ok1 }

  const START := World(Device([Invalid, Invalid], false, 0, false, 0), 0, false, 0, 0, [])

  function Run(steps: seq<Step>): (w: World)
    ensures Shape(w.d)
  {
    if steps == [] then START else Next(Run(steps[..|steps| - 1]), steps[|steps| - 1])
  }

  // ---------------------------------------------------------------- the invariant

  predicate GenerationOk(s: Slot, boots: nat) { s.Valid? ==> s.generation <= boots }

  /** The most recent completed boot's slot is intact, unacknowledged, and the newest; while
      that boot runs it is its own slot. */
  predicate Safe(w: World) {
    && Shape(w.d) && w.slot <= 1
    && GenerationOk(w.d.slots[0], w.boots) && GenerationOk(w.d.slots[1], w.boots)
    && (if w.known then
          && var s, other := w.d.slots[w.slot], w.d.slots[1 - w.slot];
          && s.Valid? && s.bootId == w.bootId && s.records == w.records && s.acked == PENDING
          && (other.Valid? ==> other.generation < s.generation)
          && (w.d.active ==> w.d.own == w.slot)
        else w.d.slots == [Invalid, Invalid] && !w.d.active)
  }

  /** Reading both headers, a boot chooses the other slot than the most recent one. */
  lemma OwnSpares(w: World)
    requires Safe(w)
    ensures w.known ==> Own(w.d.slots[0], w.d.slots[1]) == 1 - w.slot
  {
  }

  /** ... and its generation is above every other. */
  lemma GenerationGrows(w: World)
    requires Safe(w) && w.boots + 1 < TWO_32
    ensures var g := NextGeneration(w.d.slots[0], w.d.slots[1]);
      && g <= w.boots + 1
      && (forall k | 0 <= k <= 1 && w.d.slots[k].Valid? :: w.d.slots[k].generation < g)
  {
  }

  /** A boot that reads both headers never takes the slot of the most recent completed
      boot; it gives its own slot a generation above every other. */
  lemma BootSpares(w: World, s: Step)
    requires Safe(w) && s.Boot? && Readable(s) && w.boots + 1 < TWO_32
    ensures var m := Next(w, s);
      && Safe(m) && (w.known ==> m.d.own != w.slot && m.d.slots[w.slot] == w.d.slots[w.slot])
      && (w.known ==> (m.d.offered <==> s.bootId != w.bootId) && m.d.prevId == w.bootId)
  {
    hide Own, NextGeneration;
    OwnSpares(w);
    GenerationGrows(w);
  }

  lemma StepSafe(w: World, s: Step)
    requires Safe(w) && Readable(s) && w.boots + 1 < TWO_32
    ensures Safe(Next(w, s))
  {
    hide NextGeneration;
    match s
    case Boot(_, _, _, _) => BootSpares(w, s);
    case Append(r) =>
    case Ack(id) => AckSafe(w, id);
  }

  /** Only a boot that completed its own header acknowledges, and never its own slot. */
  lemma AckSafe(w: World, id: u32)
    requires Safe(w)
    ensures Safe(Next(w, Ack(id)))
  {
  }

  /** An acknowledgement is taken exactly by a running boot that still offers that earlier
      boot's records (boot id 0: whichever they are). It is in flash: they are not offered
      again, and the next boot that reads the headers reuses their slot, whoever else writes. */
  lemma AckIsDurable(w: World, id: u32, next: Step)
    requires Safe(w) && next.Boot? && Readable(next)
    ensures var d, m := w.d, Next(w, Ack(id)).d;
      if d.offered && d.active && (id == 0 || id == d.prevId) then
        && !m.offered && m.active && m.own == d.own && m.slots[d.own] == d.slots[d.own]
        && (d.slots[1 - d.own].Valid? ==> m.slots[1 - d.own] == d.slots[1 - d.own].(acked := 0))
        && Next(Next(w, Ack(id)), next).d.own == 1 - d.own
      else m == d
  {
    hide NextGeneration;
  }

  function Boots(steps: seq<Step>): nat {
    if steps == [] then 0 else Boots(steps[..|steps| - 1]) + if steps[|steps| - 1].Boot? then 1 else 0
  }

  predicate AllReadable(steps: seq<Step>) {
    forall i | 0 <= i < |steps| :: Readable(steps[i])
  }

  lemma {:induction false} RunSafe(steps: seq<Step>)
    requires AllReadable(steps) && Boots(steps) + 1 < TWO_32
    ensures Safe(Run(steps)) && Run(steps).boots == Boots(steps)
  {
    hide Safe, Next, Readable;
    if steps == [] {
      StartSafe();
    } else {
      var k := |steps| - 1;
      RunSafe(steps[..k]);
      assert Readable(steps[k]);
      StepSafe(Run(steps[..k]), steps[k]);
      CountsBoots(Run(steps[..k]), steps[k]);
    }
  }

  lemma StartSafe()
    ensures Safe(START) && START.boots == 0
  {
  }

  lemma CountsBoots(w: World, s: Step)
    requires Shape(w.d)
    ensures Next(w, s).boots == w.boots + if s.Boot? then 1 else 0
  {
  }

  /** Over every run of boots, power failures, appends and acknowledgements: the records of
      the most recent boot that completed its header are in flash, all of them,
      unacknowledged and under the largest generation; the next boot spares them and offers
      them to the server. */
  lemma LatestBootSurvives(steps: seq<Step>, next: Step)
    requires AllReadable(steps) && Boots(steps) + 1 < TWO_32 && Run(steps).known
    requires next.Boot? && Readable(next)
    ensures var w, m := Run(steps), Run(steps + [next]);
      && w.slot <= 1 && |w.d.slots| == 2
      && var s := w.d.slots[w.slot];
      && s.Valid? && s.bootId == w.bootId && s.records == w.records && s.acked == PENDING
      && (w.d.slots[1 - w.slot].Valid? ==> w.d.slots[1 - w.slot].generation < s.generation)
      && |m.d.slots| == 2 && m.d.slots[w.slot] == s && m.d.own == 1 - w.slot
      && (m.d.offered <==> next.bootId != w.bootId)
  {
    hide Next, Run, Readable, NextGeneration;
    RunSafe(steps);
    RunMore(steps, next);
    BootSpares(Run(steps), next);
  }

  lemma RunMore(steps: seq<Step>, next: Step)
    ensures Run(steps + [next]) == Next(Run(steps), next)
  {
    assert (steps + [next])[..|steps|] == steps;
  }

  /** A header that cannot be read costs the slot exactly when it is the one to spare, and
      no other slot looks invalid before it. */
  lemma UnreadableHeader(w: World, s: Step)
    requires Safe(w) && w.known && s.Boot?
    ensures Next(w, s).d.own == w.slot <==>
      if w.slot == 0 then !s.ok0 else !s.ok1 && s.ok0 && w.d.slots[0].Valid?
  {
  }

  /** Whatever is in flash, the slot a boot takes is one without a header, or an acknowledged
      one, or, if both or neither are acknowledged, not the newer one. */
  lemma OwnIsLeastLoss(a: Slot, b: Slot)
    ensures var victim, spared := if Own(a, b) == 0 then a else b, if Own(a, b) == 0 then b else a;
      && (spared.Invalid? ==> victim.Invalid?)
      && (victim.Valid? ==> (spared.acked == 0 ==> victim.acked == 0)
                            && ((spared.acked == 0) == (victim.acked == 0) ==> victim.generation <= spared.generation))
  {
  }

  /** What a boot offers is in the other slot, unacknowledged, and from another boot. */
  lemma OfferIsUnread(d: Device, bootId: u32, reach: Reach)
    requires Shape(d)
    ensures var m := Booted(d, bootId, reach, true, true); var s := m.slots[1 - m.own];
      && s == d.slots[1 - m.own]
      && (m.offered <==> s.Valid? && s.acked != 0 && s.bootId != bootId)
      && (s.Valid? ==> m.prevId == s.bootId)
  {
    hide NextGeneration;
  }

  /** Such a run: the first boot logs a record; the second cannot read that header and takes
      the slot, though the other one is free. Nothing of the first boot is left, and nothing
      is on offer. */
  lemma LosesLatestBoot(r: Record)
    ensures var logged := Run([Boot(1, Complete, true, true), Append(r)]);
      logged.known && logged.bootId == 1 && logged.records == [r] && logged.d.slots[0] == Valid(1, 1, PENDING, [r])
    ensures var m := Run([Boot(1, Complete, true, true), Append(r), Boot(2, Complete, false, true)]);
      m.d.slots == [Valid(2, 1, PENDING, []), Invalid] && !m.d.offered
  {
    hide Run, NextGeneration;
    var boot, logs, again := Boot(1, Complete, true, true), Append(r), Boot(2, Complete, false, true);
    assert NextGeneration(Invalid, Invalid) == 1 by { NextGenerationFresh(); }
    RunNone();
    RunMore([], boot);
    RunMore([boot], logs);
    RunMore([boot, logs], again);
    assert [] + [boot] == [boot] && [boot] + [logs] == [boot, logs] && [boot, logs] + [again] == [boot, logs, again];
  }

  lemma NextGenerationFresh()
    ensures NextGeneration(Invalid, Invalid) == 1
  {
  }

  lemma RunNone()
    ensures Run([]) == START
  {
  }
}
