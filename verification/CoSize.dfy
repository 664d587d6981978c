/** The length of a segmented download against the size its request announces. */
module CoSize {
  import opened Bytes
  import opened CoTypes
  import opened CoDictionary
  import opened CoSdo
  import opened CoNet
  import opened CoInvariant
  import opened CoUpload

  ghost predicate Legal<A>(steps: seq<Step<A>>) {
    forall s | s in steps :: s.EmergencyCall? ==> |s.mfr| == 5
  }

  /** If the event is a write by a segmented download whose request announces `size`, that
      many bytes were written. */
  predicate SizeKept(e: Event, size: u32) {
    (e.Wrote? && e.source.Segmented? && e.source.frames != []
     && Sized(e.source.frames[0]) && SizeField(e.source.frames[0]) == size) ==> |e.data| == size
  }

  /** ... for every event of every run. */
  ghost predicate AlwaysKept<A(!new)>(cfg: Config, app: A, now: u32, env: Env<A>, size: u32)
    requires EnvOk(env)
  {
    forall steps: seq<Step<A>>, i: nat | Legal(steps) && i < |Run(cfg, app, now, env, steps).trace| ::
      SizeKept(Run(cfg, app, now, env, steps).trace[i], size)
  }

  /** A request for object 0x2000 that announces size 0, and a segment of seven bytes that is
      marked as the last. */
  function ZeroRequest(nodeId: nat): Frame { Frame(0x600 + nodeId % 128, 8, false, [0x21, 0, 0x20, 0, 0, 0, 0, 0]) }

  function SevenBytes(nodeId: nat): Frame { Frame(0x600 + nodeId % 128, 8, false, [0x01, 1, 2, 3, 4, 5, 6, 7]) }

  lemma ZeroFields(nodeId: nat)
    ensures var f := ZeroRequest(nodeId);
      && Ccs(f) == 1 && !IsExpedited(f) && Index(f) == 0x2000 && Sub(f) == 0
      && Sized(f) && SizeField(f) == 0 && Expected(f) == 0
    ensures var f := SevenBytes(nodeId);
      Ccs(f) == 0 && ToggleBit(f) == 0 && LastBit(f) && SegLength(f) == 7 && f.data[1..8] == [1, 2, 3, 4, 5, 6, 7]
  {
    assert ZeroRequest(nodeId).data[1..3] == [0, 0x20];
    assert ZeroRequest(nodeId).data[4..8] == [0, 0, 0, 0];
  }

  /** Announced with size 0, seven bytes are written. */
  lemma ZeroIsWritten<A(!new)>(n: Node<A>, env: Env<A>, now: u32)
    requires NodeOk(n) && EnvOk(env) && n.nmt == PREOPERATIONAL
    ensures var f, g := ZeroRequest(n.cfg.nodeId), SevenBytes(n.cfg.nodeId);
      && NodeOk(Received(n, env, f, now))
      && var m := Received(Received(n, env, f, now), env, g, now);
      exists i: nat :: i < |m.trace| && m.trace[i].Wrote? && m.trace[i].data == [1, 2, 3, 4, 5, 6, 7]
                       && m.trace[i].source == Segmented([f, g])
  {
    hide NodeOk, EnvOk, Shape, SdoOk, Ccs, Index, Sub, Sized, SizeField, Expected, IsExpedited, ToggleBit, LastBit,
         SegLength, DownloadStarted, DownloadSegment, Received;
    var f, g := ZeroRequest(n.cfg.nodeId), SevenBytes(n.cfg.nodeId);
    ZeroFields(n.cfg.nodeId);
    ReceivedOk(n, env, f, now);
    var a := RequestTaken(n, env, f, now);
    var i := SegmentTaken(Received(n, env, f, now), env, g, now, [f]);
  }

  lemma RequestTaken<A>(n: Node<A>, env: Env<A>, f: Frame, now: u32) returns (m: Node<A>)
    requires NodeOk(n) && n.nmt == PREOPERATIONAL && f.id == 0x600 + n.cfg.nodeId % 128 && f.dlc == 8 && !f.rtr
    requires Ccs(f) == 1 && !IsExpedited(f) && Index(f) == 0x2000 && Sub(f) == 0 && Expected(f) == 0
    ensures m == Received(n, env, f, now)
    ensures m.cfg == n.cfg && m.nmt == PREOPERATIONAL && m.sdo == Downloading(0x2000, 0, 0, [], 0, now, [f])
  {
    hide NodeOk, Shape, SdoOk, Ccs, Index, Sub, Expected, IsExpedited, Multiplexed;
    AtTime(n, now);
    NodeTransferOk(n);
    NodeTransferOk(n.(now := now));
    NodeNumber(n);
    m := Received(n, env, f, now);
  }

  lemma SegmentTaken<A>(n: Node<A>, env: Env<A>, g: Frame, now: u32, before: seq<Frame>) returns (i: nat)
    requires NodeOk(n) && n.nmt == PREOPERATIONAL && g.id == 0x600 + n.cfg.nodeId % 128 && g.dlc == 8 && !g.rtr
    requires n.sdo.Downloading? && n.sdo.toggle == 0 && n.sdo.expected == 0 && n.sdo.got == [] && n.sdo.frames == before
    requires Ccs(g) == 0 && ToggleBit(g) == 0 && LastBit(g) && SegLength(g) == 7
    ensures var m := Received(n, env, g, now);
      && i < |m.trace| && m.trace[i].Wrote?
      && m.trace[i].data == g.data[1..8] && m.trace[i].source == Segmented(before + [g])
  {
    hide NodeOk, Shape, SdoOk, Ccs, OdWrite, Multiplexed, ToggleBit, LastBit, SegLength;
    AtTime(n, now);
    NodeTransferOk(n);
    NodeTransferOk(n.(now := now));
    NodeNumber(n);
    HasMappings(n.(now := now));
    assert [] + g.data[1..8] == g.data[1..8];
    WriteKeepsMappings(n.(now := now), env, n.sdo.index, n.sdo.sub, g.data[1..8], Segmented(before + [g]));
    i := |n.trace|;
  }

  /** Two steps of a run: the request, and its only segment. */
  lemma ZeroRun<A(!new)>(cfg: Config, app: A, now: u32, env: Env<A>) returns (steps: seq<Step<A>>, i: nat)
    requires EnvOk(env)
    ensures Legal(steps) && i < |Run(cfg, app, now, env, steps).trace|
    ensures !SizeKept(Run(cfg, app, now, env, steps).trace[i], 0)
  {
    hide NodeOk, EnvOk, Received, Run, Initialised, Sized, SizeField, Expected;
    var n := Initialised(cfg, app, now);
    StartOk(cfg, app, now);
    StartPreoperational(cfg, app, now);
    var f, g := ZeroRequest(n.cfg.nodeId), SevenBytes(n.cfg.nodeId);
    steps := [Rx(f, now), Rx(g, now)];
    ZeroIsWritten(n, env, now);
    ZeroFields(n.cfg.nodeId);
    TwoSteps(cfg, app, now, env, f, g);
    var m := Received(Received(n, env, f, now), env, g, now);
    i :| i < |m.trace| && m.trace[i].Wrote? && m.trace[i].data == [1, 2, 3, 4, 5, 6, 7]
         && m.trace[i].source == Segmented([f, g]);
  }

  lemma StartPreoperational<A>(cfg: Config, app: A, now: u32)
    ensures Initialised(cfg, app, now).nmt == PREOPERATIONAL
  {
  }

  lemma TwoSteps<A(!new)>(cfg: Config, app: A, now: u32, env: Env<A>, f: Frame, g: Frame)
    requires EnvOk(env)
    requires NodeOk(Initialised(cfg, app, now)) && NodeOk(Received(Initialised(cfg, app, now), env, f, now))
    ensures Legal<A>([Rx(f, now), Rx(g, now)])
    ensures Run(cfg, app, now, env, [Rx(f, now), Rx(g, now)])
         == Received(Received(Initialised(cfg, app, now), env, f, now), env, g, now)
  {
    hide NodeOk, EnvOk, Received, Initialised;
    var two: seq<Step<A>> := [Rx(f, now), Rx(g, now)];
    assert two[..1] == [Rx(f, now)] && two[..1][..0] == [];
    assert Run(cfg, app, now, env, []) == Initialised(cfg, app, now);
  }

  /** In every run a segmented download whose request announces `size` writes that many
      bytes, if and only if `size` is not 0. */
  lemma ExactlyNonzeroSizes<A(!new)>(cfg: Config, app: A, now: u32, env: Env<A>, size: u32)
    requires EnvOk(env)
    ensures AlwaysKept(cfg, app, now, env, size) <==> size != 0
  {
    hide Run, Complete, Sized, SizeField;
    if size == 0 {
      var steps, i := ZeroRun(cfg, app, now, env);
    } else {
      forall steps: seq<Step<A>>, i: nat | Legal(steps) && i < |Run(cfg, app, now, env, steps).trace|
        ensures SizeKept(Run(cfg, app, now, env, steps).trace[i], size)
      {
        RunIsSafe(cfg, app, now, env, steps, i);
      }
    }
  }
}
