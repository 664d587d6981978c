/** When a trial is safe, and when the backup is a configuration that a session stored. */
module TrialExact {
  import opened TrialSpec
  import opened TrialSafety

  /** A device that arms a trial of `n` with backup `b`. */
  predicate Arms(d: Device, n: Net, b: Net) {
    && d.on && d.flag != 1 && Armed(d).flag == 1 && !d.confirmed
    && NetOf(d.ram) == n && BackupOf(d.ram) == b
  }

  /** In every run of every such device, with sessions before the reboot or without, all
      boots after the first connect with the backup until a session confirms. */
  ghost predicate FallsBack(n: Net, b: Net, defaults: Net, early: bool) {
    forall d: Device, steps: seq<Step>, i: nat | Arms(d, n, b) && (early || NoEarlySession(steps)) ::
      var m := Run(Armed(d).(connects := []), defaults, steps);
      !m.confirmed && 1 <= i < |m.connects| ==> m.connects[i] == b
  }

  function ImageOf(n: Net, b: Net): Image {
    WithBackup(n + n, b)
  }

  /** A trial falls back to its backup in every run if and only if no session is allowed
      between the arming and the reboot. */
  lemma ExactlyWithoutEarlySession(n: Net, b: Net, defaults: Net, early: bool)
    requires n != b && Ssid(n) != "" && Ssid(b) != ""
    ensures FallsBack(n, b, defaults, early) <==> !early
  {
    hide Run, Arms, Armed, NoEarlySession;
    if early {
      var d := Device(ImageOf(n, b), 0, ImageOf(n, b), false, 0, 100, true, [], false);
      ArmsTrial(d, n, b);
      EarlyRun(d, n, b, defaults);
      var m := Run(Armed(d).(connects := []), defaults, [Session, Boot(40, 0), Boot(40, 0)]);
      assert !m.confirmed && m.connects[1] != b;
    } else {
      forall d: Device, steps: seq<Step>, i: nat | Arms(d, n, b) && NoEarlySession(steps)
        ensures var m := Run(Armed(d).(connects := []), defaults, steps);
          !m.confirmed && 1 <= i < |m.connects| ==> m.connects[i] == b
      {
        ArmedTrial(d, n, b, defaults, steps, i);
      }
    }
  }

  lemma ArmedTrial(d: Device, n: Net, b: Net, defaults: Net, steps: seq<Step>, i: nat)
    requires Arms(d, n, b) && NoEarlySession(steps)
    ensures var m := Run(Armed(d).(connects := []), defaults, steps);
      !m.confirmed && 1 <= i < |m.connects| ==> m.connects[i] == b
  {
    hide Run, Armed, NoEarlySession, BackupOf, NetOf;
    AtMostOneTrialBoot(d, defaults, steps, i);
  }

  lemma ArmsTrial(d: Device, n: Net, b: Net)
    requires d == Device(ImageOf(n, b), 0, ImageOf(n, b), false, 0, 100, true, [], false) && Ssid(b) != ""
    ensures NetOf(d.ram) == n && BackupOf(d.ram) == b && Arms(d, n, b)
  {
    WithBackupParts(n + n, b);
    assert NetOf(n + n) == n;
    hide SavedFrom, WithBackup, BackupOf, NetOf;
    SavePower(d);
  }

  lemma EarlyRun(d: Device, n: Net, b: Net, defaults: Net)
    requires d == Device(ImageOf(n, b), 0, ImageOf(n, b), false, 0, 100, true, [], false) && Ssid(b) != ""
    requires n != b && Ssid(n) != "" && NetOf(d.ram) == n && BackupOf(d.ram) == b
    ensures var m := Run(Armed(d).(connects := []), defaults, [Session, Boot(40, 0), Boot(40, 0)]);
      !m.confirmed && m.connects == [n, n]
  {
    hide Next, BackupOf, NetOf, Armed, ImageOf;
    EarlySessionLosesBackup(d, defaults, 0);
    var a := Armed(d).(connects := []);
    var steps := [Session, Boot(40, 0), Boot(40, 0)];
    assert steps[..2] == [Session, Boot(40, 0)] && steps[..2][..1] == [Session] && steps[..2][..1][..0] == [];
    assert Run(a, defaults, []) == a;
    assert Run(a, defaults, [Session]) == Next(a, defaults, Session);
    assert Run(a, defaults, steps[..2]) == Next(Next(a, defaults, Session), defaults, Boot(40, 0));
  }

  // ---------------------------------------------------------------- the backup itself

  /** The steps of a device, writes to its Network_* points and armings. */
  datatype Act = Do(s: Step) | Write(n: Net) | Arm

  /** A device, and the configurations it had at a session (or had stored before). */
  datatype World = World(d: Device, stored: set<Net>)

  function Written(d: Device, n: Net): Device {
    if d.on then Saved(d.(ram := WithNet(d.ram, n))) else d
  }

  function Acted(w: World, defaults: Net, a: Act): World {
    match a
    case Do(s) =>
      World(Next(w.d, defaults, s), if s.Session? && w.d.on then w.stored + {NetOf(w.d.ram)} else w.stored)
    case Write(n) => w.(d := Written(w.d, n))
    case Arm => w.(d := if w.d.on then Armed(w.d) else w.d)
  }

  function Lived(w: World, defaults: Net, acts: seq<Act>): World {
    if acts == [] then w else Acted(Lived(w, defaults, acts[..|acts| - 1]), defaults, acts[|acts| - 1])
  }

  /** The power fails while a session is being handled. */
  predicate CutOff(w: World, defaults: Net, a: Act) {
    a == Do(Session) && w.d.on && !Acted(w, defaults, a).d.on
  }

  predicate NeverCutOff(w: World, defaults: Net, acts: seq<Act>) {
    acts == [] ||
    var k := |acts| - 1;
    NeverCutOff(w, defaults, acts[..k]) && !CutOff(Lived(w, defaults, acts[..k]), defaults, acts[k])
  }

  /** The backup is one of the stored configurations, in memory as in flash. */
  predicate Whole(w: World) {
    BackupOf(w.d.nvs) in w.stored && (w.d.on ==> BackupOf(w.d.ram) == BackupOf(w.d.nvs))
  }

  /** In every run, with power failures during sessions or without, the backup in flash is
      a configuration that some session stored. */
  ghost predicate AlwaysStored(defaults: Net, failures: bool) {
    forall w: World, acts: seq<Act> | Whole(w) && (failures || NeverCutOff(w, defaults, acts)) ::
      BackupOf(Lived(w, defaults, acts).d.nvs) in Lived(w, defaults, acts).stored
  }

  lemma SaveWhole(d: Device, n: Net)
    requires BackupOf(d.ram) == BackupOf(d.nvs)
    ensures var m := Saved(d.(ram := WithNet(d.ram, n)));
      BackupOf(m.nvs) == BackupOf(d.nvs) && BackupOf(m.ram) == BackupOf(d.nvs)
  {
    hide SavedFrom, WithNet, BackupOf, NetOf;
    WithNetParts(d.ram, n);
    SaveFacts(d.(ram := WithNet(d.ram, n)));
  }

  lemma RollbackWhole(d: Device)
    requires BackupOf(d.ram) == BackupOf(d.nvs)
    ensures var m := RolledBack(d); BackupOf(m.nvs) == BackupOf(d.nvs) == BackupOf(m.ram)
  {
    hide Saved, WithNet, BackupOf;
    SaveWhole(d, BackupOf(d.ram));
  }

  lemma CheckWhole(d: Device, up: nat)
    requires BackupOf(d.ram) == BackupOf(d.nvs)
    ensures var m := BootChecked(d, up); BackupOf(m.nvs) == BackupOf(d.nvs) == BackupOf(m.ram)
  {
    hide RolledBack, BackupOf;
    RollbackWhole(d);
  }

  lemma BootWhole(d: Device, power: nat, up: nat, defaults: Net)
    ensures var m := Booted(d, power, up, defaults); BackupOf(m.nvs) == BackupOf(d.nvs) == BackupOf(m.ram)
  {
    hide Saved, WithNet, BackupOf, NetOf, BootChecked;
    var a := PoweredUp(d, power);
    SaveWhole(a, defaults);
    CheckWhole(DefaultsApplied(a, defaults), up);
  }

  lemma SessionWhole(d: Device)
    requires d.on && BackupOf(d.ram) == BackupOf(d.nvs)
    ensures var m := BackedUp(Confirmed(d));
      m.on ==> BackupOf(m.ram) == BackupOf(m.nvs) && BackupOf(m.nvs) == NetOf(d.ram)
  {
    hide SavedFrom, WithBackup, BackupOf, NetOf;
    var m := Confirmed(d);
    WithBackupParts(m.ram, NetOf(m.ram));
    SaveFacts(m.(ram := WithBackup(m.ram, NetOf(m.ram))));
  }

  lemma ActWhole(w: World, defaults: Net, a: Act)
    requires Whole(w) && !CutOff(w, defaults, a)
    ensures Whole(Acted(w, defaults, a))
  {
    hide Saved, WithNet, WithBackup, BackupOf, NetOf, Booted, BackedUp, Confirmed, RolledBack;
    match a
    case Write(n) => if w.d.on { SaveWhole(w.d, n); }
    case Arm => if w.d.on { ArmWhole(w.d); }
    case Do(s) =>
      match s {
        case Boot(power, up) => BootWhole(w.d, power, up, defaults);
        case Save => if w.d.on { SaveAsIs(w.d); }
        case RestoreBackup => if w.d.on { SaveWhole(w.d, BackupOf(w.d.ram)); }
        case Tick(up) => if w.d.on { RollbackWhole(w.d.(active := false)); }
        case Session => if w.d.on { SessionWhole(w.d); }
      }
  }

  lemma SaveAsIs(d: Device)
    requires BackupOf(d.ram) == BackupOf(d.nvs)
    ensures BackupOf(Saved(d).nvs) == BackupOf(d.nvs) && Saved(d).ram == d.ram
  {
    hide SavedFrom, BackupOf, NetOf;
    SaveFacts(d);
  }

  lemma ArmWhole(d: Device)
    requires BackupOf(d.ram) == BackupOf(d.nvs)
    ensures BackupOf(Armed(d).nvs) == BackupOf(d.nvs) == BackupOf(Armed(d).ram)
  {
    hide Saved, BackupOf;
    SaveAsIs(d);
  }

  lemma {:induction false} LivedWhole(w: World, defaults: Net, acts: seq<Act>)
    requires Whole(w) && NeverCutOff(w, defaults, acts)
    ensures Whole(Lived(w, defaults, acts))
  {
    hide Whole, Acted, CutOff;
    if acts != [] {
      var k := |acts| - 1;
      LivedWhole(w, defaults, acts[..k]);
      ActWhole(Lived(w, defaults, acts[..k]), defaults, acts[k]);
    }
  }

  // A device with backup "b" everywhere whose power lasts for 14 of the 17 operations of the
  // save that makes "n" its backup.
  function All(v: Value): Net { seq(NET, _ => v) }

  const HALF: Net := ["b", "b", "n", "n", "n", "n", "n", "n"]

  function Weak(): World {
    var x := ImageOf(All("n"), All("b"));
    World(Device(x, 0, x, false, 0, 14, true, [], false), {All("b")})
  }

  lemma WeakParts()
    ensures NetOf(Weak().d.ram) == All("n") && BackupOf(Weak().d.ram) == All("b") && Whole(Weak())
  {
    WithBackupParts(All("n") + All("n"), All("b"));
    assert NetOf(All("n") + All("n")) == All("n");
  }

  /** The save gets as far as DHCP, addresses, server and port; the SSID and the password
      stay the old ones. */
  lemma HalfStored(defaults: Net)
    ensures var m := Acted(Weak(), defaults, Do(Session));
      && m.stored == {All("b"), All("n")} && BackupOf(m.d.nvs) == HALF && HALF !in m.stored
      && NetOf(m.d.nvs) == All("n") && m.d.flag == 0 && m.d.connects == [] && !m.d.confirmed
  {
    hide Saved, WithBackup, BackupOf, NetOf, ImageOf;
    WeakParts();
    var d := Weak().d;
    assert All("n")[0] == "n" && All("b")[0] == "b" && HALF[0] == "b" && HALF[2] == "n" && All("b")[2] == "b";
    HalfSaved(d, All("n"), All("b"));
  }

  lemma HalfSaved(d: Device, n: Net, b: Net)
    requires NetOf(d.ram) == n && BackupOf(d.nvs) == b && d.nvs == d.ram && d.power == 14
    ensures var m := Saved(d.(ram := WithBackup(d.ram, n)));
      && m == d.(nvs := m.nvs, ram := m.ram, power := m.power, on := m.on)
      && NetOf(m.nvs) == n && BackupOf(m.nvs) == [b[0], b[1], n[2], n[3], n[4], n[5], n[6], n[7]]
  {
    hide SavedFrom, WithBackup, BackupOf, NetOf;
    SavedUpTo14(d.(ram := WithBackup(d.ram, n)));
    Mixture(d.nvs, n);
  }

  lemma SavedUpTo14(d: Device)
    requires d.power == 14
    ensures var m := Saved(d); m == d.(nvs := m.nvs, power := m.power, on := m.on) && m.nvs == d.ram[..14] + d.nvs[14..]
  {
    SavePrefix(d, 0);
  }

  lemma Mixture(x: Image, n: Net)
    ensures var m: Image, b := WithBackup(x, n)[..14] + x[14..], BackupOf(x);
      NetOf(m) == NetOf(x) && BackupOf(m) == [b[0], b[1], n[2], n[3], n[4], n[5], n[6], n[7]]
  {
  }

  /** The backup in flash is a configuration some session stored, in every run, if and only
      if the power never fails while a session is handled. */
  lemma ExactlyWholeSaves(defaults: Net, failures: bool)
    ensures AlwaysStored(defaults, failures) <==> !failures
  {
    hide Whole, NeverCutOff, BackupOf, Acted;
    if failures {
      WeakParts();
      HalfStored(defaults);
      var acts := [Do(Session)];
      assert acts[..0] == [];
      assert Lived(Weak(), defaults, []) == Weak();
      assert Lived(Weak(), defaults, acts) == Acted(Weak(), defaults, Do(Session));
    } else {
      forall w: World, acts: seq<Act> | Whole(w) && NeverCutOff(w, defaults, acts)
        ensures BackupOf(Lived(w, defaults, acts).d.nvs) in Lived(w, defaults, acts).stored
      {
        LivedWhole(w, defaults, acts);
        WholeStored(Lived(w, defaults, acts));
      }
    }
  }

  lemma WholeStored(w: World)
    requires Whole(w)
    ensures BackupOf(w.d.nvs) in w.stored
  {
  }

  /** A trial of `t` that nobody confirms: written, armed, one boot with `t`, one with the
      backup. */
  lemma TrialFallsBack(d: Device, t: Net, defaults: Net)
    requires Ssid(t) != "" && Ssid(BackupOf(d.nvs)) != "" && d.flag == 0 && Ssid(NetOf(d.nvs)) != ""
    ensures var a := Armed(Written(Booted(d, 100, 0, defaults), t));
      var m := Booted(Booted(a, 100, 0, defaults), 100, 0, defaults);
      m.connects == d.connects + [NetOf(d.nvs), t, BackupOf(d.nvs)] && Written(Booted(d, 100, 0, defaults), t).on
  {
    hide WithNet, BackupOf, NetOf, SavedFrom;
    var p := Booted(d, 100, 0, defaults);
    WithNetParts(p.ram, t);
    SavePower(p.(ram := WithNet(p.ram, t)));
    SaveFacts(p.(ram := WithNet(p.ram, t)));
    var q := Written(p, t);
    SavePower(q);
    SaveFacts(q);
    var a := Armed(q);
    var r := PoweredUp(Booted(a, 100, 0, defaults), 100);
    WithNetParts(r.ram, BackupOf(d.nvs));
    SavePower(Restored(r));
    SaveFacts(Restored(r));
  }

  const FALL: seq<Act> :=
    [Do(Session), Do(Boot(100, 0)), Write(All("t")), Arm, Do(Boot(100, 0)), Do(Boot(100, 0))]

  /** Such a run: the backup is cut off half-way, and a later trial falls back to the
      mixture, which no session ever had. */
  lemma FallsBackToMixture(defaults: Net)
    ensures var m := Lived(Weak(), defaults, FALL);
      m.d.connects == [All("n"), All("t"), HALF] && HALF !in m.stored
  {
    hide Written, Armed, Booted, BackupOf, NetOf;
    HalfStored(defaults);
    var w := Acted(Weak(), defaults, Do(Session));
    assert All("t")[0] == "t" && All("n")[0] == "n";
    TrialFallsBack(w.d, All("t"), defaults);
    FallSteps(defaults);
  }

  lemma FallSteps(defaults: Net)
    ensures var w := Acted(Weak(), defaults, Do(Session)); var p := Acted(w, defaults, Do(Boot(100, 0)));
      var a := Acted(Acted(p, defaults, Write(All("t"))), defaults, Arm);
      Lived(Weak(), defaults, FALL) == Acted(Acted(a, defaults, Do(Boot(100, 0))), defaults, Do(Boot(100, 0)))
  {
    hide Acted;
    var f := FALL;
    assert f[..5][..4] == f[..4] && f[..4][..3] == f[..3] && f[..3][..2] == f[..2] && f[..2][..1] == f[..1];
    assert f[..1][..0] == [];
    var w := Weak();
    assert Lived(w, defaults, []) == w;
    assert Lived(w, defaults, f[..1]) == Acted(w, defaults, f[0]);
    assert Lived(w, defaults, f[..2]) == Acted(Lived(w, defaults, f[..1]), defaults, f[1]);
    assert Lived(w, defaults, f[..3]) == Acted(Lived(w, defaults, f[..2]), defaults, f[2]);
    assert Lived(w, defaults, f[..4]) == Acted(Lived(w, defaults, f[..3]), defaults, f[3]);
    assert Lived(w, defaults, f[..5]) == Acted(Lived(w, defaults, f[..4]), defaults, f[4]);
  }
}
