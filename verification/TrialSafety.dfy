/** The trial reboot is safe against power failures: at most one boot runs on a
    configuration that nobody confirmed. */
module TrialSafety {
  import opened TrialSpec

  lemma WithNetParts(x: Image, n: Net)
    ensures NetOf(WithNet(x, n)) == n && BackupOf(WithNet(x, n)) == BackupOf(x)
  {
  }

  lemma WithBackupParts(x: Image, n: Net)
    ensures BackupOf(WithBackup(x, n)) == n && NetOf(WithBackup(x, n)) == NetOf(x)
  {
  }

  /** A save keeps what memory and flash agree on, and completes unless the power fails. */
  lemma SaveFacts(d: Device)
    ensures var m := Saved(d);
      && m == d.(nvs := m.nvs, power := m.power, on := m.on)
      && (BackupOf(d.ram) == BackupOf(d.nvs) ==> BackupOf(m.nvs) == BackupOf(d.nvs))
      && (NetOf(d.ram) == NetOf(d.nvs) ==> NetOf(m.nvs) == NetOf(d.nvs))
      && (m.on || m.power > 0 ==> m.nvs == d.ram)
      && (m.on ==> d.on) && (!m.on ==> m.power == 0 || !d.on)
  {
    hide SavedFrom;
    SavePrefix(d, 0);
    var m := Saved(d);
    if NetOf(d.ram) == NetOf(d.nvs) {
      forall j: nat | j < NET
        ensures m.nvs[j] == d.nvs[j]
      {
        assert d.ram[j] == NetOf(d.ram)[j] && d.nvs[j] == NetOf(d.nvs)[j];
      }
    }
    if BackupOf(d.ram) == BackupOf(d.nvs) {
      forall j: nat | j < NET
        ensures BackupOf(m.nvs)[j] == BackupOf(d.nvs)[j]
      {
        assert BackupOf(d.ram)[j] == BackupOf(d.nvs)[j];
      }
    }
  }

  // ---------------------------------------------------------------- the invariant

  /** From the arming of a trial on: the backup is `b` everywhere; while the flag says 1 no
      connection has been made; while it says 2 at most one, by the boot that runs the
      trial; afterwards the network configuration is `b` again. */
  predicate Guarded(d: Device, b: Net, rebooted: bool) {
    && Ssid(b) != "" && BackupOf(d.nvs) == b && (d.on ==> BackupOf(d.ram) == b) && !d.confirmed
    && (forall i | 1 <= i < |d.connects| :: d.connects[i] == b)
    && (d.flag == 1 ==> d.connects == [] && (rebooted ==> !d.on))
    && (d.flag == 2 ==> |d.connects| <= 1 && (d.on ==> d.active))
    && (d.flag in {0, 3} ==> NetOf(d.nvs) == b && (d.on ==> NetOf(d.ram) == b && !d.active))
    && d.flag <= 3
  }

  /** Guarded, or confirmed. */
  predicate Safe(d: Device, b: Net, rebooted: bool) {
    d.confirmed || Guarded(d, b, rebooted)
  }

  lemma RollbackSafe(d: Device, b: Net, rebooted: bool)
    requires d.on && BackupOf(d.ram) == b == BackupOf(d.nvs) && Ssid(b) != "" && !d.confirmed && !d.active
    requires d.flag in {1, 2} && (forall i | 1 <= i < |d.connects| :: d.connects[i] == b)
    requires (d.flag == 1 ==> d.connects == []) && (d.flag == 2 ==> |d.connects| <= 1)
    requires d.flag == 1 ==> !rebooted
    ensures var m := RolledBack(d);
      Guarded(m, b, rebooted) && m.connects == d.connects && (if m.on then m.flag == 3 else m.power == 0)
  {
    hide SavedFrom, WithNet, BackupOf, NetOf;
    WithNetParts(d.ram, b);
    SaveFacts(Restored(d));
  }

  lemma SaveSafe(d: Device, b: Net, rebooted: bool, net: Net)
    requires d.on && Guarded(d, b, rebooted) && (d.flag in {0, 3} ==> net == b)
    ensures Guarded(Saved(d.(ram := WithNet(d.ram, net))), b, rebooted)
  {
    hide SavedFrom, WithNet, BackupOf, NetOf, Saved;
    WithNetParts(d.ram, net);
    SaveFacts(d.(ram := WithNet(d.ram, net)));
  }

  lemma BootSafe(d: Device, b: Net, rebooted: bool, power: nat, up: nat, defaults: Net)
    requires Guarded(d, b, rebooted)
    ensures Guarded(Booted(d, power, up, defaults), b, true)
  {
    hide SavedFrom, WithNet, BackupOf, NetOf, Saved, RolledBack, Guarded;
    var a := PoweredUp(d, power);
    var c := DefaultsApplied(a, defaults);
    DefaultsSafe(d, b, rebooted, power, defaults);
    CheckSafe(d, c, b, up);
  }

  /** A device booting, before the trial flag is looked at. */
  predicate Booting(d: Device, c: Device, b: Net) {
    && c == d.(nvs := c.nvs, ram := c.ram, active := false, deadline := 0, power := c.power, on := c.on)
    && BackupOf(c.nvs) == b && BackupOf(c.ram) == b && (d.flag in {0, 3} ==> NetOf(c.nvs) == b == NetOf(c.ram))
    && (!c.on ==> c.power == 0)
  }

  lemma DefaultsSafe(d: Device, b: Net, rebooted: bool, power: nat, defaults: Net)
    requires Guarded(d, b, rebooted)
    ensures Booting(d, DefaultsApplied(PoweredUp(d, power), defaults), b)
  {
    hide SavedFrom, WithNet, BackupOf, NetOf, Saved;
    var a := PoweredUp(d, power);
    WithNetParts(a.ram, defaults);
    SaveFacts(a.(ram := WithNet(a.ram, defaults)));
  }

  lemma CheckSafe(d: Device, c: Device, b: Net, up: nat)
    requires Guarded(d, b, true) || Guarded(d, b, false)
    requires Booting(d, c, b)
    ensures Guarded(Connected(BootChecked(c, up)), b, true)
  {
    hide SavedFrom, WithNet, BackupOf, NetOf, Saved, RolledBack;
    if d.flag == 2 {
      if c.on {
        RollbackSafe(c, b, false);
      } else {
        DeadRollback(c, b);
      }
    }
  }

  /** Without power a rollback changes nothing that lasts. */
  lemma DeadRollback(c: Device, b: Net)
    requires !c.on && c.power == 0 && BackupOf(c.nvs) == b == BackupOf(c.ram)
    ensures var m := RolledBack(c); !m.on && m.power == 0 && m == c.(nvs := m.nvs, ram := m.ram) && BackupOf(m.nvs) == b
  {
    hide WithNet, BackupOf, NetOf;
    WithNetParts(c.ram, b);
    SavePrefix(Restored(c), 0);
    assert Saved(Restored(c)).nvs == c.nvs;
  }

  lemma SessionSafe(d: Device, b: Net)
    requires d.on && Guarded(d, b, true)
    ensures Safe(BackedUp(Confirmed(d)), b, true)
  {
    hide SavedFrom, WithBackup, BackupOf, NetOf;
    var m := Confirmed(d);
    SaveFacts(m.(ram := WithBackup(m.ram, NetOf(m.ram))));
    if !m.confirmed && d.active {
      DeadBackup(m, b);
    }
  }

  lemma DeadBackup(m: Device, b: Net)
    requires !m.on && m.power == 0
    ensures var q := BackedUp(m); !q.on && q == m.(ram := q.ram)
  {
    hide BackupOf, NetOf, WithBackup;
    SavePrefix(m.(ram := WithBackup(m.ram, NetOf(m.ram))), 0);
    assert Saved(m.(ram := WithBackup(m.ram, NetOf(m.ram)))).nvs == m.nvs;
  }

  lemma RollbackKeepsConfirmed(d: Device)
    ensures RolledBack(d).confirmed == d.confirmed
  {
    hide SavedFrom, WithNet;
    SaveFacts(Restored(d));
  }

  lemma ConfirmedForever(d: Device, defaults: Net, s: Step)
    requires d.confirmed
    ensures Next(d, defaults, s).confirmed
  {
    hide Saved, RolledBack, WithNet, WithBackup;
    match s
    case Boot(power, up) =>
      var a := PoweredUp(d, power);
      SaveFacts(a.(ram := WithNet(a.ram, defaults)));
      RollbackKeepsConfirmed(DefaultsApplied(a, defaults));
    case Save => SaveFacts(d);
    case RestoreBackup => SaveFacts(Restored(d));
    case Tick(_) => RollbackKeepsConfirmed(d.(active := false));
    case Session =>
      var m := Confirmed(d);
      SaveFacts(m.(ram := WithBackup(m.ram, NetOf(m.ram))));
  }

  // ---------------------------------------------------------------- runs

  function Rebooted(steps: seq<Step>): bool {
    steps != [] && (steps[|steps| - 1].Boot? || Rebooted(steps[..|steps| - 1]))
  }

  /** No server session comes up between the arming and the reboot. */
  predicate NoEarlySession(steps: seq<Step>) {
    steps == [] ||
    var k := |steps| - 1; NoEarlySession(steps[..k]) && (steps[k].Session? ==> Rebooted(steps[..k]))
  }

  lemma StepSafe(d: Device, b: Net, defaults: Net, s: Step, rebooted: bool)
    requires Safe(d, b, rebooted) && (s.Session? ==> rebooted)
    ensures Safe(Next(d, defaults, s), b, rebooted || s.Boot?)
  {
    hide Guarded, Booted, Saved, RolledBack, WithNet, BackupOf, NetOf;
    if d.confirmed {
      ConfirmedForever(d, defaults, s);
    } else {
      match s
      case Boot(power, up) => BootSafe(d, b, rebooted, power, up, defaults);
      case Save => if d.on { SameNet(d, b, rebooted); SaveSafe(d, b, rebooted, NetOf(d.ram)); }
      case RestoreBackup => if d.on { BackupIsB(d, b, rebooted); SaveSafe(d, b, rebooted, b); }
      case Tick(up) => if d.on && d.active && up >= d.deadline { WindowOver(d, b, rebooted); }
      case Session => if d.on { SessionSafe(d, b); }
    }
  }

  lemma SameNet(d: Device, b: Net, rebooted: bool)
    requires d.on && Guarded(d, b, rebooted)
    ensures d.ram == WithNet(d.ram, NetOf(d.ram)) && (d.flag in {0, 3} ==> NetOf(d.ram) == b)
  {
  }

  lemma BackupIsB(d: Device, b: Net, rebooted: bool)
    requires d.on && Guarded(d, b, rebooted)
    ensures BackupOf(d.ram) == b
  {
  }

  lemma WindowOver(d: Device, b: Net, rebooted: bool)
    requires d.on && Guarded(d, b, rebooted) && d.active
    ensures Guarded(RolledBack(d.(active := false)), b, rebooted)
  {
    hide BackupOf, NetOf, WithNet, RolledBack;
    RollbackSafe(d.(active := false), b, rebooted);
  }

  lemma {:induction false} RunSafe(d: Device, b: Net, defaults: Net, steps: seq<Step>)
    requires Guarded(d, b, false) && NoEarlySession(steps)
    ensures Safe(Run(d, defaults, steps), b, Rebooted(steps))
  {
    hide Guarded, Next, BackupOf, NetOf;
    if steps != [] {
      var k := |steps| - 1;
      RunSafe(d, b, defaults, steps[..k]);
      StepSafe(Run(d, defaults, steps[..k]), b, defaults, steps[k], Rebooted(steps[..k]));
    }
  }

  /** Once the flag is armed, and unless a session comes up before the reboot, whatever the
      power failures, saves, restores and timeouts: until a session confirms the trial, only
      the first boot that connects may do so with anything but the backup stored at arming. */
  lemma AtMostOneTrialBoot(d: Device, defaults: Net, steps: seq<Step>, i: nat)
    requires d.on && d.flag != 1 && Armed(d).flag == 1 && !d.confirmed && NoEarlySession(steps)
    ensures var m := Run(Armed(d).(connects := []), defaults, steps);
      !m.confirmed && 1 <= i < |m.connects| ==> m.connects[i] == BackupOf(d.ram)
  {
    hide BackupOf, NetOf, Saved, Run;
    var a := Armed(d).(connects := []);
    SaveFacts(d);
    RunSafe(a, BackupOf(d.ram), defaults, steps);
  }

  /** A boot after the trial boot that keeps its power ends on the backup, with no trial
      pending: the rollback needs 2 * 17 flash operations at most. */
  lemma NextBootRollsBack(d: Device, b: Net, power: nat, up: nat, defaults: Net)
    requires Guarded(d, b, true) && d.flag != 1 && power >= 40
    ensures var m := Booted(d, power, up, defaults);
      m.on && m.flag == 0 && !m.active && NetOf(m.ram) == b && m.connects == d.connects + [b]
  {
    hide WithNet, BackupOf, NetOf, SavedFrom;
    var a := PoweredUp(d, power);
    WithNetParts(a.ram, defaults);
    SavePower(a.(ram := WithNet(a.ram, defaults)));
    SaveFacts(a.(ram := WithNet(a.ram, defaults)));
    var c := DefaultsApplied(a, defaults);
    WithNetParts(c.ram, b);
    SavePower(Restored(c));
    SaveFacts(Restored(c));
  }

  lemma SavePower(d: Device)
    requires d.on && d.power > POINTS
    ensures Saved(d).on && Saved(d).power == d.power - POINTS - 1
  {
    SavePrefix(d, 0);
  }

  /** The condition is needed: a session before the reboot makes the untested configuration
      the backup, whatever it is, and both the trial boot and the boot after it connect
      with it. */
  lemma EarlySessionLosesBackup(d: Device, defaults: Net, up: nat)
    requires d.on && !d.active && d.flag == 0 && d.power >= 40 && Ssid(BackupOf(d.ram)) != ""
    requires Ssid(NetOf(d.ram)) != "" && NetOf(d.ram) != BackupOf(d.ram) && !d.confirmed
    ensures var a := Armed(d).(connects := []);
      var m := Next(Next(Next(a, defaults, Session), defaults, Boot(40, up)), defaults, Boot(40, up));
      && a.flag == 1 && !m.confirmed && BackupOf(m.nvs) == NetOf(d.ram)
      && m.connects == [NetOf(d.ram), NetOf(d.ram)]
  {
    hide WithNet, WithBackup, BackupOf, NetOf, SavedFrom;
    var n := NetOf(d.ram);
    SavePower(d);
    SaveFacts(d);
    var a := Armed(d).(connects := []);
    WithBackupParts(a.ram, n);
    SavePower(a.(ram := WithBackup(a.ram, n)));
    SaveFacts(a.(ram := WithBackup(a.ram, n)));
    var s := Next(a, defaults, Session);
    var p := Next(s, defaults, Boot(40, up));
    assert p.connects == [n];
    var q := PoweredUp(p, 40);
    WithNetParts(q.ram, n);
    SavePower(Restored(q));
    SaveFacts(Restored(q));
  }

  // ---------------------------------------------------------------- confirmed

  /** After the confirmation: no trial, flash and memory agree on the configuration. */
  predicate Kept(d: Device, n: Net) {
    && Ssid(n) != "" && d.flag == 0 && NetOf(d.nvs) == n && (d.on ==> NetOf(d.ram) == n && !d.active)
  }

  /** A configuration confirmed by a session stays: every later boot connects with it, even
      if the power fails while it becomes the new backup. */
  lemma ConfirmedIsKept(d: Device, n: Net, defaults: Net, s: Step)
    requires Kept(d, n) && !s.RestoreBackup?
    ensures var m := Next(d, defaults, s); Kept(m, n) && (m.connects == d.connects || m.connects == d.connects + [n])
  {
    hide WithNet, WithBackup, BackupOf, NetOf, SavedFrom;
    SaveFacts(d);
    WithBackupParts(d.ram, NetOf(d.ram));
    SaveFacts(d.(ram := WithBackup(d.ram, NetOf(d.ram))));
  }

  /** A session within the trial window confirms: unless the power fails before the flag is
      erased, the configuration on trial is kept. */
  lemma SessionConfirms(d: Device, defaults: Net)
    requires d.on && d.active && d.flag == 2 && d.power >= 1 && Ssid(NetOf(d.ram)) != "" && NetOf(d.nvs) == NetOf(d.ram)
    ensures Kept(Next(d, defaults, Session), NetOf(d.ram))
  {
    hide WithNet, WithBackup, BackupOf, NetOf, SavedFrom;
    var m := Confirmed(d);
    WithBackupParts(m.ram, NetOf(m.ram));
    SaveFacts(m.(ram := WithBackup(m.ram, NetOf(m.ram))));
  }
}
