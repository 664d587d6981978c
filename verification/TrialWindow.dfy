/** The trial window: it opens at the first boot after arming, lasts two minutes, and ends
    on the backup. */
module TrialWindow {
  import opened TrialSpec
  import opened TrialSafety

  /** The power lasts for a save of all keys and for the flag. */
  predicate Lasting(d: Device) { d.on && d.power >= POINTS + 3 }

  /** On trial: the window is open, memory and flash hold the backup `b`. */
  predicate OnTrial(d: Device, n: Net, b: Net, end: nat) {
    && d.flag == 2 && d.active && d.deadline == end
    && NetOf(d.ram) == n && BackupOf(d.ram) == b && BackupOf(d.nvs) == b
  }

  /** Fallen back: `b` is the configuration in memory and in flash, flag 3 is set, no trial
      is active. */
  predicate FallenBack(d: Device, b: Net) {
    && d.on && d.flag == 3 && !d.active
    && NetOf(d.ram) == b && NetOf(d.nvs) == b && BackupOf(d.ram) == b && BackupOf(d.nvs) == b
  }

  /** A tick at or after the end of the window falls back; an earlier one does nothing. */
  lemma WindowEnds(d: Device, n: Net, b: Net, end: nat, defaults: Net, up: nat)
    requires Lasting(d) && OnTrial(d, n, b, end)
    ensures var m := Next(d, defaults, Tick(up));
      if up < end then m == d else FallenBack(m, b) && m.connects == d.connects && m.confirmed == d.confirmed
  {
    if up >= end {
      hide WithNet, BackupOf, NetOf, SavedFrom;
      var a := d.(active := false);
      WithNetParts(a.ram, b);
      SavePower(Restored(a));
      SaveFacts(Restored(a));
    }
  }

  /** The boot of an armed device connects with the configuration on trial and opens a
      window of 120 seconds. */
  lemma WindowOpens(d: Device, n: Net, b: Net, defaults: Net, power: nat, up: nat)
    requires d.flag == 1 && NetOf(d.nvs) == n && BackupOf(d.nvs) == b && Ssid(n) != "" && power >= POINTS + 5
    ensures var m := Next(d, defaults, Boot(power, up));
      && Lasting(m) && OnTrial(m, n, b, up + 120) && NetOf(m.nvs) == n
      && m.connects == d.connects + [n] && m.confirmed == d.confirmed
  {
    hide WithNet, BackupOf, NetOf, SavedFrom;
  }

  /** A boot after the fall-back connects with the backup and clears the flag. */
  lemma FallBackBoots(d: Device, b: Net, defaults: Net, power: nat, up: nat)
    requires FallenBack(d, b) && Ssid(b) != "" && power >= 2
    ensures var m := Next(d, defaults, Boot(power, up));
      && m.on && m.flag == 0 && !m.active && NetOf(m.ram) == b && NetOf(m.nvs) == b
      && m.connects == d.connects + [b]
  {
    hide WithNet, BackupOf, NetOf, SavedFrom;
  }

  function Ticks(times: seq<nat>): seq<Step> {
    seq(|times|, i requires 0 <= i < |times| => Tick(times[i]))
  }

  predicate Past(times: seq<nat>, end: nat) {
    exists i :: 0 <= i < |times| && times[i] >= end
  }

  /** Through any ticks after the trial boot, as long as the power lasts and no session comes:
      the configuration stays on trial until a tick is 120 seconds past the boot, and has
      fallen back from then on. */
  lemma {:induction false} TrialEnds(d: Device, n: Net, b: Net, defaults: Net, power: nat, up: nat, times: seq<nat>)
    requires d.flag == 1 && NetOf(d.nvs) == n && BackupOf(d.nvs) == b && Ssid(n) != "" && power >= POINTS + 5
    ensures var m := Run(d, defaults, [Boot(power, up)] + Ticks(times));
      && m.connects == d.connects + [n]
      && if Past(times, up + 120) then FallenBack(m, b) else Lasting(m) && OnTrial(m, n, b, up + 120)
  {
    hide Next, OnTrial, FallenBack, Lasting, BackupOf, NetOf;
    var steps := [Boot(power, up)] + Ticks(times);
    if times == [] {
      assert steps == [Boot(power, up)] && steps[..0] == [];
      assert Run(d, defaults, []) == d;
      WindowOpens(d, n, b, defaults, power, up);
    } else {
      var k := |times| - 1;
      TrialEnds(d, n, b, defaults, power, up, times[..k]);
      assert steps[..k + 1] == [Boot(power, up)] + Ticks(times[..k]) && steps[k + 1] == Tick(times[k]);
      var m := Run(d, defaults, steps[..k + 1]);
      OneMorePast(times, up + 120);
      if Past(times[..k], up + 120) {
        StaysBack(m, b, defaults, times[k]);
      } else {
        WindowEnds(m, n, b, up + 120, defaults, times[k]);
      }
    }
  }

  lemma OneMorePast(times: seq<nat>, end: nat)
    requires times != []
    ensures Past(times, end) <==> Past(times[..|times| - 1], end) || times[|times| - 1] >= end
  {
    var k := |times| - 1;
    if i :| 0 <= i < k && times[..k][i] >= end {
      assert times[i] >= end;
    }
    if i :| 0 <= i < |times| && times[i] >= end {
      assert i < k ==> times[..k][i] >= end;
    }
  }

  lemma StaysBack(d: Device, b: Net, defaults: Net, up: nat)
    requires FallenBack(d, b)
    ensures Next(d, defaults, Tick(up)) == d
  {
  }

  /** ... and the next boot connects with the backup, with no trial pending. */
  lemma NextBootIsOnBackup(d: Device, n: Net, b: Net, defaults: Net, power: nat, up: nat, times: seq<nat>, again: nat)
    requires d.flag == 1 && NetOf(d.nvs) == n && BackupOf(d.nvs) == b && Ssid(n) != "" && Ssid(b) != ""
    requires power >= POINTS + 5 && Past(times, up + 120)
    ensures var m := Run(d, defaults, [Boot(power, up)] + Ticks(times) + [Boot(power, again)]);
      && m.on && m.flag == 0 && !m.active && NetOf(m.ram) == b && NetOf(m.nvs) == b
      && m.connects == d.connects + [n, b]
  {
    hide Next, OnTrial, FallenBack, Lasting, BackupOf, NetOf, Past;
    TrialEnds(d, n, b, defaults, power, up, times);
    var before := [Boot(power, up)] + Ticks(times);
    var steps := before + [Boot(power, again)];
    assert steps[..|steps| - 1] == before;
    FallBackBoots(Run(d, defaults, before), b, defaults, power, again);
  }

  /** A session within the window confirms exactly when the flag is erased in flash; if the
      power fails before, the trial counts as unconfirmed and the flag still says so. */
  lemma ConfirmedIsDurable(d: Device, defaults: Net)
    requires d.on && d.active && d.flag == 2 && !d.confirmed
    ensures var m := Next(d, defaults, Session);
      && !m.active && (m.confirmed <==> m.flag == 0) && (m.confirmed <==> d.power > 0)
      && (!m.confirmed ==> m.flag == 2 && !m.on)
  {
    hide WithBackup, BackupOf, NetOf, SavedFrom;
    var m := Confirmed(d);
    SaveFacts(m.(ram := WithBackup(m.ram, NetOf(m.ram))));
  }
}
