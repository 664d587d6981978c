/** The network configuration as it is kept: datapoints in memory, keys in flash, updated
    one at a time. Each operation does what its counterpart on values does. */
module TrialDevice {
  import opened TrialSpec
  import opened TrialSafety

  class Unit {
    const nvs: array<Value>
    const ram: array<Value>
    var flag: nat
    var active: bool
    var deadline: nat
    var power: nat
    var on: bool
    ghost var connects: seq<Net>
    ghost var confirmed: bool

    ghost predicate Valid() {
      nvs.Length == POINTS == ram.Length && nvs != ram
    }

    ghost function Model(): Device
      reads this, nvs, ram
      requires Valid()
    {
      Device(nvs[..], flag, ram[..], active, deadline, power, on, connects, confirmed)
    }

    constructor (keys: Image)
      ensures Valid() && fresh(nvs) && fresh(ram)
      ensures Model() == Device(keys, 0, keys, false, 0, 0, false, [], false)
    {
      nvs := new Value[POINTS](i requires 0 <= i < POINTS => keys[i]);
      ram := new Value[POINTS](i requires 0 <= i < POINTS => keys[i]);
      flag, active, deadline, power, on, connects, confirmed := 0, false, 0, 0, false, [], false;
      new;
      assert nvs[..] == keys && ram[..] == keys;
    }

    // ---------------------------------------------------------------- flash

    method Spend() returns (done: bool)
      requires Valid()
      modifies this`power, this`on
      ensures Model() == Spent(old(Model())) && done == (old(power) > 0)
    {
      if power == 0 {
        on := false;
        return false;
      }
      power := power - 1;
      return true;
    }

    method ConfigSave()
      requires Valid()
      modifies this`power, this`on, nvs
      ensures Model() == Saved(old(Model()))
    {
      var i := 0;
      while i < POINTS
        invariant i <= POINTS
        invariant SavedFrom(old(Model()), 0) == SavedFrom(Model(), i)
      {
        ghost var d := Model();
        var done := Spend();
        if done { nvs[i] := ram[i]; }
        assert Model() == Put(d, i);
        i := i + 1;
      }
      var _ := Spend();
    }

    method TrialSet(v: nat)
      requires Valid()
      modifies this`power, this`on, this`flag
      ensures Model() == FlagSet(old(Model()), v)
    {
      var done := Spend();
      if done { flag := v; }
      var _ := Spend();
    }

    // ---------------------------------------------------------------- backup

    method Backup()
      requires Valid()
      modifies this`power, this`on, nvs, ram
      ensures Model() == BackedUp(old(Model()))
    {
      if ram[8] == ram[4] && ram[13] == ram[3] && ram[9] == ram[5] && ram[10] == ram[6] && ram[11] == ram[7]
         && ram[12] == ram[2] && ram[14] == ram[0] && ram[15] == ram[1] {
        assert BackupOf(ram[..]) == NetOf(ram[..]);
        return;
      }
      assert BackupOf(ram[..]) != NetOf(ram[..]) by {
        assert BackupOf(ram[..]) == [ram[14], ram[15], ram[12], ram[13], ram[8], ram[9], ram[10], ram[11]];
        assert NetOf(ram[..]) == [ram[0], ram[1], ram[2], ram[3], ram[4], ram[5], ram[6], ram[7]];
      }
      ram[8], ram[13] := ram[4], ram[3];
      ram[9], ram[10], ram[11] := ram[5], ram[6], ram[7];
      ram[12], ram[14], ram[15] := ram[2], ram[0], ram[1];
      assert ram[..] == WithBackup(old(ram[..]), NetOf(old(ram[..])));
      ConfigSave();
    }

    method RestoreFromBackup()
      requires Valid()
      modifies ram
      ensures Model() == Restored(old(Model()))
    {
      ram[4], ram[3] := ram[8], ram[13];
      ram[5], ram[6], ram[7] := ram[9], ram[10], ram[11];
      ram[2], ram[0], ram[1] := ram[12], ram[14], ram[15];
      assert ram[..] == WithNet(old(ram[..]), BackupOf(old(ram[..])));
    }

    // ---------------------------------------------------------------- trial

    /** Network_Save = 4. */
    method TrialReboot() returns (ok: bool)
      requires Valid()
      modifies this`power, this`on, this`flag, nvs
      ensures Model() == Armed(old(Model())) && ok == (Ssid(BackupOf(old(ram[..]))) != "")
    {
      if ram[14] == "" { return false; }
      ConfigSave();
      TrialSet(1);
      return true;
    }

    method Rollback()
      requires Valid()
      modifies this`power, this`on, this`flag, nvs, ram
      ensures Model() == RolledBack(old(Model()))
    {
      RestoreFromBackup();
      ConfigSave();
      TrialSet(3);
    }

    method BootCheck(up: nat)
      requires Valid()
      modifies this`power, this`on, this`flag, this`active, this`deadline, nvs, ram
      ensures Model() == BootChecked(old(Model()), up)
    {
      if flag == 1 {
        TrialSet(2);
        active, deadline := true, up + TRIAL_TIMEOUT_S;
      } else if flag == 2 {
        Rollback();
        TrialSet(0);
      } else if flag == 3 {
        TrialSet(0);
      }
    }

    method OnTick(up: nat)
      requires Valid()
      modifies this`power, this`on, this`flag, this`active, nvs, ram
      ensures Model() == TrialTicked(old(Model()), up)
    {
      if !active || up < deadline { return; }
      active := false;
      Rollback();
    }

    method Confirm()
      requires Valid()
      modifies this`power, this`on, this`flag, this`active, this`confirmed
      ensures Model() == Confirmed(old(Model()))
    {
      if !active { return; }
      active := false;
      confirmed := confirmed || power > 0;
      TrialSet(0);
    }

    /** A server session comes up: confirm first, then back up. */
    method SessionReady(ghost defaults: Net)
      requires Valid() && on
      modifies this, nvs, ram
      ensures Model() == Next(old(Model()), defaults, Session)
    {
      Confirm();
      Backup();
    }

    // ---------------------------------------------------------------- boot

    method Boot(lasts: nat, up: nat, defaults: Net)
      requires Valid()
      modifies this, nvs, ram
      ensures Model() == Next(old(Model()), defaults, Step.Boot(lasts, up))
    {
      hide SavedFrom, BackupOf, NetOf, WithNet;
      Load();
      active, deadline, power, on := false, 0, lasts, true;
      assert Model() == PoweredUp(old(Model()), lasts);
      DefaultsApply(defaults);
      BootCheck(up);
      assert Model() == BootChecked(DefaultsApplied(PoweredUp(old(Model()), lasts), defaults), up);
      if on { connects := connects + [NetOf(ram[..])]; }
    }

    method Load()
      requires Valid()
      modifies ram
      ensures ram[..] == nvs[..]
    {
      var i := 0;
      while i < POINTS
        invariant i <= POINTS && ram[..i] == nvs[..i]
      {
        ram[i] := nvs[i];
        i := i + 1;
      }
    }

    method DefaultsApply(defaults: Net)
      requires Valid()
      modifies this`power, this`on, nvs, ram
      ensures Model() == DefaultsApplied(old(Model()), defaults)
    {
      assert NetOf(ram[..])[0] == ram[0];
      if ram[0] != "" { return; }
      var i := 0;
      while i < NET
        modifies ram
        invariant i <= NET
        invariant forall j | 0 <= j < POINTS :: ram[j] == if j < i then defaults[j] else old(ram[j])
      {
        ram[i] := defaults[i];
        i := i + 1;
      }
      assert ram[..] == WithNet(old(ram[..]), defaults);
      assert Model() == old(Model()).(ram := WithNet(old(ram[..]), defaults));
      ConfigSave();
    }
  }
}
