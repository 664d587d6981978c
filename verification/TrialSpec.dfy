/** Network configuration with trial reboot: what is in flash, what is in memory, and what
    every operation makes of them when the power may fail at any flash operation. */
module TrialSpec {

  type Value = string

  // The datapoints in the order they are saved: eight Network_* points, eight Backup_* ones.
  const NET: nat := 8
  const POINTS: nat := 16
  const TRIAL_TIMEOUT_S: nat := 120

  type Image = s: seq<Value> | |s| == POINTS witness seq(POINTS, _ => "")
  type Net = s: seq<Value> | |s| == NET witness seq(NET, _ => "")

  function NetOf(x: Image): Net { x[..NET] }

  /** The backup, in the order of the Network_* points (SSID, password, server, port, DHCP,
      address, mask, gateway); its own order is DHCP first, SSID and password last. */
  function BackupOf(x: Image): Net {
    [x[14], x[15], x[12], x[13], x[8], x[9], x[10], x[11]]
  }

  function WithNet(x: Image, n: Net): Image { n + x[NET..] }

  function WithBackup(x: Image, n: Net): Image {
    x[..NET] + [n[4], n[5], n[6], n[7], n[2], n[3], n[0], n[1]]
  }

  function Ssid(n: Net): Value { n[0] }

  /** Flash, its trial flag, memory, the trial window; how many more flash operations the
      power lasts for, whether it has failed since the last boot; the configurations WLAN
      connects were made with, and whether a trial was confirmed. */
  datatype Device = Device(nvs: Image, flag: nat, ram: Image, active: bool, deadline: nat, power: nat, on: bool,
                           connects: seq<Net>, confirmed: bool)

  // ---------------------------------------------------------------- flash operations

  /** An operation on flash: it takes effect unless the power fails first. */
  function Spent(d: Device): Device {
    if d.power == 0 then d.(on := false) else d.(power := d.power - 1)
  }

  function Put(d: Device, i: nat): Device
    requires i < POINTS
  {
    if d.power == 0 then Spent(d) else Spent(d).(nvs := d.nvs[i := d.ram[i]])
  }

  /** Saves the points from `i` on, one key after the other, and commits. */
  function SavedFrom(d: Device, i: nat): Device
    requires i <= POINTS
    decreases POINTS - i
  {
    if i == POINTS then Spent(d) else SavedFrom(Put(d, i), i + 1)
  }

  function Saved(d: Device): Device { SavedFrom(d, 0) }

  function FlagSet(d: Device, v: nat): Device {
    Spent(if d.power == 0 then Spent(d) else Spent(d).(flag := v))
  }

  // ---------------------------------------------------------------- operations

  function Restored(d: Device): Device { d.(ram := WithNet(d.ram, BackupOf(d.ram))) }

  function RolledBack(d: Device): Device { FlagSet(Saved(Restored(d)), 3) }

  /** Network_Save = 4; refused without a backup. */
  function Armed(d: Device): Device {
    if Ssid(BackupOf(d.ram)) == "" then d else FlagSet(Saved(d), 1)
  }

  function BackedUp(d: Device): Device {
    if BackupOf(d.ram) == NetOf(d.ram) then d else Saved(d.(ram := WithBackup(d.ram, NetOf(d.ram))))
  }

  function Confirmed(d: Device): Device {
    if !d.active then d
    else
      var m := FlagSet(d.(active := false), 0);
      m.(confirmed := m.confirmed || d.power > 0)
  }

  function DefaultsApplied(d: Device, defaults: Net): Device {
    if Ssid(NetOf(d.ram)) != "" then d else Saved(d.(ram := WithNet(d.ram, defaults)))
  }

  function BootChecked(d: Device, up: nat): Device {
    match d.flag
    case 1 => FlagSet(d, 2).(active := true, deadline := up + TRIAL_TIMEOUT_S)
    case 2 => FlagSet(RolledBack(d), 0)
    case 3 => FlagSet(d, 0)
    case _ => d
  }

  function Connected(d: Device): Device {
    if d.on then d.(connects := d.connects + [NetOf(d.ram)]) else d
  }

  /** Power comes (back): everything but flash is lost. */
  function PoweredUp(d: Device, power: nat): Device {
    d.(ram := d.nvs, active := false, deadline := 0, power := power, on := true)
  }

  function Booted(d: Device, power: nat, up: nat, defaults: Net): Device {
    Connected(BootChecked(DefaultsApplied(PoweredUp(d, power), defaults), up))
  }

  function TrialTicked(d: Device, up: nat): Device {
    if !d.active || up < d.deadline then d else RolledBack(d.(active := false))
  }

  datatype Step =
    | Boot(power: nat, up: nat)
    | Save
    | RestoreBackup
    | Tick(up: nat)
    | Session

  /** What happens to a device; without power nothing happens until the next boot. */
  function Next(d: Device, defaults: Net, s: Step): Device {
    match s
    case Boot(power, up) => Booted(d, power, up, defaults)
    case Save => if d.on then Saved(d) else d
    case RestoreBackup => if d.on then Saved(Restored(d)) else d
    case Tick(up) => if d.on then TrialTicked(d, up) else d
    case Session => if d.on then BackedUp(Confirmed(d)) else d
  }

  function Run(d: Device, defaults: Net, steps: seq<Step>): Device {
    if steps == [] then d else Next(Run(d, defaults, steps[..|steps| - 1]), defaults, steps[|steps| - 1])
  }

  // ---------------------------------------------------------------- saving

  /** A save leaves a prefix of the keys new and the rest as they were; if it did not
      complete, the power is gone. Memory, flag and trial are untouched. */
  lemma {:induction false} SavePrefix(d: Device, i: nat)
    requires i <= POINTS
    ensures var m := SavedFrom(d, i); var k := if d.power < POINTS - i then i + d.power else POINTS;
      && m == d.(nvs := m.nvs, power := m.power, on := m.on)
      && (forall j | 0 <= j < POINTS :: m.nvs[j] == if i <= j < k then d.ram[j] else d.nvs[j])
      && (if d.power > POINTS - i then m.power == d.power - (POINTS - i) - 1 && m.on == d.on else m.power == 0 && !m.on)
    decreases POINTS - i
  {
    if i < POINTS {
      SavePrefix(Put(d, i), i + 1);
    }
  }
}
