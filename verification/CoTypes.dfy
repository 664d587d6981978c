/** State of a CANopen slave, its environment, and the trace of what it does to it. */
module CoTypes {
  import opened Bytes

  const TPDO_COUNT: nat := 4
  const RPDO_COUNT: nat := 2
  const MAP_MAX: nat := 8
  const SDO_BUF: nat := 128
  const STR_MAX: nat := 32
  const SDO_TIMEOUT_MS: nat := 1000
  const COB_INVALID: int := 0x8000_0000

  const ABORT_TOGGLE: u32 := 0x0503_0000
  const ABORT_TIMEOUT: u32 := 0x0504_0000
  const ABORT_CMD: u32 := 0x0504_0001
  const ABORT_OUT_OF_MEMORY: u32 := 0x0504_0005
  const ABORT_UNSUPPORTED: u32 := 0x0601_0000
  const ABORT_READ_ONLY: u32 := 0x0601_0002
  const ABORT_NO_OBJECT: u32 := 0x0602_0000
  const ABORT_PDO_MAP: u32 := 0x0604_0041
  const ABORT_PDO_LENGTH: u32 := 0x0604_0042
  const ABORT_PARAM_INCOMPAT: u32 := 0x0604_0043
  const ABORT_TYPE_MISMATCH: u32 := 0x0607_0010
  const ABORT_NO_SUBINDEX: u32 := 0x0609_0011
  const ABORT_VALUE_RANGE: u32 := 0x0609_0030

  type Bytes8 = s: seq<u8> | |s| == 8 witness [0, 0, 0, 0, 0, 0, 0, 0]

  datatype Frame = Frame(id: u16, dlc: u8, rtr: bool, data: Bytes8)

  datatype Nmt = INITIALISING | STOPPED | OPERATIONAL | PREOPERATIONAL

  /** The state as a heartbeat reports it. */
  function NmtCode(s: Nmt): u8 {
    match s
    case INITIALISING => 0
    case STOPPED => 4
    case OPERATIONAL => 5
    case PREOPERATIONAL => 127
  }

  datatype Kind = PDO(number: nat) | SDO | EMCY | HEARTBEAT

  /** What made the node write an object: an expedited download, a segmented download
      (with the frames it consists of), or a mapped RPDO. */
  datatype Source = Expedited | Segmented(frames: seq<Frame>) | Mapped

  datatype Event =
    | Tx(frame: Frame, accepted: bool, kind: Kind, nmt: Nmt)
    | Wrote(index: u16, sub: u8, data: seq<u8>, code: u32, source: Source)

  datatype Read = Abort(code: u32) | Data(bytes: seq<u8>)

  /** The application's objects and the driver: arbitrary functions of the application's
      state and of everything sent so far. */
  datatype Env<!A> = Env(
    read: (A, u16, u8) -> Read,
    write: (A, u16, u8, seq<u8>) -> (A, u32),
    accepts: (seq<Event>, Frame) -> bool)

  datatype TPdo = TPdo(
    cobId: u32, transType: u8, inhibit: u16, eventMs: u16, mapCount: nat, entries: seq<u32>,
    lastTx: u32, haveLast: bool, lastData: seq<u8>, syncCount: u8)
  {
    predicate Enabled() {
      cobId < COB_INVALID && mapCount > 0
    }
  }

  datatype RPdo = RPdo(
    cobId: u32, transType: u8, mapCount: nat, entries: seq<u32>, pending: bool, len: u8, data: Bytes8)

  /** The SDO transfer: the object read at the start of an upload and how much of it has
      been sent, or what has been received of a download, with the frames it came in. */
  datatype Transfer =
    | Idle
    | Uploading(index: u16, sub: u8, data: seq<u8>, pos: nat, toggle: nat, last: u32)
    | Downloading(index: u16, sub: u8, expected: nat, got: seq<u8>, toggle: nat, last: u32, frames: seq<Frame>)

  datatype Config = Config(
    nodeId: nat, heartbeat: u16, deviceType: u32, vendorId: u32, productCode: u32, revision: u32,
    serial: u32, deviceName: seq<u8>, hwVersion: seq<u8>, swVersion: seq<u8>)

  datatype Node<A> = Node(
    cfg: Config, nmt: Nmt, errorRegister: u8, now: u32, hbLast: u32, bootup: bool,
    sdo: Transfer, tpdo: seq<TPdo>, rpdo: seq<RPdo>, app: A, trace: seq<Event>)

  /** Shape of the state, and the configured node number (1..127). */
  predicate Shape<A>(n: Node<A>) {
    && 1 <= n.cfg.nodeId <= 127
    && |n.tpdo| == TPDO_COUNT && |n.rpdo| == RPDO_COUNT
    && (forall i | 0 <= i < TPDO_COUNT :: |n.tpdo[i].entries| == MAP_MAX && n.tpdo[i].mapCount <= MAP_MAX)
    && (forall i | 0 <= i < RPDO_COUNT :: |n.rpdo[i].entries| == MAP_MAX && n.rpdo[i].mapCount <= MAP_MAX)
  }

  /** Objects fit the transfer buffer: the read callback's capacity contract. */
  ghost predicate EnvOk<A(!new)>(env: Env<A>) {
    forall a: A, index: u16, sub: u8 :: env.read(a, index, sub).Data? ==> |env.read(a, index, sub).bytes| <= SDO_BUF
  }

  function Pad8(s: seq<u8>): Bytes8
    requires |s| <= 8
  {
    s + seq(8 - |s|, _ => 0)
  }

  /** Hands a frame to the driver. */
  function Sent<A>(n: Node<A>, env: Env<A>, id: nat, data: seq<u8>, kind: Kind): Node<A>
    requires |data| <= 8
  {
    var f := Frame(id % 0x800, |data|, false, Pad8(data));
    n.(trace := n.trace + [Tx(f, env.accepts(n.trace, f), kind, n.nmt)])
  }

  predicate Accepted<A>(n: Node<A>, env: Env<A>, id: nat, data: seq<u8>)
    requires |data| <= 8
  {
    env.accepts(n.trace, Frame(id % 0x800, |data|, false, Pad8(data)))
  }

  function Or8(a: u8, b: u8): u8 {
    ((a as bv8) | (b as bv8)) as int
  }

  function AndNot8(a: u8, b: u8): u8 {
    ((a as bv8) & !(b as bv8)) as int
  }

  /** A mapping entry: object index, subindex and width in bits. */
  function EntryIndex(e: u32): u16 {
    e / 0x1_0000
  }

  function EntrySub(e: u32): u8 {
    e / 0x100 % 0x100
  }

  function EntryBits(e: u32): u8 {
    e % 0x100
  }
}
