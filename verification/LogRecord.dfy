/** The log record and its serialised form inside the byte ring. */
module LogRecord {
  import opened Bytes

  const HDR_SIZE: nat := 14
  const MAX_TEXT: nat := 47
  const MAX_ARGS: nat := 4
  const RECORD_MIN: nat := HDR_SIZE + 1
  const RECORD_MAX: nat := HDR_SIZE + 4 * MAX_ARGS + MAX_TEXT + 1
  const FLAG_TRUNCATED: nat := 8

  datatype Option<T> = None | Some(value: T)

  datatype Record = Record(
    level: u8, moduleId: u8, truncated: bool, eventId: u16, seqNo: u32, uptime: u32,
    args: seq<i32>, text: seq<u8>)
  {
    predicate WellFormed() {
      |args| <= MAX_ARGS && |text| <= MAX_TEXT && NulFree(text)
    }

    function Size(): nat {
      HDR_SIZE + 4 * |args| + |text| + 1
    }

    function Flags(): nat {
      |args| + if truncated then FLAG_TRUNCATED else 0
    }
  }

  /** The caller's C string has no NUL, and the argument array holds at least the clamped
      number of values. */
  predicate Acceptable(args: Option<seq<i32>>, argc: u8, text: Option<seq<u8>>) {
    && (text.Some? ==> NulFree(text.value))
    && (args.Some? ==> (if argc > MAX_ARGS then MAX_ARGS else argc) <= |args.value|)
  }

  /** The record a caller's emit request stands for: arguments clamped to four,
      text cut to 47 bytes and marked as truncated exactly when it was longer. */
  function Accept(level: u8, moduleId: u8, eventId: u16, uptime: u32, seqNo: u32, args: Option<seq<i32>>, argc: u8,
          text: Option<seq<u8>>): (r: Record)
    requires Acceptable(args, argc, text)
    ensures r.WellFormed() && RECORD_MIN <= r.Size() <= RECORD_MAX
  {
    var n := if args.None? then 0 else if argc > MAX_ARGS then MAX_ARGS else argc;
    var full := if text.None? then [] else text.value;
    Record(level, moduleId, |full| > MAX_TEXT, eventId, seqNo, uptime,
           if n == 0 then [] else args.value[..n],
           if |full| > MAX_TEXT then full[..MAX_TEXT] else full)
  }

  function EncodeArgs(args: seq<i32>): (s: seq<u8>)
    ensures |s| == 4 * |args|
  {
    if args == [] then [] else EncodeArgs(args[..|args| - 1]) + Le32(AsUnsigned(args[|args| - 1]))
  }

  function EncodeHeader(r: Record): (s: seq<u8>)
    requires r.WellFormed()
    ensures |s| == HDR_SIZE
  {
    [r.Size(), r.level, r.moduleId, r.Flags()] + Le16(r.eventId) + Le32(r.seqNo) + Le32(r.uptime)
  }

  function Encode(r: Record): (s: seq<u8>)
    requires r.WellFormed()
    ensures |s| == r.Size()
  {
    EncodeHeader(r) + EncodeArgs(r.args) + r.text + [0]
  }

  lemma {:induction false} ArgWindow(args: seq<i32>, i: nat)
    requires i < |args|
    ensures EncodeArgs(args)[4 * i..4 * i + 4] == Le32(AsUnsigned(args[i]))
    decreases |args|
  {
    var n := |args| - 1;
    if i < n {
      ArgWindow(args[..n], i);
      assert EncodeArgs(args)[4 * i..4 * i + 4] == EncodeArgs(args[..n])[4 * i..4 * i + 4];
    }
  }

  /** Every field is recovered from its place in the serialised record. */
  lemma FieldsRoundTrip(r: Record)
    requires r.WellFormed()
    ensures var s := Encode(r);
      && s[0] == r.Size() && s[1] == r.level && s[2] == r.moduleId && s[3] == r.Flags()
      && FromLe16(s[4..6]) == r.eventId
      && FromLe32(s[6..10]) == r.seqNo
      && FromLe32(s[10..14]) == r.uptime
  {
    var s := Encode(r);
    assert s[..HDR_SIZE] == EncodeHeader(r);
    assert s[4..6] == EncodeHeader(r)[4..6] == Le16(r.eventId);
    assert s[6..10] == EncodeHeader(r)[6..10] == Le32(r.seqNo);
    assert s[10..14] == EncodeHeader(r)[10..14] == Le32(r.uptime);
    Le16RoundTrip(r.eventId);
    Le32RoundTrip(r.seqNo);
    Le32RoundTrip(r.uptime);
  }

  lemma ArgRoundTrip(r: Record, i: nat)
    requires r.WellFormed() && i < |r.args|
    ensures AsSigned(FromLe32(Encode(r)[HDR_SIZE + 4 * i..HDR_SIZE + 4 * i + 4])) == r.args[i]
  {
    var at := HDR_SIZE + 4 * i;
    assert Encode(r)[at..at + 4] == EncodeArgs(r.args)[4 * i..4 * i + 4];
    ArgWindow(r.args, i);
    Le32RoundTrip(AsUnsigned(r.args[i]));
  }

  lemma TextRoundTrip(r: Record)
    requires r.WellFormed()
    ensures var at := HDR_SIZE + 4 * |r.args|;
      && Encode(r)[at..at + |r.text|] == r.text
      && Encode(r)[at + |r.text|] == 0
  {
  }

  /** Serialised records are chunks that begin with their own length. */
  predicate IsChunk(c: seq<u8>) {
    RECORD_MIN <= |c| <= RECORD_MAX && c[0] == |c|
  }

  lemma EncodeIsChunk(r: Record)
    requires r.WellFormed()
    ensures IsChunk(Encode(r))
  {
    assert Encode(r)[0] == EncodeHeader(r)[0];
  }
}
