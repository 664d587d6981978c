/** Datapoints through JSON: what a report shows of a slot, and what a write makes of it. */
module DpJson {
  import opened Bytes
  import opened DpDigits
  import opened Datapoints

  /** Little-endian bytes as an unsigned and as a two's complement number. */
  function Unsigned(s: seq<u8>): nat {
    if s == [] then 0 else s[0] + 0x100 * Unsigned(s[1..])
  }

  function Pow256(n: nat): nat {
    if n == 0 then 1 else 0x100 * Pow256(n - 1)
  }

  function Signed(s: seq<u8>): int {
    if 2 * Unsigned(s) >= Pow256(|s|) then Unsigned(s) - Pow256(|s|) else Unsigned(s)
  }

  /** The number a report shows for a numeric slot. */
  function NumberOf(c: Codec, kind: Type, s: seq<u8>): real {
    match kind
    case F32 => c.toReal(s)
    case I8 | I16 | I32 => Signed(s) as real
    case _ => Unsigned(s) as real
  }

  /** What a report shows of a slot. */
  function Shown(c: Codec, kind: Type, s: seq<u8>): Json
    requires |s| == Size(kind)
  {
    match kind
    case BOOL => JBool(s[0] != 0)
    case U64 => JString(HexText(Unsigned(s), 16))
    case STR => JString(CString(s, 0))
    case _ => JNumber(NumberOf(c, kind, s))
  }

  /** The text of a string slot that is zero behind its end. */
  predicate Padded(s: seq<u8>, text: seq<u8>) {
    |text| < STR_MAX && NulFree(text) && s == text + seq(STR_MAX - |text|, _ => 0)
  }

  /** Slots as a write leaves them: a truth value is 0 or 1, a string is zero behind its
      end, a binary32 value is what its number converts to. */
  predicate Clean(c: Codec, kind: Type, s: seq<u8>, text: seq<u8>) {
    && |s| == Size(kind)
    && (kind == BOOL ==> s[0] <= 1)
    && (kind == STR ==> Padded(s, text))
    && (kind == F32 ==> c.fromReal(c.toReal(s)) == s)
  }

  /** A write leaves a clean slot, if converting to binary32 a second time changes nothing. */
  lemma WriteLeavesClean(c: Codec, d: Desc, v: Json) returns (text: seq<u8>)
    requires CodecOk(c) && forall x :: c.fromReal(c.toReal(c.fromReal(x))) == c.fromReal(x)
    requires v.JString? ==> NulFree(v.s)
    ensures var p := ParseValue(c, d, v); p.Bytes? ==> Clean(c, d.kind, p.d, text)
  {
    text := if v.JString? then v.s else [];
    ParsedSize(c, d, v);
  }

  lemma {:induction false} UnsignedBound(s: seq<u8>)
    ensures Unsigned(s) < Pow256(|s|)
  {
    if s != [] {
      UnsignedBound(s[1..]);
    }
  }

  lemma {:induction false} UnsignedBytes(s: seq<u8>)
    ensures IntBytes(Unsigned(s), |s|) == s
  {
    if s != [] {
      UnsignedBytes(s[1..]);
      LowByte(s[0], Unsigned(s[1..]));
      assert s == [s[0]] + s[1..];
    }
  }

  lemma LowByte(b: u8, x: nat)
    ensures (b + 0x100 * x) % 0x100 == b && (b + 0x100 * x) / 0x100 == x
  {
  }

  /** A multiple of 256^n does not show in the low n bytes. */
  lemma {:induction false} BytesModulo(x: int, n: nat)
    ensures IntBytes(x - Pow256(n), n) == IntBytes(x, n)
    decreases n
  {
    if n > 0 {
      assert (x - Pow256(n)) / 0x100 == x / 0x100 - Pow256(n - 1);
      BytesModulo(x / 0x100, n - 1);
    }
  }

  lemma SignedBytes(s: seq<u8>)
    ensures IntBytes(Signed(s), |s|) == s
  {
    hide IntBytes, Unsigned, Pow256;
    UnsignedBytes(s);
    BytesModulo(Unsigned(s), |s|);
  }

  lemma {:induction false} BytesDiffer(x: nat, y: nat, n: nat)
    requires x < Pow256(n) && y < Pow256(n) && IntBytes(x, n) == IntBytes(y, n)
    ensures x == y
  {
    if n > 0 {
      assert IntBytes(x, n)[0] == IntBytes(y, n)[0] && IntBytes(x, n)[1..] == IntBytes(y, n)[1..];
      BytesDiffer(x / 0x100, y / 0x100, n - 1);
    }
  }

  lemma WholeTruncated(x: int)
    ensures Truncated(x as real) == x
  {
    if x < 0 {
      assert -(x as real) == (-x) as real;
    }
  }

  lemma EightBytes()
    ensures Pow256(8) == DpDigits.TWO_64
  {
    assert Pow256(4) == 0x1_0000_0000;
  }

  lemma U64ReadBack(c: Codec, d: Desc, s: seq<u8>)
    requires d.kind == U64 && |s| == 8
    ensures ParseValue(c, d, Shown(c, d.kind, s)) == Parsed.Bytes(s) <==> Unsigned(s) < 8
  {
    hide ReadU64, HexText, Unsigned, IntBytes;
    var v := Unsigned(s);
    EightBytes();
    UnsignedBound(s);
    UnsignedBytes(s);
    ReadBackIffSmall(v);
    var r := ReadU64(HexText(v, 16));
    if r.Is? && IntBytes(r.v, 8) == s {
      BytesDiffer(r.v, v, 8);
    }
  }

  lemma StringReadBack(s: seq<u8>, text: seq<u8>)
    requires Padded(s, text)
    ensures CString(s, 0) == text
  {
    assert s[0..|text|] == text;
    CStringIs(s, 0, text);
  }

  /** A slot that is shown and written back is unchanged: always for truth values and
      strings, for numbers exactly when they are in the range of the point, for 64-bit
      values exactly below 8. */
  lemma ReadBack(c: Codec, d: Desc, s: seq<u8>, text: seq<u8>)
    requires Clean(c, d.kind, s, text)
    ensures ParseValue(c, d, Shown(c, d.kind, s)) == Parsed.Bytes(s) <==>
      match d.kind
      case BOOL | STR => true
      case U64 => Unsigned(s) < 8
      case _ => InRange(d, NumberOf(c, d.kind, s))
  {
    hide ReadU64, Unsigned, Signed, IntBytes, Truncated;
    match d.kind
    case BOOL => assert s == [s[0]];
    case STR => StringReadBack(s, text);
    case U64 => U64ReadBack(c, d, s);
    case I8 | I16 | I32 =>
      SignedBytes(s);
      WholeTruncated(Signed(s));
    case _ =>
      UnsignedBytes(s);
      WholeTruncated(Unsigned(s));
  }
}
