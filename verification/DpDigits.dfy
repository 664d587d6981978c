/** 64-bit values as text: printed as sixteen hexadecimal digits, read with the base that
    the text announces. */
module DpDigits {
  import opened Bytes

  const TWO_64: int := 0x1_0000_0000_0000_0000

  /** Value of a digit in the largest base, 16 for any other character. */
  function DigitOf(ch: u8): (d: nat)
    ensures d <= 16
  {
    if 48 <= ch <= 57 then ch - 48 else if 65 <= ch <= 70 then ch - 55 else if 97 <= ch <= 102 then ch - 87 else 16
  }

  /** All characters are digits of this base. */
  predicate Digits(s: seq<u8>, base: nat) {
    forall i | 0 <= i < |s| :: DigitOf(s[i]) < base
  }

  function Value(s: seq<u8>, base: nat): nat {
    if s == [] then 0 else base * Value(s[..|s| - 1], base) + DigitOf(s[|s| - 1])
  }

  function SkipSpace(s: seq<u8>): seq<u8> {
    if s != [] && (s[0] == 32 || 9 <= s[0] <= 13) then SkipSpace(s[1..]) else s
  }

  datatype Number = NotANumber | Is(v: nat)

  /** Digits with the prefix that announces their base: `0x` for hexadecimal, a leading 0
      for octal, else decimal; nothing may be left over. */
  function ReadDigits(u: seq<u8>): Number {
    var hex := |u| > 2 && u[0] == 48 && u[1] in {88, 120} && DigitOf(u[2]) < 16;
    var base := if hex then 16 else if u != [] && u[0] == 48 then 8 else 10;
    var digits := if hex then u[2..] else u;
    if digits == [] || !Digits(digits, base) then NotANumber else Is(Value(digits, base))
  }

  /** A C string read by `strtoull` with base 0, accepted when nothing is left over: spaces,
      a sign, digits. What is too large becomes the largest value, a minus sign negates
      modulo 2^64. */
  function ReadU64(s: seq<u8>): (r: Number)
    ensures r.Is? ==> r.v < TWO_64
  {
    var t := SkipSpace(s);
    var n := ReadDigits(if t != [] && t[0] in {43, 45} then t[1..] else t);
    if n.NotANumber? then n
    else if n.v >= TWO_64 then Is(TWO_64 - 1)
    else if t != [] && t[0] == 45 then Is((TWO_64 - n.v) % TWO_64)
    else n
  }

  function HexDigit(d: nat): (ch: u8)
    requires d < 16
    ensures DigitOf(ch) == d
  {
    if d < 10 then 48 + d else 55 + d
  }

  /** The last `n` hexadecimal digits, in capitals. */
  function HexText(v: nat, n: nat): (s: seq<u8>)
    ensures |s| == n
  {
    if n == 0 then [] else HexText(v / 16, n - 1) + [HexDigit(v % 16)]
  }

  function Pow16(n: nat): nat {
    if n == 0 then 1 else 16 * Pow16(n - 1)
  }

  /** The digits say the value, in capitals and figures. */
  lemma {:induction false} HexTextValue(v: nat, n: nat)
    requires v < Pow16(n)
    ensures Value(HexText(v, n), 16) == v
    ensures forall i | 0 <= i < n :: 48 <= HexText(v, n)[i] <= 57 || 65 <= HexText(v, n)[i] <= 70
  {
    if n > 0 {
      HexTextValue(v / 16, n - 1);
      assert HexText(v, n)[..n - 1] == HexText(v / 16, n - 1);
    }
  }

  lemma {:induction false} SmallText(v: nat, n: nat)
    requires v < 16
    ensures forall i | 0 <= i < n :: HexText(v, n)[i] == if i == n - 1 then HexDigit(v) else 48
  {
    if n > 0 {
      SmallText(0, n - 1);
    }
  }

  /** Read in a smaller base, digits are worth less, unless only the last one counts. */
  lemma {:induction false} SmallerBase(s: seq<u8>, base: nat)
    requires 2 <= base < 16 && Digits(s, base)
    ensures Value(s, base) <= Value(s, 16)
    ensures Value(s, base) == Value(s, 16) ==> Value(s, 16) < base
  {
    if s != [] {
      var n := |s| - 1;
      SmallerBase(s[..n], base);
      var x, y := Value(s[..n], base), Value(s[..n], 16);
      if y > 0 {
        Scaled(base, x, y);
      }
    }
  }

  lemma Scaled(base: nat, x: nat, y: nat)
    requires x <= y && base < 16 && y > 0
    ensures base * x < 16 * y
  {
    assert base * x <= base * y;
  }

  /** A printed value is read back exactly when it is less than 8: sixteen digits without a
      prefix are octal after a leading 0, else decimal. */
  lemma ReadBackIffSmall(v: nat)
    requires v < TWO_64
    ensures ReadU64(HexText(v, 16)) == Is(v) <==> v < 8
  {
    hide Value, HexText;
    var s := HexText(v, 16);
    SixteenDigits();
    HexTextValue(v, 16);
    var base := if s[0] == 48 then 8 else 10;
    NoPrefix(s);
    if v < 16 {
      SmallText(v, 16);
    }
    if Digits(s, base) {
      SmallerBase(s, base);
      if v < 8 {
        SmallSame(s, base, v);
      }
    }
  }

  lemma SixteenDigits()
    ensures Pow16(16) == TWO_64
  {
    assert Pow16(4) == 0x1_0000;
    assert Pow16(8) == 0x1_0000_0000;
    assert Pow16(12) == 0x1_0000_0000_0000;
  }

  /** Digits and capitals alone: no space, sign or prefix. */
  lemma NoPrefix(s: seq<u8>)
    requires |s| == 16 && forall i | 0 <= i < 16 :: 48 <= s[i] <= 57 || 65 <= s[i] <= 70
    requires Value(s, 16) < TWO_64
    ensures var base := if s[0] == 48 then 8 else 10;
      ReadU64(s) == if Digits(s, base) then Is(Value(s, base)) else NotANumber
  {
    hide Value, Digits;
    var base := if s[0] == 48 then 8 else 10;
    assert SkipSpace(s) == s;
    assert s[1] !in {88, 120};
    if Digits(s, base) {
      SmallerBase(s, base);
    }
  }

  /** Behind zeros a digit is worth the same in every base. */
  lemma SmallSame(s: seq<u8>, base: nat, v: nat)
    requires |s| == 16 && v < 8 && s[15] == HexDigit(v) && forall i | 0 <= i < 15 :: s[i] == 48
    ensures Value(s, base) == v
  {
    Zeros(s[..15], base);
  }

  lemma {:induction false} Zeros(s: seq<u8>, base: nat)
    requires forall i | 0 <= i < |s| :: s[i] == 48
    ensures Value(s, base) == 0
  {
    if s != [] {
      Zeros(s[..|s| - 1], base);
    }
  }

  /** Such a value: 16 is printed as fourteen zeros, 1, 0, which reads as octal 8. */
  lemma SixteenReadsEight()
    ensures ReadU64(HexText(16, 16)) == Is(8)
  {
    var s := HexText(16, 16);
    SixteenText();
    SixteenDigits();
    HexTextValue(16, 16);
    hide Value, HexText;
    OctalTen(s);
    NoPrefix(s);
  }

  lemma SixteenText()
    ensures forall i | 0 <= i < 16 :: HexText(16, 16)[i] == if i == 14 then 49 else 48
  {
    assert HexText(16, 16) == HexText(1, 15) + [48];
    SmallText(1, 15);
  }

  lemma OctalTen(s: seq<u8>)
    requires |s| == 16 && s[14] == 49 && s[15] == 48 && forall i | 0 <= i < 14 :: s[i] == 48
    ensures Value(s, 8) == 8 && Digits(s, 8)
  {
    Zeros(s[..14], 8);
    assert s[..15][..14] == s[..14] && s[..15][14] == 49;
    assert Value(s[..15], 8) == 1;
  }

  // ---------------------------------------------------------------- what is accepted

  function DecimalText(n: nat): (s: seq<u8>)
    ensures s != [] && forall i | 0 <= i < |s| :: 48 <= s[i] <= 57
  {
    if n < 10 then [48 + n] else DecimalText(n / 10) + [48 + n % 10]
  }

  lemma {:induction false} DecimalValue(n: nat)
    ensures Value(DecimalText(n), 10) == n && (DecimalText(n)[0] == 48 ==> n == 0)
  {
    if n >= 10 {
      DecimalValue(n / 10);
      assert DecimalText(n)[..|DecimalText(n)| - 1] == DecimalText(n / 10);
    } else {
      assert Value([48 + n][..0], 10) == 0;
    }
  }

  /** Decimal text is read as its number, or as the largest value if that is too large. */
  lemma DecimalRead(n: nat)
    ensures ReadU64(DecimalText(n)) == Is(if n < TWO_64 then n else TWO_64 - 1)
  {
    hide DecimalText, Value;
    var s := DecimalText(n);
    DecimalValue(n);
    assert SkipSpace(s) == s;
    assert Digits(s, 10);
    if s[0] == 48 {
      ZeroText();
    }
  }

  lemma ZeroText()
    ensures DecimalText(0) == [48] && ReadU64([48]) == Is(0)
  {
    assert Value([48][..0], 8) == 0;
  }

  /** So is hexadecimal text behind 0x. */
  lemma HexRead(v: nat, n: nat)
    requires v < Pow16(n) && v < TWO_64 && n > 0
    ensures ReadU64([48, 120] + HexText(v, n)) == Is(v)
  {
    hide HexText, Value;
    HexTextValue(v, n);
    var s := [48, 120] + HexText(v, n);
    assert SkipSpace(s) == s && s[2..] == HexText(v, n);
  }

  /** Spaces in front do not matter, a minus sign negates modulo 2^64. */
  lemma SpaceAndSign(s: seq<u8>, space: u8)
    requires s != [] && 48 <= s[0] <= 57 && (space == 32 || 9 <= space <= 13)
    ensures ReadU64([space] + s) == ReadU64(s) == ReadU64([43] + s)
    ensures ReadU64(s).Is? && ReadU64(s).v < TWO_64 - 1 ==> ReadU64([45] + s) == Is((TWO_64 - ReadU64(s).v) % TWO_64)
  {
    hide ReadDigits;
    assert ([space] + s)[1..] == s && ([43] + s)[1..] == s && ([45] + s)[1..] == s;
  }

  /** Text that ends in anything but a digit is refused, and so is no text. */
  lemma GarbageRefused(s: seq<u8>)
    requires s == [] || DigitOf(s[|s| - 1]) == 16
    ensures ReadU64(s) == NotANumber
  {
    hide Value;
    var t := SkipSpace(s);
    SkipKeepsEnd(s);
    if t != [] {
      var u := if t[0] in {43, 45} then t[1..] else t;
      assert u != [] ==> u[|u| - 1] == t[|t| - 1];
    }
  }

  lemma {:induction false} SkipKeepsEnd(s: seq<u8>)
    ensures SkipSpace(s) != [] ==> s != [] && SkipSpace(s)[|SkipSpace(s)| - 1] == s[|s| - 1]
  {
    if s != [] && (s[0] == 32 || 9 <= s[0] <= 13) {
      SkipKeepsEnd(s[1..]);
    }
  }
}
