/** The text of a JSON tree and a parser for it, with the proof that the parser recovers
    every tree from its text. */
module CanonText {
  import opened Bytes
  import opened CanonTree

  const QUOTE: u8 := 34
  const COMMA: u8 := 44
  const MINUS: u8 := 45
  const COLON: u8 := 58
  const LBRACKET: u8 := 91
  const BACKSLASH: u8 := 92
  const RBRACKET: u8 := 93
  const LBRACE: u8 := 123
  const RBRACE: u8 := 125
  const TRUE_TEXT: seq<u8> := [116, 114, 117, 101]
  const FALSE_TEXT: seq<u8> := [102, 97, 108, 115, 101]
  const NULL_TEXT: seq<u8> := [110, 117, 108, 108]

  // ---------------------------------------------------------------- printer

  function Hex(d: nat): u8
    requires d < 16
  {
    if d < 10 then 48 + d else 87 + d
  }

  /** Escapes of section 3.2.2.2 of RFC 8785: the two-character forms where they exist,
      lower-case \u00xx for the other control characters, everything else unchanged. */
  function EscapeByte(c: u8): (r: seq<u8>)
    ensures r != [] && r[0] != QUOTE && forall i | 0 <= i < |r| :: r[i] >= 32
  {
    if c == QUOTE then [BACKSLASH, QUOTE]
    else if c == BACKSLASH then [BACKSLASH, BACKSLASH]
    else if c == 8 then [BACKSLASH, 98]
    else if c == 12 then [BACKSLASH, 102]
    else if c == 10 then [BACKSLASH, 110]
    else if c == 13 then [BACKSLASH, 114]
    else if c == 9 then [BACKSLASH, 116]
    else if c < 32 then [BACKSLASH, 117, 48, 48, Hex(c / 16), Hex(c % 16)]
    else [c]
  }

  function Escape(s: seq<u8>): seq<u8> {
    if s == [] then [] else EscapeByte(s[0]) + Escape(s[1..])
  }

  function PrintString(s: seq<u8>): seq<u8> {
    [QUOTE] + Escape(s) + [QUOTE]
  }

  function Digits(n: nat): (r: seq<u8>)
    ensures r != [] && forall i | 0 <= i < |r| :: 48 <= r[i] <= 57
  {
    if n < 10 then [48 + n] else Digits(n / 10) + [48 + n % 10]
  }

  function PrintInt(n: int): seq<u8> {
    if n < 0 then [MINUS] + Digits(-n) else Digits(n)
  }

  function Print(t: Json): seq<u8>
    decreases t
  {
    match t
    case Null => NULL_TEXT
    case Bool(b) => if b then TRUE_TEXT else FALSE_TEXT
    case Int(n) => PrintInt(n)
    case Str(s) => PrintString(s)
    case Arr(items) => [LBRACKET] + PrintItems(items) + [RBRACKET]
    case Obj(members) => [LBRACE] + PrintMembers(members) + [RBRACE]
  }

  function PrintItems(items: seq<Json>): seq<u8>
    decreases items
  {
    if items == [] then []
    else if |items| == 1 then Print(items[0])
    else Print(items[0]) + [COMMA] + PrintItems(items[1..])
  }

  function PrintMember(m: Member): seq<u8>
    decreases m
  {
    PrintString(m.key) + [COLON] + Print(m.value)
  }

  function PrintMembers(ms: seq<Member>): seq<u8>
    decreases ms
  {
    if ms == [] then []
    else if |ms| == 1 then PrintMember(ms[0])
    else PrintMember(ms[0]) + [COMMA] + PrintMembers(ms[1..])
  }

  /** The canonical text. */
  function Canon(t: Json): seq<u8> {
    Print(Norm(t))
  }

  // ---------------------------------------------------------------- parser

  datatype Parse<T> = Fail | Got(value: T, rest: seq<u8>)

  predicate IsDigit(c: u8) {
    48 <= c <= 57
  }

  function Unhex(c: u8): int {
    if IsDigit(c) then c - 48 else if 97 <= c <= 102 then c - 87 else -1
  }

  /** Decodes one character of a string; the closing quote is not one. */
  function ParseChar(s: seq<u8>): (r: Parse<u8>)
    requires s != []
    ensures r.Got? ==> |r.rest| < |s|
  {
    if s[0] != BACKSLASH then Got(s[0], s[1..])
    else if |s| < 2 then Fail
    else if s[1] == QUOTE || s[1] == BACKSLASH then Got(s[1], s[2..])
    else if s[1] == 98 then Got(8, s[2..])
    else if s[1] == 102 then Got(12, s[2..])
    else if s[1] == 110 then Got(10, s[2..])
    else if s[1] == 114 then Got(13, s[2..])
    else if s[1] == 116 then Got(9, s[2..])
    else if s[1] == 117 && |s| >= 6 && s[2] == 48 && s[3] == 48 && Unhex(s[4]) >= 0 && Unhex(s[5]) >= 0
    then Got(16 * Unhex(s[4]) + Unhex(s[5]), s[6..])
    else Fail
  }

  /** Decodes up to and including the closing quote. */
  function ParseChars(s: seq<u8>): (r: Parse<seq<u8>>)
    ensures r.Got? ==> |r.rest| < |s|
    decreases |s|
  {
    if s == [] then Fail
    else if s[0] == QUOTE then Got([], s[1..])
    else
      var c := ParseChar(s);
      if c.Fail? then Fail
      else
        var more := ParseChars(c.rest);
        if more.Fail? then Fail else Got([c.value] + more.value, more.rest)
  }

  function ParseDigits(s: seq<u8>, acc: nat): (r: (nat, seq<u8>))
    ensures |r.1| <= |s|
  {
    if s == [] || !IsDigit(s[0]) then (acc, s) else ParseDigits(s[1..], 10 * acc + (s[0] - 48))
  }

  function ParseInt(s: seq<u8>): (r: Parse<int>)
    ensures r.Got? ==> |r.rest| < |s|
  {
    if s == [] then Fail
    else if IsDigit(s[0]) then
      var (n, rest) := ParseDigits(s[1..], s[0] - 48);
      Got(n, rest)
    else if s[0] == MINUS && |s| > 1 && IsDigit(s[1]) then
      var (n, rest) := ParseDigits(s[2..], s[1] - 48);
      Got(-(n as int), rest)
    else Fail
  }

  function ParseValue(s: seq<u8>): (r: Parse<Json>)
    ensures r.Got? ==> |r.rest| < |s|
    decreases |s|, 0
  {
    if s == [] then Fail
    else if s[0] == QUOTE then
      var p := ParseChars(s[1..]);
      if p.Fail? then Fail else Got(Str(p.value), p.rest)
    else if s[0] == LBRACKET then
      if |s| > 1 && s[1] == RBRACKET then Got(Arr([]), s[2..])
      else
        var p := ParseItems(s[1..]);
        if p.Fail? then Fail else Got(Arr(p.value), p.rest)
    else if s[0] == LBRACE then
      if |s| > 1 && s[1] == RBRACE then Got(Obj([]), s[2..])
      else
        var p := ParseMembers(s[1..]);
        if p.Fail? then Fail else Got(Obj(p.value), p.rest)
    else if TRUE_TEXT <= s then Got(Bool(true), s[4..])
    else if FALSE_TEXT <= s then Got(Bool(false), s[5..])
    else if NULL_TEXT <= s then Got(Null, s[4..])
    else
      var p := ParseInt(s);
      if p.Fail? then Fail else Got(Int(p.value), p.rest)
  }

  /** One or more values separated by commas, up to and including the bracket. */
  function ParseItems(s: seq<u8>): (r: Parse<seq<Json>>)
    ensures r.Got? ==> |r.rest| < |s|
    decreases |s|, 1
  {
    var v := ParseValue(s);
    if v.Fail? || v.rest == [] then Fail
    else if v.rest[0] == RBRACKET then Got([v.value], v.rest[1..])
    else if v.rest[0] != COMMA then Fail
    else
      var more := ParseItems(v.rest[1..]);
      if more.Fail? then Fail else Got([v.value] + more.value, more.rest)
  }

  function ParseMember(s: seq<u8>): (r: Parse<Member>)
    ensures r.Got? ==> |r.rest| < |s|
    decreases |s|, 1
  {
    if s == [] || s[0] != QUOTE then Fail
    else
      var k := ParseChars(s[1..]);
      if k.Fail? || k.rest == [] || k.rest[0] != COLON then Fail
      else
        var v := ParseValue(k.rest[1..]);
        if v.Fail? then Fail else Got(Member(k.value, v.value), v.rest)
  }

  function ParseMembers(s: seq<u8>): (r: Parse<seq<Member>>)
    ensures r.Got? ==> |r.rest| < |s|
    decreases |s|, 2
  {
    var m := ParseMember(s);
    if m.Fail? || m.rest == [] then Fail
    else if m.rest[0] == RBRACE then Got([m.value], m.rest[1..])
    else if m.rest[0] != COMMA then Fail
    else
      var more := ParseMembers(m.rest[1..]);
      if more.Fail? then Fail else Got([m.value] + more.value, more.rest)
  }

  // ---------------------------------------------------------------- round trip

  lemma ParseCharEscaped(c: u8, rest: seq<u8>)
    requires c != 0
    ensures ParseChar(EscapeByte(c) + rest) == Got(c, rest)
  {
    var e := EscapeByte(c);
    var s := e + rest;
    assert s[|e|..] == rest;
    assert s[0] == e[0];
    if |e| > 1 {
      assert s[1] == e[1];
    }
    if |e| == 6 {
      assert s[2] == e[2] && s[3] == e[3] && s[4] == e[4] && s[5] == e[5];
    }
  }

  lemma {:induction false} ParseCharsEscaped(z: seq<u8>, rest: seq<u8>)
    requires NulFree(z)
    ensures ParseChars(Escape(z) + [QUOTE] + rest) == Got(z, rest)
  {
    var s := Escape(z) + [QUOTE] + rest;
    if z == [] {
      assert s[1..] == rest;
    } else {
      var e, t := EscapeByte(z[0]), Escape(z[1..]) + [QUOTE] + rest;
      assert s == e + t;
      assert s[0] == e[0];
      ParseCharEscaped(z[0], t);
      ParseCharsEscaped(z[1..], rest);
      assert [z[0]] + z[1..] == z;
    }
  }

  lemma {:induction false} ParseDigitsPrinted(n: nat, rest: seq<u8>, acc: nat)
    ensures exists k: nat :: ParseDigits(Digits(n) + rest, acc) == ParseDigits(rest, k) && (acc == 0 ==> k == n)
    decreases n
  {
    if n < 10 {
      assert (Digits(n) + rest)[1..] == rest;
      assert ParseDigits(Digits(n) + rest, acc) == ParseDigits(rest, 10 * acc + n);
    } else {
      var d: seq<u8> := [48 + n % 10];
      assert Digits(n) + rest == Digits(n / 10) + (d + rest);
      ParseDigitsPrinted(n / 10, d + rest, acc);
      var k: nat :| ParseDigits(Digits(n) + rest, acc) == ParseDigits(d + rest, k) && (acc == 0 ==> k == n / 10);
      assert (d + rest)[1..] == rest;
      assert ParseDigits(d + rest, k) == ParseDigits(rest, 10 * k + n % 10);
    }
  }

  predicate EndsNumber(rest: seq<u8>) {
    rest == [] || !IsDigit(rest[0])
  }

  lemma ParseIntPrinted(n: int, rest: seq<u8>)
    requires EndsNumber(rest)
    ensures ParseInt(PrintInt(n) + rest) == Got(n, rest)
  {
    hide Digits, ParseDigits;
    if n < 0 {
      ParseNatPrinted(-n, rest);
      var s := Digits(-n) + rest;
      assert PrintInt(n) + rest == [MINUS] + s;
      assert ([MINUS] + s)[2..] == s[1..];
    } else {
      ParseNatPrinted(n, rest);
    }
  }

  lemma ParseNatPrinted(n: nat, rest: seq<u8>)
    requires EndsNumber(rest)
    ensures var s := Digits(n) + rest;
      s != [] && IsDigit(s[0]) && ParseDigits(s[1..], s[0] - 48) == (n, rest)
  {
    hide Digits, ParseDigits;
    var s := Digits(n) + rest;
    assert s[0] == Digits(n)[0];
    ParseDigitsPrinted(n, rest, 0);
    ParseDigitsStep(s, 0);
    ParseDigitsEnd(rest, n);
  }

  lemma ParseDigitsStep(s: seq<u8>, acc: nat)
    requires s != [] && IsDigit(s[0])
    ensures ParseDigits(s, acc) == ParseDigits(s[1..], 10 * acc + (s[0] - 48))
  {
  }

  lemma ParseDigitsEnd(s: seq<u8>, acc: nat)
    requires EndsNumber(s)
    ensures ParseDigits(s, acc) == (acc, s)
  {
  }

  lemma PrintStart(t: Json)
    ensures Print(t) != [] && Print(t)[0] != RBRACKET && Print(t)[0] != RBRACE
  {
    if t.Int? {
      assert PrintInt(t.n)[0] == MINUS || IsDigit(PrintInt(t.n)[0]);
    }
  }

  // How the parser composes: each lemma is one step over text already known to parse.

  lemma ParseStr(z: seq<u8>, rest: seq<u8>)
    requires NulFree(z)
    ensures ParseValue(PrintString(z) + rest) == Got(Str(z), rest)
  {
    hide ParseChars;
    ParseCharsEscaped(z, rest);
    assert (PrintString(z) + rest)[1..] == Escape(z) + [QUOTE] + rest;
  }

  lemma ParseNumber(n: int, rest: seq<u8>)
    requires EndsNumber(rest)
    ensures ParseValue(PrintInt(n) + rest) == Got(Int(n), rest)
  {
    hide ParseInt;
    ParseIntPrinted(n, rest);
    assert (PrintInt(n) + rest)[0] == PrintInt(n)[0];
  }

  lemma ParseWord(t: Json, rest: seq<u8>)
    requires t.Null? || t.Bool?
    ensures ParseValue(Print(t) + rest) == Got(t, rest)
  {
    var s := Print(t) + rest;
    var n := |Print(t)|;
    assert s[..n] == Print(t) && s[n..] == rest;
    assert s[0] == Print(t)[0];
  }

  lemma ParseArr(text: seq<u8>, items: seq<Json>, rest: seq<u8>)
    requires text != [] && text[0] != RBRACKET && ParseItems(text) == Got(items, rest)
    ensures ParseValue([LBRACKET] + text) == Got(Arr(items), rest)
  {
    hide ParseItems;
    assert ([LBRACKET] + text)[1..] == text;
  }

  lemma ParseObj(text: seq<u8>, members: seq<Member>, rest: seq<u8>)
    requires text != [] && text[0] != RBRACE && ParseMembers(text) == Got(members, rest)
    ensures ParseValue([LBRACE] + text) == Got(Obj(members), rest)
  {
    hide ParseMembers;
    assert ([LBRACE] + text)[1..] == text;
  }

  lemma ParseEmpty(rest: seq<u8>)
    ensures ParseValue([LBRACKET, RBRACKET] + rest) == Got(Arr([]), rest)
    ensures ParseValue([LBRACE, RBRACE] + rest) == Got(Obj([]), rest)
  {
    assert ([LBRACKET, RBRACKET] + rest)[2..] == rest;
    assert ([LBRACE, RBRACE] + rest)[2..] == rest;
  }

  lemma ParseLastItem(text: seq<u8>, v: Json, rest: seq<u8>)
    requires ParseValue(text) == Got(v, [RBRACKET] + rest)
    ensures ParseItems(text) == Got([v], rest)
  {
    hide ParseValue;
    assert ([RBRACKET] + rest)[1..] == rest;
  }

  lemma ParseNextItem(text: seq<u8>, v: Json, more: seq<u8>, vs: seq<Json>, rest: seq<u8>)
    requires ParseValue(text) == Got(v, [COMMA] + more) && ParseItems(more) == Got(vs, rest)
    ensures ParseItems(text) == Got([v] + vs, rest)
  {
    hide ParseValue;
    assert ([COMMA] + more)[1..] == more;
  }

  lemma ParseLastMember(text: seq<u8>, m: Member, rest: seq<u8>)
    requires ParseMember(text) == Got(m, [RBRACE] + rest)
    ensures ParseMembers(text) == Got([m], rest)
  {
    hide ParseMember;
    assert ([RBRACE] + rest)[1..] == rest;
  }

  lemma ParseNextMember(text: seq<u8>, m: Member, more: seq<u8>, ms: seq<Member>, rest: seq<u8>)
    requires ParseMember(text) == Got(m, [COMMA] + more) && ParseMembers(more) == Got(ms, rest)
    ensures ParseMembers(text) == Got([m] + ms, rest)
  {
    hide ParseMember;
    assert ([COMMA] + more)[1..] == more;
  }

  lemma ParseNamed(key: seq<u8>, text: seq<u8>, v: Json, rest: seq<u8>)
    requires NulFree(key) && ParseValue(text) == Got(v, rest)
    ensures ParseMember(PrintString(key) + [COLON] + text) == Got(Member(key, v), rest)
  {
    hide ParseValue, ParseChars;
    var tail := [COLON] + text;
    ParseCharsEscaped(key, tail);
    assert (PrintString(key) + [COLON] + text)[1..] == Escape(key) + [QUOTE] + tail;
    assert tail[1..] == text;
  }

  /** The parser recovers a tree from its text, whatever follows that does not continue a
      number. */
  lemma {:induction false} RoundTrip(t: Json, rest: seq<u8>)
    requires WellFormed(t) && EndsNumber(rest)
    ensures ParseValue(Print(t) + rest) == Got(t, rest)
    decreases t
  {
    hide ParseValue, ParseItems, ParseMembers, PrintItems, PrintMembers, PrintInt, PrintString;
    match t
    case Int(n) => ParseNumber(n, rest);
    case Str(z) => ParseStr(z, rest);
    case Arr(items) => ArrRoundTrip(items, rest);
    case Obj(members) => ObjRoundTrip(members, rest);
    case _ => ParseWord(t, rest);
  }

  lemma {:induction false} ArrRoundTrip(items: seq<Json>, rest: seq<u8>)
    requires forall i | 0 <= i < |items| :: WellFormed(items[i])
    ensures ParseValue([LBRACKET] + PrintItems(items) + [RBRACKET] + rest) == Got(Arr(items), rest)
    decreases items, 1
  {
    hide ParseValue, ParseItems, WellFormed;
    var text := PrintItems(items) + [RBRACKET] + rest;
    assert [LBRACKET] + PrintItems(items) + [RBRACKET] + rest == [LBRACKET] + text;
    if items == [] {
      ParseEmpty(rest);
      assert [LBRACKET] + text == [LBRACKET, RBRACKET] + rest;
    } else {
      ItemsRoundTrip(items, rest);
      PrintStart(items[0]);
      ParseArr(text, items, rest);
    }
  }

  lemma {:induction false} ItemsRoundTrip(items: seq<Json>, rest: seq<u8>)
    requires items != [] && forall i | 0 <= i < |items| :: WellFormed(items[i])
    ensures ParseItems(PrintItems(items) + [RBRACKET] + rest) == Got(items, rest)
    decreases items, 0
  {
    hide ParseValue, ParseItems, Print, WellFormed;
    var text := PrintItems(items) + [RBRACKET] + rest;
    if |items| == 1 {
      RoundTrip(items[0], [RBRACKET] + rest);
      assert text == Print(items[0]) + ([RBRACKET] + rest);
      ParseLastItem(text, items[0], rest);
      assert [items[0]] == items;
    } else {
      var more := PrintItems(items[1..]) + [RBRACKET] + rest;
      RoundTrip(items[0], [COMMA] + more);
      assert text == Print(items[0]) + ([COMMA] + more);
      ItemsRoundTrip(items[1..], rest);
      ParseNextItem(text, items[0], more, items[1..], rest);
      assert [items[0]] + items[1..] == items;
    }
  }

  lemma {:induction false} ObjRoundTrip(members: seq<Member>, rest: seq<u8>)
    requires forall i | 0 <= i < |members| :: NulFree(members[i].key) && WellFormed(members[i].value)
    ensures ParseValue([LBRACE] + PrintMembers(members) + [RBRACE] + rest) == Got(Obj(members), rest)
    decreases members, 1
  {
    hide ParseValue, ParseMembers, WellFormed, Print;
    var text := PrintMembers(members) + [RBRACE] + rest;
    assert [LBRACE] + PrintMembers(members) + [RBRACE] + rest == [LBRACE] + text;
    if members == [] {
      ParseEmpty(rest);
      assert [LBRACE] + text == [LBRACE, RBRACE] + rest;
    } else {
      MembersRoundTrip(members, rest);
      assert text[0] == PrintMember(members[0])[0] == QUOTE;
      ParseObj(text, members, rest);
    }
  }

  lemma {:induction false} MemberRoundTrip(m: Member, rest: seq<u8>)
    requires NulFree(m.key) && WellFormed(m.value) && EndsNumber(rest)
    ensures ParseMember(PrintMember(m) + rest) == Got(m, rest)
    decreases m, 0
  {
    hide ParseValue, ParseMember, Print, PrintString, WellFormed;
    RoundTrip(m.value, rest);
    ParseNamed(m.key, Print(m.value) + rest, m.value, rest);
    assert PrintMember(m) + rest == PrintString(m.key) + [COLON] + (Print(m.value) + rest);
  }

  lemma {:induction false} MembersRoundTrip(ms: seq<Member>, rest: seq<u8>)
    requires ms != [] && forall i | 0 <= i < |ms| :: NulFree(ms[i].key) && WellFormed(ms[i].value)
    ensures ParseMembers(PrintMembers(ms) + [RBRACE] + rest) == Got(ms, rest)
    decreases ms, 0
  {
    hide ParseMember, ParseMembers, PrintMember, WellFormed;
    var text := PrintMembers(ms) + [RBRACE] + rest;
    if |ms| == 1 {
      MemberRoundTrip(ms[0], [RBRACE] + rest);
      assert text == PrintMember(ms[0]) + ([RBRACE] + rest);
      ParseLastMember(text, ms[0], rest);
      assert [ms[0]] == ms;
    } else {
      var more := PrintMembers(ms[1..]) + [RBRACE] + rest;
      MemberRoundTrip(ms[0], [COMMA] + more);
      assert text == PrintMember(ms[0]) + ([COMMA] + more);
      MembersRoundTrip(ms[1..], rest);
      ParseNextMember(text, ms[0], more, ms[1..], rest);
      assert [ms[0]] + ms[1..] == ms;
    }
  }

  // ---------------------------------------------------------------- main results

  /** The canonical text determines the tree up to the order of members. */
  lemma CanonRecovers(t: Json)
    requires WellFormed(t)
    ensures ParseValue(Canon(t)) == Got(Norm(t), [])
    ensures Equiv(t, Norm(t))
  {
    NormIsWellFormed(t);
    RoundTrip(Norm(t), []);
    assert Canon(t) + [] == Canon(t);
    NormIdempotent(t);
    NormIffEquiv(t, Norm(t));
  }

  /** Two well-formed trees have the same canonical text exactly when they are equal as
      JSON values: no two values collide, and member order never shows. */
  lemma CanonIffEquiv(t: Json, u: Json)
    requires WellFormed(t) && WellFormed(u)
    ensures Canon(t) == Canon(u) <==> Equiv(t, u)
  {
    CanonRecovers(t);
    CanonRecovers(u);
    NormIffEquiv(t, u);
  }

  /** The text holds no NUL and no other control character, so it is its own C string and
      none of its bytes is the separator 0x1F. */
  lemma {:induction false} PrintIsPrintable(t: Json)
    ensures forall i | 0 <= i < |Print(t)| :: Print(t)[i] >= 32
    decreases t
  {
    match t
    case Str(s) => EscapeIsPrintable(s);
    case Arr(items) => ItemsPrintable(items);
    case Obj(members) => MembersPrintable(members);
    case _ =>
  }

  lemma {:induction false} EscapeIsPrintable(s: seq<u8>)
    ensures forall i | 0 <= i < |Escape(s)| :: Escape(s)[i] >= 32
  {
    if s != [] {
      EscapeIsPrintable(s[1..]);
    }
  }

  lemma {:induction false} ItemsPrintable(items: seq<Json>)
    ensures forall i | 0 <= i < |PrintItems(items)| :: PrintItems(items)[i] >= 32
    decreases items
  {
    if items != [] {
      PrintIsPrintable(items[0]);
      ItemsPrintable(items[1..]);
    }
  }

  lemma {:induction false} MembersPrintable(ms: seq<Member>)
    ensures forall i | 0 <= i < |PrintMembers(ms)| :: PrintMembers(ms)[i] >= 32
    decreases ms
  {
    if ms != [] {
      EscapeIsPrintable(ms[0].key);
      PrintIsPrintable(ms[0].value);
      assert forall i | 0 <= i < |PrintMember(ms[0])| :: PrintMember(ms[0])[i] >= 32;
      MembersPrintable(ms[1..]);
    }
  }
}
