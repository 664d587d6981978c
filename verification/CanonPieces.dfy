/** What the canonical printer hands to its buffer, piece by piece, and what a buffer makes
    of it whose growth the system may refuse. */
module CanonPieces {
  import opened Bytes
  import opened CanonTree
  import opened CanonText

  /** Whether the k-th request for more memory is granted. */
  type Memory = nat -> bool

  /** The text so far, the capacity, the requests made, whether a piece was dropped. */
  datatype Buf = Buf(text: seq<u8>, capacity: nat, asked: nat, lost: bool)

  const EMPTY := Buf([], 128, 0, false)

  /** The capacity doubles until it suffices. */
  function Grown(capacity: nat, need: nat): (c: nat)
    requires capacity > 0
    ensures c >= need && c >= capacity
    decreases need - capacity
  {
    if capacity >= need then capacity else Grown(2 * capacity, need)
  }

  /** Appends `d`, or drops it when there is no memory. */
  function Put(b: Buf, memory: Memory, d: seq<u8>): (m: Buf)
    requires |b.text| < b.capacity
    ensures |m.text| < m.capacity
  {
    if |b.text| + |d| + 1 <= b.capacity then b.(text := b.text + d)
    else if memory(b.asked) then
      b.(text := b.text + d, capacity := Grown(2 * b.capacity, |b.text| + |d| + 1), asked := b.asked + 1)
    else b.(asked := b.asked + 1, lost := true)
  }

  function Puts(b: Buf, memory: Memory, ds: seq<seq<u8>>): (m: Buf)
    requires |b.text| < b.capacity
    ensures |m.text| < m.capacity
    decreases |ds|
  {
    if ds == [] then b else Puts(Put(b, memory, ds[0]), memory, ds[1..])
  }

  lemma {:induction false} PutsAppend(b: Buf, memory: Memory, xs: seq<seq<u8>>, ys: seq<seq<u8>>)
    requires |b.text| < b.capacity
    ensures Puts(b, memory, xs + ys) == Puts(Puts(b, memory, xs), memory, ys)
    decreases |xs|
  {
    hide Put;
    if xs == [] {
      assert xs + ys == ys;
    } else {
      assert (xs + ys)[1..] == xs[1..] + ys;
      PutsAppend(Put(b, memory, xs[0]), memory, xs[1..], ys);
    }
  }

  lemma PutsOne(b: Buf, memory: Memory, d: seq<u8>, ds: seq<seq<u8>>)
    requires |b.text| < b.capacity
    ensures Puts(b, memory, [d] + ds) == Puts(Put(b, memory, d), memory, ds)
    ensures Puts(b, memory, [d]) == Put(b, memory, d)
  {
    hide Put;
    assert ([d] + ds)[1..] == ds;
    assert [d][1..] == [];
  }

  // ---------------------------------------------------------------- the pieces of a tree

  /** A string from character `i` on, closing quote included. */
  function StringFrom(z: seq<u8>, i: nat): seq<seq<u8>>
    requires i <= |z|
    decreases |z| - i
  {
    if i == |z| then [[QUOTE]] else [EscapeByte(z[i])] + StringFrom(z, i + 1)
  }

  function StringPieces(z: seq<u8>): seq<seq<u8>> {
    [[QUOTE]] + StringFrom(z, 0)
  }

  function CommaPieces(i: nat): seq<seq<u8>> {
    if i > 0 then [[COMMA]] else []
  }

  function Pieces(t: Json): seq<seq<u8>>
    decreases t
  {
    match t
    case Obj(members) => [[LBRACE]] + MembersFrom(members, 0)
    case Arr(items) => [[LBRACKET]] + ItemsFrom(items, 0)
    case Str(z) => StringPieces(z)
    case _ => [Print(t)]
  }

  /** Items from `i` on, with their commas and the closing bracket. */
  function ItemsFrom(items: seq<Json>, i: nat): seq<seq<u8>>
    requires i <= |items|
    decreases items, |items| - i
  {
    if i == |items| then [[RBRACKET]] else CommaPieces(i) + Pieces(items[i]) + ItemsFrom(items, i + 1)
  }

  function MemberPieces(m: Member, i: nat): seq<seq<u8>>
    decreases m
  {
    CommaPieces(i) + StringPieces(m.key) + [[COLON]] + Pieces(m.value)
  }

  function MembersFrom(ms: seq<Member>, i: nat): seq<seq<u8>>
    requires i <= |ms|
    decreases ms, |ms| - i
  {
    if i == |ms| then [[RBRACE]] else MemberPieces(ms[i], i) + MembersFrom(ms, i + 1)
  }

  /** What is built of `t`. */
  function Built(t: Json, memory: Memory): Buf {
    Puts(EMPTY, memory, Pieces(Norm(t)))
  }

  // ---------------------------------------------------------------- together they are the text

  function Flat(ds: seq<seq<u8>>): seq<u8> {
    if ds == [] then [] else ds[0] + Flat(ds[1..])
  }

  lemma {:induction false} FlatAppend(xs: seq<seq<u8>>, ys: seq<seq<u8>>)
    ensures Flat(xs + ys) == Flat(xs) + Flat(ys)
  {
    if xs == [] {
      assert xs + ys == ys;
    } else {
      assert (xs + ys)[1..] == xs[1..] + ys;
      FlatAppend(xs[1..], ys);
    }
  }

  lemma FlatOne(d: seq<u8>, ds: seq<seq<u8>>)
    ensures Flat([d] + ds) == d + Flat(ds) && Flat([d]) == d
  {
    assert ([d] + ds)[1..] == ds;
    assert [d][1..] == [];
  }

  lemma {:induction false} StringText(z: seq<u8>, i: nat)
    requires i <= |z|
    ensures Flat(StringFrom(z, i)) == Escape(z[i..]) + [QUOTE]
    decreases |z| - i
  {
    hide EscapeByte, Flat;
    if i == |z| {
      FlatOne([QUOTE], []);
    } else {
      StringText(z, i + 1);
      FlatOne(EscapeByte(z[i]), StringFrom(z, i + 1));
      assert z[i..][1..] == z[i + 1..];
    }
  }

  lemma StringWhole(z: seq<u8>)
    ensures Flat(StringPieces(z)) == PrintString(z)
  {
    hide Flat, Escape;
    StringText(z, 0);
    FlatOne([QUOTE], StringFrom(z, 0));
    assert z[0..] == z;
  }

  function Comma(i: nat): seq<u8> {
    if i > 0 then [COMMA] else []
  }

  lemma CommaText(i: nat)
    ensures Flat(CommaPieces(i)) == Comma(i)
  {
    FlatOne([COMMA], []);
  }

  /** The text from item `i` on. */
  function ItemsText(items: seq<Json>, i: nat): seq<u8>
    requires i <= |items|
  {
    (if i == 0 then PrintItems(items) else if i == |items| then [] else [COMMA] + PrintItems(items[i..])) + [RBRACKET]
  }

  lemma ItemsStep(items: seq<Json>, i: nat)
    requires i < |items|
    ensures ItemsText(items, i) == Comma(i) + (Print(items[i]) + ItemsText(items, i + 1))
  {
    assert items[i..][0] == items[i] && items[i..][1..] == items[i + 1..];
    assert items[0..] == items;
  }

  function MembersText(ms: seq<Member>, i: nat): seq<u8>
    requires i <= |ms|
  {
    (if i == 0 then PrintMembers(ms) else if i == |ms| then [] else [COMMA] + PrintMembers(ms[i..])) + [RBRACE]
  }

  lemma MembersStep(ms: seq<Member>, i: nat)
    requires i < |ms|
    ensures MembersText(ms, i) == Comma(i) + (PrintMember(ms[i]) + MembersText(ms, i + 1))
  {
    hide PrintMember;
    assert ms[i..][0] == ms[i] && ms[i..][1..] == ms[i + 1..];
    assert ms[0..] == ms;
  }

  lemma NoText()
    ensures PrintItems([]) == [] && PrintMembers([]) == []
  {
  }

  /** The pieces of a tree, put together, are its text. */
  lemma {:induction false} PiecesText(t: Json)
    ensures Flat(Pieces(t)) == Print(t)
    decreases t
  {
    hide Flat, PrintItems, PrintMembers;
    match t
    case Obj(members) =>
      MembersPieces(members, 0);
      FlatOne([LBRACE], MembersFrom(members, 0));
      assert Print(t) == [LBRACE] + MembersText(members, 0);
    case Arr(items) =>
      ItemsPieces(items, 0);
      FlatOne([LBRACKET], ItemsFrom(items, 0));
      assert Print(t) == [LBRACKET] + ItemsText(items, 0);
    case Str(z) => StringWhole(z);
    case _ => FlatOne(Print(t), []);
  }

  lemma {:induction false} ItemsPieces(items: seq<Json>, i: nat)
    requires i <= |items|
    ensures Flat(ItemsFrom(items, i)) == ItemsText(items, i)
    decreases items, |items| - i
  {
    hide Flat, Print, PrintItems;
    if i == |items| {
      NoText();
      FlatOne([RBRACKET], []);
      assert [] + [RBRACKET] == [RBRACKET];
    } else {
      PiecesText(items[i]);
      ItemsPieces(items, i + 1);
      ItemsStep(items, i);
      CommaText(i);
      FlatAppend(CommaPieces(i), Pieces(items[i]));
      FlatAppend(CommaPieces(i) + Pieces(items[i]), ItemsFrom(items, i + 1));
      Assoc(Comma(i), Print(items[i]), ItemsText(items, i + 1));
    }
  }

  lemma {:induction false} MemberText(m: Member, i: nat)
    ensures Flat(MemberPieces(m, i)) == Comma(i) + PrintMember(m)
    decreases m
  {
    hide Flat, Print, PrintString;
    CommaText(i);
    StringWhole(m.key);
    PiecesText(m.value);
    FlatAppend(CommaPieces(i), StringPieces(m.key));
    FlatOne([COLON], []);
    FlatAppend(CommaPieces(i) + StringPieces(m.key), [[COLON]]);
    FlatAppend(CommaPieces(i) + StringPieces(m.key) + [[COLON]], Pieces(m.value));
    var c, k, v := Comma(i), PrintString(m.key), Print(m.value);
    assert c + k + [COLON] + v == c + (k + [COLON] + v);
  }

  lemma {:induction false} MembersPieces(ms: seq<Member>, i: nat)
    requires i <= |ms|
    ensures Flat(MembersFrom(ms, i)) == MembersText(ms, i)
    decreases ms, |ms| - i
  {
    hide Flat, Print, PrintMembers, PrintMember;
    if i == |ms| {
      NoText();
      FlatOne([RBRACE], []);
      assert [] + [RBRACE] == [RBRACE];
    } else {
      MemberText(ms[i], i);
      MembersPieces(ms, i + 1);
      MembersStep(ms, i);
      FlatAppend(MemberPieces(ms[i], i), MembersFrom(ms, i + 1));
      Assoc(Comma(i), PrintMember(ms[i]), MembersText(ms, i + 1));
    }
  }

  lemma Assoc(x: seq<u8>, y: seq<u8>, z: seq<u8>)
    ensures x + y + z == x + (y + z)
  {
  }

  // ---------------------------------------------------------------- refused memory

  /** As long as nothing is dropped the text is complete; once a piece is, it stays short. */
  lemma {:induction false} PutsText(b: Buf, memory: Memory, ds: seq<seq<u8>>)
    requires |b.text| < b.capacity
    ensures var m := Puts(b, memory, ds);
      && (!m.lost ==> !b.lost && m.text == b.text + Flat(ds))
      && (m.lost && !b.lost ==> |m.text| < |b.text| + |Flat(ds)|)
      && |m.text| <= |b.text| + |Flat(ds)|
    decreases |ds|
  {
    if ds != [] {
      PutsText(Put(b, memory, ds[0]), memory, ds[1..]);
      assert b.text + ds[0] + Flat(ds[1..]) == b.text + (ds[0] + Flat(ds[1..]));
    } else {
      assert b.text + [] == b.text;
    }
  }

  /** What fits needs no memory. */
  lemma {:induction false} PutsFits(b: Buf, memory: Memory, ds: seq<seq<u8>>)
    requires |b.text| + |Flat(ds)| < b.capacity
    ensures Puts(b, memory, ds).lost == b.lost
    decreases |ds|
  {
    if ds != [] {
      PutsFits(Put(b, memory, ds[0]), memory, ds[1..]);
    }
  }

  /** Without memory the capacity stays. */
  lemma {:induction false} PutsNoMemory(b: Buf, memory: Memory, ds: seq<seq<u8>>)
    requires |b.text| < b.capacity && forall k :: !memory(k)
    ensures Puts(b, memory, ds).capacity == b.capacity
    decreases |ds|
  {
    if ds != [] {
      PutsNoMemory(Put(b, memory, ds[0]), memory, ds[1..]);
    }
  }

  /** The built text is the canonical text exactly when no piece was dropped. */
  lemma ExactIffNothingLost(t: Json, memory: Memory)
    ensures Built(t, memory).text == Canon(t) <==> !Built(t, memory).lost
  {
    hide Puts, Pieces, Norm;
    PutsText(EMPTY, memory, Pieces(Norm(t)));
    PiecesText(Norm(t));
    assert [] + Print(Norm(t)) == Print(Norm(t));
  }

  /** Whatever memory there is, the built text is the canonical text, if and only if that is
      shorter than 128 bytes. */
  lemma ExactlyShortTexts(t: Json)
    ensures (forall memory: Memory :: Built(t, memory).text == Canon(t)) <==> |Canon(t)| < 128
  {
    hide Puts, Pieces, Norm;
    PiecesText(Norm(t));
    if |Canon(t)| < 128 {
      forall memory: Memory
        ensures Built(t, memory).text == Canon(t)
      {
        PutsFits(EMPTY, memory, Pieces(Norm(t)));
        ExactIffNothingLost(t, memory);
      }
    } else {
      var none: Memory := k => false;
      PutsNoMemory(EMPTY, none, Pieces(Norm(t)));
      assert |Built(t, none).text| < 128;
    }
  }

  function Letters(n: nat): (z: seq<u8>)
    ensures |z| == n && forall i | 0 <= i < n :: z[i] == 97
  {
    seq(n, _ => 97)
  }

  /** Once 127 bytes are there, letters and the closing quote are dropped. */
  lemma {:induction false} LettersCut(b: Buf, memory: Memory, n: nat, i: nat)
    requires i <= n && n >= 126 && b.capacity == 128 && forall k :: !memory(k)
    requires b.text == [QUOTE] + Letters(if i < 126 then i else 126)
    ensures Puts(b, memory, StringFrom(Letters(n), i)).text == [QUOTE] + Letters(126)
    decreases n - i
  {
    hide Puts, Letters;
    var z := Letters(n);
    if i == n {
      PutsOne(b, memory, [QUOTE], []);
    } else {
      PutsOne(b, memory, EscapeByte(z[i]), StringFrom(z, i + 1));
      assert i < 126 ==> Letters(i) + [97] == Letters(i + 1);
      LettersCut(Put(b, memory, EscapeByte(z[i])), memory, n, i + 1);
    }
  }

  /** Such values: without memory all strings of 126 letters or more have one text, so
      different values have equal texts. */
  lemma SameTextWithoutMemory(memory: Memory, n: nat)
    requires n >= 126 && forall k :: !memory(k)
    ensures Built(Str(Letters(n)), memory).text == [QUOTE] + Letters(126)
    ensures Built(Str(Letters(n)), memory).text == Built(Str(Letters(n + 1)), memory).text
    ensures !Equiv(Str(Letters(n)), Str(Letters(n + 1)))
  {
    LettersBuilt(memory, n);
    LettersBuilt(memory, n + 1);
  }

  lemma LettersBuilt(memory: Memory, n: nat)
    requires n >= 126 && forall k :: !memory(k)
    ensures Built(Str(Letters(n)), memory).text == [QUOTE] + Letters(126)
  {
    hide Puts, StringFrom;
    var z := Letters(n);
    PutsOne(EMPTY, memory, [QUOTE], StringFrom(z, 0));
    assert Put(EMPTY, memory, [QUOTE]).text == [QUOTE] + Letters(0);
    LettersCut(Put(EMPTY, memory, [QUOTE]), memory, n, 0);
  }

  function PowerOf2(k: nat): nat {
    if k == 0 then 1 else 2 * PowerOf2(k - 1)
  }

  /** The capacity is doubled as often as needed, and no more. */
  lemma {:induction false} GrownIsLeast(capacity: nat, need: nat) returns (k: nat)
    requires capacity > 0
    ensures Grown(capacity, need) == PowerOf2(k) * capacity >= need
    ensures k > 0 ==> PowerOf2(k - 1) * capacity < need
    decreases need - capacity
  {
    if capacity >= need {
      k := 0;
    } else {
      k := GrownIsLeast(2 * capacity, need);
      assert PowerOf2(k) * (2 * capacity) == PowerOf2(k + 1) * capacity;
      if k > 0 {
        assert PowerOf2(k - 1) * (2 * capacity) == PowerOf2(k) * capacity;
      }
      k := k + 1;
    }
  }

  /** A piece asks for memory once if it does not fit with its terminator, else not at all;
      granted, the capacity is the least doubling that holds both. */
  lemma PutAsks(b: Buf, memory: Memory, d: seq<u8>)
    requires |b.text| < b.capacity
    ensures var m, need := Put(b, memory, d), |b.text| + |d| + 1;
      && m.asked == b.asked + (if need > b.capacity then 1 else 0)
      && (m.capacity != b.capacity <==> need > b.capacity && memory(b.asked))
      && (m.capacity != b.capacity ==> m.capacity >= need && (m.capacity == 2 * b.capacity || m.capacity < 2 * need))
      && (need <= b.capacity || memory(b.asked) <==> m.lost == b.lost && m.text == b.text + d)
  {
    var need := |b.text| + |d| + 1;
    if need > b.capacity {
      var k := GrownIsLeast(2 * b.capacity, need);
      if k > 0 {
        assert PowerOf2(k) * (2 * b.capacity) == 2 * (PowerOf2(k - 1) * (2 * b.capacity));
      }
    }
  }
}
