/** What makes the canonical text canonical, said without the functions that produce it:
    names in the order of their bytes, the shortest escapes, no leading zeros. */
module CanonOrder {
  import opened Bytes
  import opened CanonTree
  import opened CanonText

  // ---------------------------------------------------------------- names

  /** The names agree up to `i`, and there the first one ends or has the smaller byte. */
  predicate DiffersAt(a: seq<u8>, b: seq<u8>, i: nat) {
    && i <= |a| && i < |b| && a[..i] == b[..i]
    && (i == |a| || a[i] < b[i])
  }

  ghost predicate Precedes(a: seq<u8>, b: seq<u8>) {
    exists i: nat :: DiffersAt(a, b, i)
  }

  lemma BeforeDiffers(a: seq<u8>, b: seq<u8>) returns (i: nat)
    requires Before(a, b)
    ensures DiffersAt(a, b, i)
  {
    if a == [] || a[0] < b[0] {
      i := 0;
    } else {
      var k := BeforeDiffers(a[1..], b[1..]);
      i := k + 1;
      assert a == [a[0]] + a[1..] && b == [b[0]] + b[1..];
    }
  }

  lemma {:induction false} DiffersBefore(a: seq<u8>, b: seq<u8>, i: nat)
    requires DiffersAt(a, b, i)
    ensures Before(a, b)
    decreases i
  {
    if i > 0 {
      assert a[0] == a[..i][0] == b[..i][0] == b[0];
      assert a[1..][..i - 1] == a[..i][1..] && b[1..][..i - 1] == b[..i][1..];
      DiffersBefore(a[1..], b[1..], i - 1);
    }
  }

  /** The order of names is that of the first byte in which they differ. */
  lemma BeforeIffDiffers(a: seq<u8>, b: seq<u8>)
    ensures Before(a, b) <==> Precedes(a, b)
  {
    if Before(a, b) {
      var i := BeforeDiffers(a, b);
    }
    if i: nat :| DiffersAt(a, b, i) {
      DiffersBefore(a, b, i);
    }
  }

  /** In every object of the tree each name comes before all later ones. */
  ghost predicate Ordered(t: Json)
    decreases t
  {
    match t
    case Arr(items) => forall i | 0 <= i < |items| :: Ordered(items[i])
    case Obj(ms) =>
      && (forall i | 0 <= i < |ms| :: Ordered(ms[i].value))
      && (forall i, j | 0 <= i < j < |ms| :: Precedes(ms[i].key, ms[j].key))
    case _ => true
  }

  lemma {:induction false} NormIsOrdered(t: Json)
    requires WellFormed(t)
    ensures Ordered(Norm(t))
    decreases t
  {
    match t
    case Arr(items) =>
      forall i | 0 <= i < |items| ensures Ordered(Norm(items[i])) {
        NormIsOrdered(items[i]);
      }
    case Obj(members) =>
      forall i | 0 <= i < |members| ensures Ordered(Norm(members[i].value)) {
        NormIsOrdered(members[i].value);
      }
      MembersOrdered(NormMembers(members));
    case _ =>
  }

  lemma MembersOrdered(ns: seq<Member>)
    requires DistinctKeys(ns) && forall i | 0 <= i < |ns| :: Ordered(ns[i].value)
    ensures Ordered(Obj(Sort(ns)))
  {
    hide Sort, Before, Precedes;
    SortSorted(ns);
    var ms := Sort(ns);
    forall i | 0 <= i < |ms| ensures Ordered(ms[i].value) {
      SortMembership(ns, ms[i]);
      assert ms[i] in ms;
    }
    forall i, j | 0 <= i < j < |ms| ensures Precedes(ms[i].key, ms[j].key) {
      BeforeIffDiffers(ms[i].key, ms[j].key);
    }
  }

  /** What a parser finds in the canonical text is an equal value, and in every object of it
      the names ascend. */
  lemma CanonIsOrdered(t: Json)
    requires WellFormed(t)
    ensures ParseValue(Canon(t)) == Got(Norm(t), []) && Equiv(t, Norm(t)) && Ordered(Norm(t))
  {
    hide ParseValue, Norm, Equiv, Ordered;
    CanonRecovers(t);
    NormIsOrdered(t);
  }

  // ---------------------------------------------------------------- strings and numbers

  /** The text of one character inside a JSON string: no bare quote, no bare control
      character. */
  predicate Legal(r: seq<u8>) {
    r != [] && forall i | 0 <= i < |r| :: r[i] >= 32 && (r[i] == QUOTE ==> i == 1 && r[0] == BACKSLASH)
  }

  /** Each character is printed in the shortest way a parser takes for it; every other way
      is longer. */
  lemma EscapeIsShortest(c: u8, r: seq<u8>)
    requires Legal(r) && ParseChar(r) == Got(c, [])
    ensures Legal(EscapeByte(c)) && (r == EscapeByte(c) || |r| > |EscapeByte(c)|)
  {
    HexDigits(c);
  }

  lemma HexDigits(c: u8)
    ensures Unhex(Hex(c / 16 % 16)) == c / 16 && Unhex(Hex(c % 16)) == c % 16
  {
  }

  /** Numbers are printed without leading zeros, and zero without a sign. */
  lemma NoLeadingZero(n: int)
    ensures var s := PrintInt(n);
      && (n >= 0 ==> |s| == 1 || s[0] != 48) && (n < 0 ==> s[0] == MINUS && |s| >= 2 && s[1] != 48)
  {
    DigitsStart(if n < 0 then -n else n);
  }

  lemma {:induction false} DigitsStart(n: nat)
    ensures Digits(n)[0] == 48 ==> n == 0 && |Digits(n)| == 1
    decreases n
  {
    if n >= 10 {
      DigitsStart(n / 10);
      assert Digits(n)[0] == Digits(n / 10)[0];
    }
  }

  /** The values all of this is about: every kind of value, integers up to 9e15 either way,
      any text without NUL. */
  lemma EveryKindIsWellFormed(b: bool, n: int, s: seq<u8>, key: seq<u8>)
    requires -9_000_000_000_000_000 <= n <= 9_000_000_000_000_000 && NulFree(s) && NulFree(key)
    ensures WellFormed(Null) && WellFormed(Bool(b)) && WellFormed(Int(n)) && WellFormed(Str(s))
    ensures WellFormed(Arr([Null, Bool(b), Int(n), Str(s)])) && WellFormed(Obj([Member(key, Arr([Bool(b)]))]))
  {
  }
}
