/** JSON trees, the order of member names, and the canonical form: the same tree with the
    members of every object sorted by name. */
module CanonTree {
  import opened Bytes

  datatype Json =
    | Null
    | Bool(b: bool)
    | Int(n: int)
    | Str(s: seq<u8>)
    | Arr(items: seq<Json>)
    | Obj(members: seq<Member>)

  datatype Member = Member(key: seq<u8>, value: Json)

  const MAX_INT: int := 9_000_000_000_000_000

  predicate DistinctKeys(ms: seq<Member>) {
    forall i, j | 0 <= i < j < |ms| :: ms[i].key != ms[j].key
  }

  /** Strings are C strings, integers are within the integer branch of the printer, and
      names are distinct within an object. */
  predicate WellFormed(t: Json) {
    match t
    case Null => true
    case Bool(_) => true
    case Int(n) => -MAX_INT <= n <= MAX_INT
    case Str(s) => NulFree(s)
    case Arr(items) => forall i | 0 <= i < |items| :: WellFormed(items[i])
    case Obj(members) =>
      DistinctKeys(members) && forall i | 0 <= i < |members| :: NulFree(members[i].key) && WellFormed(members[i].value)
  }

  /** Equal as JSON values: the order of object members does not matter. */
  ghost predicate Equiv(t: Json, u: Json)
    decreases t
  {
    match t
    case Null => u.Null?
    case Bool(b) => u == t
    case Int(n) => u == t
    case Str(s) => u == t
    case Arr(items) => u.Arr? && |u.items| == |items| && forall i | 0 <= i < |items| :: Equiv(items[i], u.items[i])
    case Obj(members) =>
      && u.Obj?
      && (forall i | 0 <= i < |members| :: HasEquiv(members[i], u.members))
      && (forall j | 0 <= j < |u.members| :: HasKey(members, u.members[j].key))
  }

  /** Some member has the same name and an equal value. */
  ghost predicate HasEquiv(m: Member, ms: seq<Member>)
    decreases m
  {
    exists j :: 0 <= j < |ms| && ms[j].key == m.key && Equiv(m.value, ms[j].value)
  }

  predicate HasKey(ms: seq<Member>, key: seq<u8>) {
    exists i :: 0 <= i < |ms| && ms[i].key == key
  }

  // ---------------------------------------------------------------- order of names

  /** strcmp(a, b) < 0 on NUL-free strings: bytewise, a proper prefix first. */
  predicate Before(a: seq<u8>, b: seq<u8>) {
    b != [] && (a == [] || a[0] < b[0] || (a[0] == b[0] && Before(a[1..], b[1..])))
  }

  lemma {:induction false} BeforeIsTotal(a: seq<u8>, b: seq<u8>)
    ensures !(Before(a, b) && Before(b, a)) && !Before(a, a)
    ensures Before(a, b) || Before(b, a) || a == b
  {
    if a != [] {
      BeforeIsTotal(a[1..], a[1..]);
      if b != [] {
        BeforeIsTotal(a[1..], b[1..]);
        if a[0] == b[0] && a[1..] == b[1..] {
          assert a == [a[0]] + a[1..] == b;
        }
      }
    }
  }

  lemma {:induction false} BeforeIsTransitive(a: seq<u8>, b: seq<u8>, c: seq<u8>)
    requires Before(a, b) && Before(b, c)
    ensures Before(a, c)
  {
    if a != [] && a[0] == b[0] == c[0] {
      BeforeIsTransitive(a[1..], b[1..], c[1..]);
    }
  }

  // ---------------------------------------------------------------- sorting by name

  function Insert(m: Member, ms: seq<Member>): (r: seq<Member>)
    ensures |r| == |ms| + 1
  {
    if ms == [] then [m]
    else if Before(ms[0].key, m.key) then [ms[0]] + Insert(m, ms[1..])
    else [m] + ms
  }

  function Sort(ms: seq<Member>): (r: seq<Member>)
    ensures |r| == |ms|
  {
    if ms == [] then [] else Insert(ms[|ms| - 1], Sort(ms[..|ms| - 1]))
  }

  predicate Sorted(ms: seq<Member>) {
    forall i, j | 0 <= i < j < |ms| :: Before(ms[i].key, ms[j].key)
  }

  lemma {:induction false} InsertElems(m: Member, ms: seq<Member>)
    ensures multiset(Insert(m, ms)) == multiset(ms) + multiset{m}
  {
    if ms != [] {
      InsertElems(m, ms[1..]);
      assert ms == [ms[0]] + ms[1..];
    }
  }

  lemma {:induction false} SortElems(ms: seq<Member>)
    ensures multiset(Sort(ms)) == multiset(ms)
  {
    if ms != [] {
      var n := |ms| - 1;
      SortElems(ms[..n]);
      InsertElems(ms[n], Sort(ms[..n]));
      assert ms == ms[..n] + [ms[n]];
    }
  }

  lemma {:induction false} InsertSorted(m: Member, ms: seq<Member>)
    requires Sorted(ms) && forall i | 0 <= i < |ms| :: ms[i].key != m.key
    ensures Sorted(Insert(m, ms))
  {
    if ms != [] {
      BeforeIsTotal(ms[0].key, m.key);
      if Before(ms[0].key, m.key) {
        InsertSorted(m, ms[1..]);
        var r := Insert(m, ms[1..]);
        InsertElems(m, ms[1..]);
        forall i | 0 <= i < |r| ensures Before(ms[0].key, r[i].key) {
          assert r[i] in multiset(r);
        }
      } else {
        forall i | 0 < i < |ms| ensures Before(m.key, ms[i].key) {
          BeforeIsTransitive(m.key, ms[0].key, ms[i].key);
        }
      }
    }
  }

  lemma {:induction false} SortSorted(ms: seq<Member>)
    requires DistinctKeys(ms)
    ensures Sorted(Sort(ms))
  {
    if ms != [] {
      var n := |ms| - 1;
      SortSorted(ms[..n]);
      SortElems(ms[..n]);
      var r := Sort(ms[..n]);
      forall i | 0 <= i < |r| ensures r[i].key != ms[n].key {
        assert r[i] in multiset(r);
        assert r[i] in ms[..n];
      }
      InsertSorted(ms[n], r);
    }
  }

  /** A sorted sequence is determined by its elements. */
  lemma {:induction false} SortedUnique(x: seq<Member>, y: seq<Member>)
    requires Sorted(x) && Sorted(y)
    requires forall m :: m in x <==> m in y
    ensures x == y
  {
    if x == [] {
      ElemOrEmpty(y);
    } else {
      assert x[0] in y;
      HeadsAgree(x, y);
      forall m ensures m in x[1..] <==> m in y[1..] {
        TailElems(x, m);
        TailElems(y, m);
      }
      SortedUnique(x[1..], y[1..]);
      assert x == [x[0]] + x[1..] == y;
    }
  }

  lemma ElemOrEmpty(y: seq<Member>)
    ensures y == [] || exists m :: m in y
  {
    if y != [] {
      assert y[0] in y;
    }
  }

  lemma HeadsAgree(x: seq<Member>, y: seq<Member>)
    requires Sorted(x) && Sorted(y) && x != [] && y != []
    requires x[0] in y && y[0] in x
    ensures x[0] == y[0]
  {
    HeadFirst(x, y[0]);
    HeadFirst(y, x[0]);
    BeforeIsTotal(x[0].key, y[0].key);
  }

  lemma HeadFirst(x: seq<Member>, m: Member)
    requires Sorted(x) && m in x
    ensures m == x[0] || Before(x[0].key, m.key)
  {
  }

  lemma TailElems(x: seq<Member>, m: Member)
    requires Sorted(x) && x != []
    ensures m in x[1..] <==> m in x && m != x[0]
  {
    BeforeIsTotal(x[0].key, x[0].key);
    if m in x[1..] {
      var i :| 0 <= i < |x[1..]| && x[1..][i] == m;
      assert x[i + 1] == m && Before(x[0].key, m.key);
    }
    if m in x && m != x[0] {
      var i :| 0 <= i < |x| && x[i] == m;
      assert x[1..][i - 1] == m;
    }
  }

  // ---------------------------------------------------------------- canonical form

  /** The tree with the members of every object sorted by name. */
  function Norm(t: Json): Json {
    match t
    case Arr(items) => Arr(NormItems(items))
    case Obj(members) => Obj(Sort(NormMembers(members)))
    case _ => t
  }

  function NormItems(items: seq<Json>): (r: seq<Json>)
    ensures |r| == |items| && forall i | 0 <= i < |r| :: r[i] == Norm(items[i])
  {
    seq(|items|, i requires 0 <= i < |items| => Norm(items[i]))
  }

  function NormMembers(ms: seq<Member>): (r: seq<Member>)
    ensures |r| == |ms| && forall i | 0 <= i < |r| :: r[i] == Member(ms[i].key, Norm(ms[i].value))
  {
    seq(|ms|, i requires 0 <= i < |ms| => Member(ms[i].key, Norm(ms[i].value)))
  }

  /** Sorting looks at names only. */
  lemma {:induction false} SortNormMembers(ms: seq<Member>)
    ensures Sort(NormMembers(ms)) == NormMembers(Sort(ms))
  {
    if ms == [] {
      assert NormMembers([]) == [];
    } else {
      var n := |ms| - 1;
      SortNormMembers(ms[..n]);
      assert NormMembers(ms)[..n] == NormMembers(ms[..n]);
      InsertNormMembers(ms[n], Sort(ms[..n]));
    }
  }

  lemma {:induction false} InsertNormMembers(m: Member, ms: seq<Member>)
    ensures Insert(Member(m.key, Norm(m.value)), NormMembers(ms)) == NormMembers(Insert(m, ms))
  {
    if ms == [] {
      assert NormMembers([]) == [] && NormMembers([m]) == [Member(m.key, Norm(m.value))];
    } else {
      InsertNormMembers(m, ms[1..]);
      assert NormMembers(ms)[1..] == NormMembers(ms[1..]);
      assert NormMembers([ms[0]] + Insert(m, ms[1..])) == [NormMembers(ms)[0]] + NormMembers(Insert(m, ms[1..]));
      assert NormMembers([m] + ms) == [Member(m.key, Norm(m.value))] + NormMembers(ms);
    }
  }

  lemma {:induction false} NormIsWellFormed(t: Json)
    requires WellFormed(t)
    ensures WellFormed(Norm(t))
    decreases t
  {
    match t
    case Arr(items) =>
      forall i | 0 <= i < |items| ensures WellFormed(Norm(items[i])) {
        NormIsWellFormed(items[i]);
      }
    case Obj(members) =>
      forall i | 0 <= i < |members| ensures WellFormed(Norm(members[i].value)) {
        NormIsWellFormed(members[i].value);
      }
      var ns := NormMembers(members);
      SortSorted(ns);
      SortElems(ns);
      SortedIsDistinct(Sort(ns));
      forall i | 0 <= i < |ns| ensures NulFree(Sort(ns)[i].key) && WellFormed(Sort(ns)[i].value) {
        assert Sort(ns)[i] in multiset(Sort(ns));
        assert Sort(ns)[i] in ns;
      }
    case _ =>
  }

  /** Sorting a sorted sequence again, and normalising twice, changes nothing. */
  lemma {:induction false} NormIdempotent(t: Json)
    requires WellFormed(t)
    ensures Norm(Norm(t)) == Norm(t)
    decreases t
  {
    match t
    case Arr(items) =>
      forall i | 0 <= i < |items| ensures Norm(Norm(items[i])) == Norm(items[i]) {
        NormIdempotent(items[i]);
      }
      assert NormItems(NormItems(items)) == NormItems(items);
    case Obj(members) =>
      var ns := NormMembers(members);
      forall i | 0 <= i < |members| ensures NormMembers(ns)[i] == ns[i] {
        NormIdempotent(members[i].value);
      }
      assert NormMembers(ns) == ns;
      SortNormMembers(ns);
      NormMembersDistinct(members);
      SortSorted(ns);
      SortElems(ns);
      SortedIsDistinct(Sort(ns));
      forall m ensures m in Sort(ns) <==> m in ns {
        SortMembership(ns, m);
      }
      SortSame(Sort(ns), ns);
    case _ =>
  }

  lemma SortedIsDistinct(ms: seq<Member>)
    requires Sorted(ms)
    ensures DistinctKeys(ms)
  {
    forall i, j | 0 <= i < j < |ms| ensures ms[i].key != ms[j].key {
      BeforeIsTotal(ms[i].key, ms[j].key);
    }
  }

  // ---------------------------------------------------------------- order does not matter

  /** Two well-formed trees have the same canonical form exactly when they are equal as
      JSON values. */
  lemma {:induction false} NormIffEquiv(t: Json, u: Json)
    requires WellFormed(t) && WellFormed(u)
    ensures Norm(t) == Norm(u) <==> Equiv(t, u)
    decreases t
  {
    if t.Arr? && u.Arr? {
      forall i | 0 <= i < |t.items| && i < |u.items|
        ensures Norm(t.items[i]) == Norm(u.items[i]) <==> Equiv(t.items[i], u.items[i])
      {
        NormIffEquiv(t.items[i], u.items[i]);
      }
      ItemsAgree(t.items, u.items);
    } else if t.Obj? && u.Obj? {
      forall i, j | 0 <= i < |t.members| && 0 <= j < |u.members|
        ensures Norm(t.members[i].value) == Norm(u.members[j].value) <==> Equiv(t.members[i].value, u.members[j].value)
      {
        NormIffEquiv(t.members[i].value, u.members[j].value);
      }
      ObjectsAgree(t.members, u.members);
    }
  }

  lemma ItemsAgree(a: seq<Json>, b: seq<Json>)
    requires forall i | 0 <= i < |a| && i < |b| :: Norm(a[i]) == Norm(b[i]) <==> Equiv(a[i], b[i])
    ensures Norm(Arr(a)) == Norm(Arr(b)) <==> Equiv(Arr(a), Arr(b))
  {
    if |a| == |b| {
      if Equiv(Arr(a), Arr(b)) {
        assert NormItems(a) == NormItems(b);
      } else {
        var i :| 0 <= i < |a| && !Equiv(a[i], b[i]);
        assert NormItems(a)[i] != NormItems(b)[i];
      }
    }
  }

  lemma ObjectsAgree(a: seq<Member>, b: seq<Member>)
    requires DistinctKeys(a) && DistinctKeys(b)
    requires forall i, j | 0 <= i < |a| && 0 <= j < |b| ::
      Norm(a[i].value) == Norm(b[j].value) <==> Equiv(a[i].value, b[j].value)
    ensures Norm(Obj(a)) == Norm(Obj(b)) <==> Equiv(Obj(a), Obj(b))
  {
    hide Sort, DistinctKeys, HasEquiv, HasKey;
    forall i | 0 <= i < |a|
      ensures NormMembers(a)[i] in NormMembers(b) <==> HasEquiv(a[i], b)
    {
      MatchingMember(a[i], b);
    }
    MembersAgree(a, b);
  }

  lemma MatchingMember(m: Member, b: seq<Member>)
    requires forall j | 0 <= j < |b| :: Norm(m.value) == Norm(b[j].value) <==> Equiv(m.value, b[j].value)
    ensures Member(m.key, Norm(m.value)) in NormMembers(b) <==> HasEquiv(m, b)
  {
    var e := Member(m.key, Norm(m.value));
    if e in NormMembers(b) {
      var j :| 0 <= j < |b| && NormMembers(b)[j] == e;
      assert b[j].key == m.key && Equiv(m.value, b[j].value);
    }
    if j :| 0 <= j < |b| && b[j].key == m.key && Equiv(m.value, b[j].value) {
      assert NormMembers(b)[j] == e;
    }
  }

  /** Every member of `a` is found in `b`, and no name of `b` is missing in `a`. */
  ghost predicate Matches(a: seq<Member>, b: seq<Member>) {
    && (forall i | 0 <= i < |a| :: NormMembers(a)[i] in NormMembers(b))
    && (forall j | 0 <= j < |b| :: HasKey(a, b[j].key))
  }

  lemma MembersAgree(a: seq<Member>, b: seq<Member>)
    requires DistinctKeys(a) && DistinctKeys(b)
    ensures Sort(NormMembers(a)) == Sort(NormMembers(b)) <==> Matches(a, b)
  {
    hide Sort, DistinctKeys, Matches;
    if Sort(NormMembers(a)) == Sort(NormMembers(b)) {
      SameSortMatches(a, b);
    }
    if Matches(a, b) {
      MatchesElems(a, b);
      NormMembersDistinct(a);
      NormMembersDistinct(b);
      SortSame(NormMembers(a), NormMembers(b));
    }
  }

  lemma NormMembersDistinct(a: seq<Member>)
    requires DistinctKeys(a)
    ensures DistinctKeys(NormMembers(a))
  {
  }

  lemma SameSortMatches(a: seq<Member>, b: seq<Member>)
    requires Sort(NormMembers(a)) == Sort(NormMembers(b))
    ensures Matches(a, b)
  {
    hide Sort;
    var na, nb := NormMembers(a), NormMembers(b);
    forall j | 0 <= j < |b| ensures HasKey(a, b[j].key) {
      SortMembership(nb, nb[j]);
      SortMembership(na, nb[j]);
      var i :| 0 <= i < |na| && na[i] == nb[j];
      assert a[i].key == b[j].key;
    }
    forall i | 0 <= i < |a| ensures na[i] in nb {
      SortMembership(na, na[i]);
      SortMembership(nb, na[i]);
    }
  }

  lemma MatchesElems(a: seq<Member>, b: seq<Member>)
    requires DistinctKeys(b) && Matches(a, b)
    ensures forall m :: m in NormMembers(a) <==> m in NormMembers(b)
  {
    hide DistinctKeys;
    var na, nb := NormMembers(a), NormMembers(b);
    forall j | 0 <= j < |b| ensures nb[j] in na {
      MatchesBack(a, b, j);
    }
    forall m ensures m in na <==> m in nb {
      if m in nb {
        var j :| 0 <= j < |nb| && nb[j] == m;
      }
      if m in na {
        var i :| 0 <= i < |na| && na[i] == m;
      }
    }
  }

  lemma MatchesBack(a: seq<Member>, b: seq<Member>, j: nat)
    requires DistinctKeys(b) && Matches(a, b) && j < |b|
    ensures NormMembers(b)[j] in NormMembers(a)
  {
    assert HasKey(a, b[j].key);
    var i :| 0 <= i < |a| && a[i].key == b[j].key;
    assert NormMembers(a)[i] in NormMembers(b);
    var k :| 0 <= k < |b| && NormMembers(b)[k] == NormMembers(a)[i];
    assert b[k].key == b[j].key;
    assert k == j;
    assert NormMembers(a)[i] == NormMembers(b)[j];
  }

  lemma SortMembership(ms: seq<Member>, m: Member)
    ensures m in Sort(ms) <==> m in ms
  {
    SortElems(ms);
    assert m in Sort(ms) <==> m in multiset(ms);
  }

  /** Sequences with the same elements and distinct names sort alike. */
  lemma SortSame(x: seq<Member>, y: seq<Member>)
    requires DistinctKeys(x) && DistinctKeys(y)
    requires forall m :: m in x <==> m in y
    ensures Sort(x) == Sort(y)
  {
    hide Sort, DistinctKeys, Sorted;
    SortSorted(x);
    SortSorted(y);
    forall m ensures m in Sort(x) <==> m in Sort(y) {
      SortMembership(x, m);
      SortMembership(y, m);
    }
    SortedUnique(Sort(x), Sort(y));
  }
}
