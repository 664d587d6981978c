/** The canonical printer as it runs: a growing string buffer, an array of members sorted
    in place, and a recursion that appends. */
module CanonWriter {
  import opened Bytes
  import opened CanonTree
  import opened CanonText
  import opened CanonPieces
  import opened CanonOrder

  /** A growing C string. An append that finds no memory is dropped; `lost` records that
      this has happened. */
  class StringBuffer {
    const memory: Memory
    var data: array<u8>
    var len: nat
    var asked: nat
    ghost var lost: bool

    ghost predicate Valid()
      reads this, data
    {
      len < data.Length && data[len] == 0
    }

    ghost function B(): (b: Buf)
      requires Valid()
      reads this, data
      ensures |b.text| < b.capacity
    {
      Buf(data[..len], data.Length, asked, lost)
    }

    constructor (memory: Memory)
      ensures Valid() && fresh(data) && this.memory == memory && B() == EMPTY
    {
      this.memory := memory;
      data := new u8[128](_ => 0);
      len, asked, lost := 0, 0, false;
    }

    /** Doubles the capacity until it suffices; nothing but the count of requests changes
        when the memory is refused. */
    method Grow(need: nat) returns (granted: bool)
      requires Valid() && need > data.Length
      modifies this`data, this`asked, this`lost
      ensures Valid() && granted == memory(old(asked)) && asked == old(asked) + 1 && lost == (old(lost) || !granted)
      ensures data[..len] == old(data[..len])
      ensures if granted then fresh(data) && data.Length == Grown(2 * old(data.Length), need) else data == old(data)
    {
      var capacity := data.Length * 2;
      ghost var least := capacity;
      while capacity < need
        invariant capacity >= data.Length && Grown(capacity, need) == Grown(least, need)
        decreases need - capacity
      {
        capacity := capacity * 2;
      }
      granted := memory(asked);
      asked := asked + 1;
      if granted {
        var bigger := new u8[capacity](_ => 0);
        forall i | 0 <= i < data.Length {
          bigger[i] := data[i];
        }
        assert bigger[..len] == data[..len];
        data := bigger;
      } else {
        lost := true;
      }
    }

    /** Appends `d`; nothing of it when the memory for it is refused. */
    method Append(d: seq<u8>) returns (ok: bool)
      requires Valid()
      modifies this, data
      ensures Valid() && (data == old(data) || fresh(data)) && B() == CanonPieces.Put(old(B()), memory, d)
      ensures B().text == if ok then old(B()).text + d else old(B()).text
      ensures ok ==> lost == old(lost)
    {
      hide Grown;
      ghost var was := data[..len];
      if len + |d| + 1 > data.Length {
        var granted := Grow(len + |d| + 1);
        if !granted {
          return false;
        }
      }
      forall i | 0 <= i < |d| {
        data[len + i] := d[i];
      }
      assert data[..len] == was;
      len := len + |d|;
      data[len] := 0;
      assert data[..len] == was + d;
      ok := true;
    }

    /** Appends without looking at the outcome, as the printer does. */
    method Put(d: seq<u8>)
      requires Valid()
      modifies this, data
      ensures Valid() && (data == old(data) || fresh(data)) && B() == CanonPieces.Put(old(B()), memory, d)
    {
      var ok := Append(d);
    }

    method EmitString(z: seq<u8>)
      requires Valid()
      modifies this, data
      ensures Valid() && (data == old(data) || fresh(data)) && B() == Puts(old(B()), memory, StringPieces(z))
    {
      hide CanonPieces.Put, Puts, EscapeByte;
      ghost var final := Puts(B(), memory, StringPieces(z));
      PutsOne(B(), memory, [QUOTE], StringFrom(z, 0));
      Put([QUOTE]);
      var i := 0;
      while i < |z|
        invariant i <= |z| && Valid() && (data == old(data) || fresh(data))
        invariant Puts(B(), memory, StringFrom(z, i)) == final
      {
        PutsOne(B(), memory, EscapeByte(z[i]), StringFrom(z, i + 1));
        Put(EscapeByte(z[i]));
        i := i + 1;
      }
      PutsOne(B(), memory, [QUOTE], []);
      Put([QUOTE]);
    }
  }

  lemma {:induction false} InsertAt(m: Member, ms: seq<Member>, p: nat)
    requires p <= |ms| && forall k | 0 <= k < p :: Before(ms[k].key, m.key)
    requires p < |ms| ==> !Before(ms[p].key, m.key)
    ensures Insert(m, ms) == ms[..p] + [m] + ms[p..]
  {
    hide Before;
    if p > 0 {
      var rest := ms[1..];
      InsertAt(m, rest, p - 1);
      assert rest[p - 1..] == ms[p..];
      assert ms[..p] == [ms[0]] + rest[..p - 1];
      assert ms[..p] + [m] + ms[p..] == [ms[0]] + (rest[..p - 1] + [m] + rest[p - 1..]);
    }
  }

  /** Stands for qsort with the name comparison: sorts in place. */
  method SortByName(a: array<Member>)
    modifies a
    ensures a[..] == Sort(old(a[..])) && multiset(a[..]) == multiset(old(a[..]))
    ensures DistinctKeys(old(a[..])) ==> forall i, j | 0 <= i < j < a.Length :: Precedes(a[i].key, a[j].key)
  {
    ghost var was := a[..];
    for i := 0 to a.Length
      invariant a[..i] == Sort(was[..i]) && a[i..] == was[i..]
    {
      assert a[i] == was[i] && was[..i + 1][..i] == was[..i];
      InsertInPlace(a, i);
      assert a[i + 1..] == was[i + 1..];
    }
    assert a[..a.Length] == a[..] && was[..a.Length] == was;
    SortMeans(was);
  }

  lemma SortMeans(was: seq<Member>)
    ensures multiset(Sort(was)) == multiset(was)
    ensures DistinctKeys(was) ==> forall i, j | 0 <= i < j < |was| :: Precedes(Sort(was)[i].key, Sort(was)[j].key)
  {
    hide Sort, Before, Precedes;
    SortElems(was);
    if DistinctKeys(was) {
      SortSorted(was);
      forall i, j | 0 <= i < j < |was| ensures Precedes(Sort(was)[i].key, Sort(was)[j].key) {
        BeforeIffDiffers(Sort(was)[i].key, Sort(was)[j].key);
      }
    }
  }

  /** Moves element `i` to its place in the prefix before it. */
  method InsertInPlace(a: array<Member>, i: nat)
    requires i < a.Length
    modifies a
    ensures a[..i + 1] == Insert(old(a[i]), old(a[..i])) && a[i + 1..] == old(a[i + 1..])
  {
    hide Insert;
    var m := a[i];
    var p := 0;
    while p < i && Before(a[p].key, m.key)
      invariant p <= i && forall k | 0 <= k < p :: Before(a[k].key, m.key)
    {
      p := p + 1;
    }
    InsertAt(m, a[..i], p);
    ShiftIn(a, p, i);
  }

  /** Shifts the elements from `p` to `i` up by one and puts element `i` at `p`. */
  method ShiftIn(a: array<Member>, p: nat, i: nat)
    requires p <= i < a.Length
    modifies a
    ensures a[..][..i + 1] == old(a[..])[..i][..p] + [old(a[..])[i]] + old(a[..])[..i][p..]
    ensures a[..][i + 1..] == old(a[..])[i + 1..]
  {
    var m := a[i];
    var j := i;
    while j > p
      invariant p <= j <= i
      invariant forall k | 0 <= k < j || i < k < a.Length :: a[k] == old(a[k])
      invariant forall k | j < k <= i :: a[k] == old(a[k - 1])
    {
      a[j] := a[j - 1];
      j := j - 1;
    }
    a[p] := m;
    Shifted(old(a[..]), a[..], p, i);
  }

  lemma Shifted(x: seq<Member>, y: seq<Member>, p: nat, i: nat)
    requires p <= i < |x| == |y| && y[p] == x[i]
    requires forall k | 0 <= k < p || i < k < |x| :: y[k] == x[k]
    requires forall k | p < k <= i :: y[k] == x[k - 1]
    ensures y[..i + 1] == x[..i][..p] + [x[i]] + x[..i][p..] && y[i + 1..] == x[i + 1..]
  {
  }

  /** Appends the canonical text of `t`, piece by piece. */
  method CanonWrite(s: StringBuffer, t: Json)
    requires s.Valid()
    modifies s, s.data
    ensures s.Valid() && (s.data == old(s.data) || fresh(s.data))
    ensures s.B() == Puts(old(s.B()), s.memory, Pieces(Norm(t)))
    decreases t, 1
  {
    hide Put, Puts, PrintInt, Sort, ItemsFrom, MembersFrom, StringPieces;
    PutsOne(s.B(), s.memory, Print(Norm(t)), []);
    match t {
      case Obj(members) => WriteObject(s, members);
      case Arr(items) => WriteArray(s, items);
      case Str(z) => s.EmitString(z);
      case Int(n) => s.Put(PrintInt(n));
      case Bool(b) => s.Put(if b then TRUE_TEXT else FALSE_TEXT);
      case Null => s.Put(NULL_TEXT);
    }
  }

  method WriteArray(s: StringBuffer, items: seq<Json>)
    requires s.Valid()
    modifies s, s.data
    ensures s.Valid() && (s.data == old(s.data) || fresh(s.data))
    ensures s.B() == Puts(old(s.B()), s.memory, Pieces(Norm(Arr(items))))
    decreases items, 0
  {
    hide Put, Puts, Pieces, Norm;
    ghost var norm := NormItems(items);
    ghost var final := Puts(s.B(), s.memory, Pieces(Norm(Arr(items))));
    ArrPieces(items);
    PutsOne(s.B(), s.memory, [LBRACKET], ItemsFrom(norm, 0));
    s.Put([LBRACKET]);
    var i := 0;
    while i < |items|
      invariant i <= |items| && s.Valid() && (s.data == old(s.data) || fresh(s.data))
      invariant Puts(s.B(), s.memory, ItemsFrom(norm, i)) == final
    {
      PutsAppend(s.B(), s.memory, CommaPieces(i) + Pieces(norm[i]), ItemsFrom(norm, i + 1));
      PutsAppend(s.B(), s.memory, CommaPieces(i), Pieces(norm[i]));
      WriteComma(s, i);
      CanonWrite(s, items[i]);
      i := i + 1;
    }
    PutsOne(s.B(), s.memory, [RBRACKET], []);
    s.Put([RBRACKET]);
  }

  method WriteComma(s: StringBuffer, i: nat)
    requires s.Valid()
    modifies s, s.data
    ensures s.Valid() && (s.data == old(s.data) || fresh(s.data))
    ensures s.B() == Puts(old(s.B()), s.memory, CommaPieces(i))
  {
    hide Put;
    PutsOne(s.B(), s.memory, [COMMA], []);
    if i > 0 {
      s.Put([COMMA]);
    }
  }

  lemma ArrPieces(items: seq<Json>)
    ensures Pieces(Norm(Arr(items))) == [[LBRACKET]] + ItemsFrom(NormItems(items), 0)
  {
  }

  method WriteObject(s: StringBuffer, members: seq<Member>)
    requires s.Valid()
    modifies s, s.data
    ensures s.Valid() && (s.data == old(s.data) || fresh(s.data))
    ensures s.B() == Puts(old(s.B()), s.memory, Pieces(Norm(Obj(members))))
    decreases members, 0
  {
    hide Put, Puts, Pieces, Norm, Sort, MemberPieces;
    var kids := new Member[|members|](i requires 0 <= i < |members| => members[i]);
    assert kids[..] == members;
    SortByName(kids);
    ghost var sorted := Sort(members);
    ghost var norm := NormMembers(sorted);
    ghost var final := Puts(s.B(), s.memory, Pieces(Norm(Obj(members))));
    ObjPieces(members);
    PutsOne(s.B(), s.memory, [LBRACE], MembersFrom(norm, 0));
    s.Put([LBRACE]);
    var i := 0;
    while i < kids.Length
      invariant i <= kids.Length && s.Valid() && (s.data == old(s.data) || fresh(s.data))
      invariant kids[..] == sorted
      invariant Puts(s.B(), s.memory, MembersFrom(norm, i)) == final
    {
      assert kids[i] == sorted[i];
      SortMembership(members, kids[i]);
      PutsAppend(s.B(), s.memory, MemberPieces(norm[i], i), MembersFrom(norm, i + 1));
      WriteMember(s, kids[i], i);
      i := i + 1;
    }
    PutsOne(s.B(), s.memory, [RBRACE], []);
    s.Put([RBRACE]);
  }

  /** Member `i`, after a comma unless it is the first. */
  method WriteMember(s: StringBuffer, m: Member, i: nat)
    requires s.Valid()
    modifies s, s.data
    ensures s.Valid() && (s.data == old(s.data) || fresh(s.data))
    ensures s.B() == Puts(old(s.B()), s.memory, MemberPieces(Member(m.key, Norm(m.value)), i))
    decreases m, 0
  {
    hide Put, Puts, Pieces, StringPieces, CommaPieces;
    ghost var comma, key, value := CommaPieces(i), StringPieces(m.key), Pieces(Norm(m.value));
    PutsAppend(s.B(), s.memory, comma + key + [[COLON]], value);
    PutsAppend(s.B(), s.memory, comma + key, [[COLON]]);
    PutsAppend(s.B(), s.memory, comma, key);
    WriteComma(s, i);
    s.EmitString(m.key);
    PutsOne(s.B(), s.memory, [COLON], []);
    s.Put([COLON]);
    CanonWrite(s, m.value);
  }

  lemma ObjPieces(members: seq<Member>)
    ensures Pieces(Norm(Obj(members))) == [[LBRACE]] + MembersFrom(NormMembers(Sort(members)), 0)
    ensures |NormMembers(Sort(members))| == |members|
  {
    SortNormMembers(members);
    hide Sort;
  }

  /** Builds the text; it is the canonical one exactly when no piece was dropped, which no
      caller can see. */
  method CanonBuild(t: Json, memory: Memory) returns (s: StringBuffer)
    ensures s.Valid() && s.B() == Built(t, memory)
    ensures s.B().text == Canon(t) <==> !s.lost
  {
    hide Puts;
    s := new StringBuffer(memory);
    CanonWrite(s, t);
    ExactIffNothingLost(t, memory);
  }
}
