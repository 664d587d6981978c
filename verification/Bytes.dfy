/** Fixed-width integers, little-endian serialisation and byte-sequence updates
    shared by the models of the firmware components. */
module Bytes {

  const TWO_8: int := 0x100
  const TWO_16: int := 0x1_0000
  const TWO_24: int := 0x100_0000
  const TWO_32: int := 0x1_0000_0000

  type u8 = x: int | 0 <= x < TWO_8
  type u16 = x: int | 0 <= x < TWO_16
  type u32 = x: int | 0 <= x < TWO_32
  type i32 = x: int | -0x8000_0000 <= x < 0x8000_0000

  /** The value an unsigned 32-bit variable holds after being assigned `x`. */
  function Wrap32(x: int): u32 {
    x % TWO_32
  }

  /** Wrapping early does not change the sum. */
  lemma WrapAdd(x: int, y: int)
    ensures Wrap32(Wrap32(x) + y) == Wrap32(x + y)
  {
  }

  /** `a - b` on unsigned 32-bit operands. */
  function Sub32(a: u32, b: u32): u32 {
    Wrap32(a - b)
  }

  /** Cast of a signed to an unsigned 32-bit value, and back. */
  function AsUnsigned(x: i32): u32 {
    if x < 0 then x + TWO_32 else x
  }

  function AsSigned(x: u32): i32 {
    if x >= 0x8000_0000 then x - TWO_32 else x
  }

  function Le16(v: u16): (s: seq<u8>)
    ensures |s| == 2
  {
    [v % TWO_8, v / TWO_8]
  }

  function Le32(v: u32): (s: seq<u8>)
    ensures |s| == 4
  {
    [v % TWO_8, v / TWO_8 % TWO_8, v / TWO_16 % TWO_8, v / TWO_24]
  }

  function FromLe16(s: seq<u8>): u16
    requires |s| == 2
  {
    s[0] + TWO_8 * s[1]
  }

  function FromLe32(s: seq<u8>): u32
    requires |s| == 4
  {
    s[0] + TWO_8 * s[1] + TWO_16 * s[2] + TWO_24 * s[3]
  }

  lemma Le16RoundTrip(v: u16)
    ensures FromLe16(Le16(v)) == v
  {
  }

  lemma Le32RoundTrip(v: u32)
    ensures FromLe32(Le32(v)) == v
  {
    assert v / TWO_16 == v / TWO_8 / TWO_8;
    assert v / TWO_24 == v / TWO_16 / TWO_8;
  }

  /** `s` with the bytes `d` stored at offset `at`. */
  function Patch(s: seq<u8>, at: nat, d: seq<u8>): (r: seq<u8>)
    requires at + |d| <= |s|
    ensures |r| == |s|
    ensures r[at..at + |d|] == d
    ensures r[..at] == s[..at] && r[at + |d|..] == s[at + |d|..]
  {
    s[..at] + d + s[at + |d|..]
  }

  lemma PatchAppend(s: seq<u8>, at: nat, d: seq<u8>, d': seq<u8>)
    requires at + |d| + |d'| <= |s|
    ensures Patch(Patch(s, at, d), at + |d|, d') == Patch(s, at, d + d')
  {
  }

  /** A window that does not meet the patched one keeps its bytes. */
  lemma PatchFrame(s: seq<u8>, at: nat, d: seq<u8>, lo: nat, hi: nat)
    requires at + |d| <= |s| && lo <= hi <= |s|
    requires hi <= at || at + |d| <= lo
    ensures Patch(s, at, d)[lo..hi] == s[lo..hi]
  {
    var r := Patch(s, at, d);
    if hi <= at {
      assert r[lo..hi] == r[..at][lo..hi];
      assert s[lo..hi] == s[..at][lo..hi];
    } else {
      var m := at + |d|;
      assert r[lo..hi] == r[m..][lo - m..hi - m];
      assert s[lo..hi] == s[m..][lo - m..hi - m];
    }
  }

  lemma SliceOf(x: seq<u8>, y: seq<u8>)
    ensures (x + y)[0..|x|] == x && (x + y)[|x|..] == y
  {
  }

  lemma SliceAfter(x: seq<u8>, y: seq<u8>, lo: nat, hi: nat)
    requires lo <= hi <= |y|
    ensures (x + y)[|x| + lo..|x| + hi] == y[lo..hi]
  {
  }

  lemma SliceOfSlice(s: seq<u8>, lo: nat, hi: nat, from: nat, to: nat)
    requires lo <= hi <= |s| && from <= to <= hi - lo
    ensures s[lo..hi][from..to] == s[lo + from..lo + to]
  {
    var x, y := s[lo..hi][from..to], s[lo + from..lo + to];
    assert forall k | 0 <= k < |x| :: x[k] == s[lo..hi][from + k] == s[lo + from + k] == y[k];
  }

  /** memcpy of `d` into `a` at offset `at`. */
  method Store(a: array<u8>, at: nat, d: seq<u8>)
    requires at + |d| <= a.Length
    modifies a
    ensures a[..] == Patch(old(a[..]), at, d)
  {
    forall i | 0 <= i < |d| {
      a[at + i] := d[i];
    }
    assert a[..] == Patch(old(a[..]), at, d);
  }

  method StoreU16(a: array<u8>, at: nat, v: u16)
    requires at + 2 <= a.Length
    modifies a
    ensures a[..] == Patch(old(a[..]), at, Le16(v))
  {
    a[at] := v % TWO_8;
    a[at + 1] := v / TWO_8;
    assert a[..] == Patch(old(a[..]), at, Le16(v));
  }

  method StoreU32(a: array<u8>, at: nat, v: u32)
    requires at + 4 <= a.Length
    modifies a
    ensures a[..] == Patch(old(a[..]), at, Le32(v))
  {
    a[at] := v % TWO_8;
    a[at + 1] := v / TWO_8 % TWO_8;
    a[at + 2] := v / TWO_16 % TWO_8;
    a[at + 3] := v / TWO_24;
    assert a[..] == Patch(old(a[..]), at, Le32(v));
  }

  /** The C string stored at offset `at`: everything before the first NUL. */
  function CString(s: seq<u8>, at: nat): seq<u8>
    decreases |s| - at
  {
    if at >= |s| || s[at] == 0 then [] else [s[at]] + CString(s, at + 1)
  }

  predicate NulFree(s: seq<u8>) {
    forall i | 0 <= i < |s| :: s[i] != 0
  }

  lemma {:induction false} CStringIs(s: seq<u8>, at: nat, t: seq<u8>)
    requires at + |t| < |s| && s[at..at + |t|] == t && s[at + |t|] == 0
    requires NulFree(t)
    ensures CString(s, at) == t
    decreases |t|
  {
    if t != [] {
      assert s[at] == s[at..at + |t|][0] == t[0];
      assert s[at + 1..at + |t|] == s[at..at + |t|][1..] == t[1..];
      CStringIs(s, at + 1, t[1..]);
    }
  }
}
