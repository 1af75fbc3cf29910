/**
 Text as JavaScript sees it: a sequence of UTF-16 code units. Code points matter in two places,
 the size limit of the event stream and the escapes of JSON strings.
 */
module Utf16 {

  type Unit = u: int | 0 <= u < 0x1_0000
  type Text = seq<Unit>

  const NUL: Unit := 0
  const LF: Unit := 10
  const CR: Unit := 13
  const SPACE: Unit := 32
  const QUOTE: Unit := 34
  const COLON: Unit := 58
  const BACKSLASH: Unit := 92

  /** A literal made of characters that are one unit each. */
  function Ascii(s: string): (t: Text)
    ensures |t| == |s|
    ensures forall i :: 0 <= i < |s| ==> t[i] == (s[i] as int) % 0x1_0000
  {
    if s == [] then [] else [(s[0] as int) % 0x1_0000] + Ascii(s[1..])
  }

  predicate High(u: Unit) { 0xD800 <= u <= 0xDBFF }
  predicate Low(u: Unit) { 0xDC00 <= u <= 0xDFFF }

  /** Cutting between `a` and `b` does not separate a surrogate pair. */
  predicate Boundary(a: Text, b: Text) {
    a == [] || b == [] || !(High(a[|a| - 1]) && Low(b[0]))
  }

  /** The number of code points: a surrogate pair is one, every other unit is one. */
  function CodePoints(t: Text): nat {
    if t == [] then 0
    else if |t| > 1 && High(t[0]) && Low(t[1]) then 1 + CodePoints(t[2..])
    else 1 + CodePoints(t[1..])
  }

  lemma {:induction false} CodePointsConcat(a: Text, b: Text)
    requires Boundary(a, b)
    ensures CodePoints(a + b) == CodePoints(a) + CodePoints(b)
    decreases |a|
  {
    if a == [] {
      assert a + b == b;
    } else if |a| > 1 && High(a[0]) && Low(a[1]) {
      assert (a + b)[2..] == a[2..] + b;
      CodePointsConcat(a[2..], b);
    } else {
      assert (a + b)[1..] == a[1..] + b;
      CodePointsConcat(a[1..], b);
    }
  }

  /** The positions at which a surrogate pair starts. */
  ghost function Pairs(t: Text): set<nat> {
    set i: nat | i < |t| && PairAt(t, i)
  }

  predicate PairAt(t: Text, i: nat) {
    i + 1 < |t| && 0xD800 <= t[i] <= 0xDBFF && 0xDC00 <= t[i + 1] <= 0xDFFF
  }

  /** A pair counts once, however the text around it is read. */
  lemma {:induction false} PairsCounted(t: Text)
    ensures CodePoints(t) + |Pairs(t)| == |t|
    decreases |t|
  {
    if t == [] {
      assert Pairs(t) == {};
    } else if |t| > 1 && High(t[0]) && Low(t[1]) {
      PairsCounted(t[2..]);
      ShiftedPairs(t, 2);
    } else {
      PairsCounted(t[1..]);
      ShiftedPairs(t, 1);
    }
  }

  lemma ShiftedPairs(t: Text, k: nat)
    requires t != [] && k == if |t| > 1 && High(t[0]) && Low(t[1]) then 2 else 1
    ensures |Pairs(t)| == |Pairs(t[k..])| + (k - 1)
  {
    var rest := Pairs(t[k..]);
    var moved := set i | i in rest :: i + k;
    SameSize(rest, moved, k);
    assert Pairs(t) == moved + (if k == 2 then {0} else {}) by {
      forall i: nat | i in Pairs(t)
        ensures i in moved || (k == 2 && i == 0)
      {
        if i >= k {
          assert t[k..][i - k] == t[i] && t[k..][i - k + 1] == t[i + 1];
          assert PairAt(t[k..], i - k) && i - k in rest && (i - k) + k in moved;
        }
      }
    }
  }

  lemma {:induction false} SameSize(s: set<nat>, moved: set<nat>, k: nat)
    requires moved == set i | i in s :: i + k
    ensures |s| == |moved|
  {
    if s != {} {
      var x :| x in s;
      var rest := set i | i in s - {x} :: i + k;
      assert x + k in moved && x + k !in rest;
      forall y | y in moved
        ensures y in rest + {x + k}
      {
        var i :| i in s && i + k == y;
        assert i != x ==> i in s - {x} && i + k in rest;
      }
      assert moved == rest + {x + k};
      SameSize(s - {x}, rest, k);
    }
  }

  predicate Contains(t: Text, u: Unit) {
    exists i :: 0 <= i < |t| && t[i] == u
  }

  /** The first position of `u`, or the length when it is absent. */
  function IndexOf(t: Text, u: Unit): (i: nat)
    ensures i <= |t|
    ensures i < |t| ==> t[i] == u
    ensures forall j :: 0 <= j < i ==> t[j] != u
  {
    if t == [] || t[0] == u then 0 else 1 + IndexOf(t[1..], u)
  }

  lemma IndexOfUnique(t: Text, u: Unit, i: nat)
    requires i <= |t| && (i < |t| ==> t[i] == u)
    requires forall j :: 0 <= j < i ==> t[j] != u
    ensures IndexOf(t, u) == i
  {
    var k := IndexOf(t, u);
    assert !(k < i) && !(i < k);
  }

  predicate Digit(u: Unit) { 48 <= u <= 57 }

  /** The decimal digits of a number. */
  function Digits(n: nat): Text { if n < 10 then [48 + n] else Digits(n / 10) + [48 + n % 10] }

  function Flatten<T>(parts: seq<seq<T>>): seq<T> {
    if parts == [] then [] else parts[0] + Flatten(parts[1..])
  }

  lemma {:induction false} FlattenSnoc<T>(parts: seq<seq<T>>, last: seq<T>)
    ensures Flatten(parts + [last]) == Flatten(parts) + last
  {
    if parts == [] {
      assert parts + [last] == [last];
    } else {
      assert (parts + [last])[1..] == parts[1..] + [last];
      FlattenSnoc(parts[1..], last);
    }
  }
}
