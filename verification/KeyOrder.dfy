/**
 The order in which the keys of a canonical object are listed, without naming how two keys are compared: array indices
 first and by number, then the other keys by code units (the enumeration order of ECMAScript after `sort()`).
 */
module KeyOrder {
  import opened Utf16
  import opened CanonicalJson

  /** After a common beginning `a` ends, or has the smaller unit. */
  ghost predicate Precedes(a: Text, b: Text) {
    exists p: nat :: p <= |a| && p < |b| && a[..p] == b[..p] && (p == |a| || a[p] < b[p])
  }

  lemma {:induction false} LexExactly(a: Text, b: Text)
    ensures Lex(a, b) <==> Precedes(a, b)
  {
    if b != [] && a != [] && a[0] == b[0] {
      LexExactly(a[1..], b[1..]);
      if Precedes(a[1..], b[1..]) {
        var p: nat :| p <= |a[1..]| && p < |b[1..]| && a[1..][..p] == b[1..][..p]
                      && (p == |a[1..]| || a[1..][p] < b[1..][p]);
        assert a[..p + 1] == [a[0]] + a[1..][..p] && b[..p + 1] == [b[0]] + b[1..][..p];
      }
      if Precedes(a, b) {
        var p: nat :| p <= |a| && p < |b| && a[..p] == b[..p] && (p == |a| || a[p] < b[p]);
        assert p > 0;
        assert a[1..][..p - 1] == a[..p][1..] && b[1..][..p - 1] == b[..p][1..];
      }
    } else if b != [] && (a == [] || a[0] < b[0]) {
      assert a[..0] == b[..0];
    } else if b != [] && Precedes(a, b) {
      var p: nat :| p <= |a| && p < |b| && a[..p] == b[..p] && (p == |a| || a[p] < b[p]);
      if p > 0 { CommonFirst(a, b, p); }
    }
  }

  lemma CommonFirst(a: Text, b: Text, p: nat)
    requires 0 < p <= |a| && p <= |b| && a[..p] == b[..p]
    ensures a[0] == b[0]
  {
    assert a[..p][0] == a[0] && b[..p][0] == b[0];
  }

  // ---- indices ----

  ghost predicate Number(t: Text) {
    && t != [] && (forall i :: 0 <= i < |t| ==> 48 <= t[i] <= 57)
    && (|t| == 1 || t[0] != 48)
  }

  ghost function Value(t: Text): int { if t == [] then 0 else 10 * Value(t[..|t| - 1]) + DigitOf(t[|t| - 1]) }

  ghost function DigitOf(u: Unit): int { (u as int) - 48 }

  ghost function Power(k: nat): nat { if k == 0 then 1 else 10 * Power(k - 1) }

  ghost predicate AllDigits(t: Text) { forall i :: 0 <= i < |t| ==> 48 <= t[i] <= 57 }

  /** Reading a text of digits from its first one. */
  lemma {:induction false} ValueFirst(t: Text)
    requires t != []
    ensures Value(t) == DigitOf(t[0]) * Power(|t| - 1) + Value(t[1..])
    decreases |t|
  {
    var init := t[..|t| - 1];
    if |t| == 1 {
      assert init == [] && t[1..] == [];
    } else {
      ValueFirst(init);
      assert t[1..][..|t| - 2] == init[1..];
      assert 10 * (DigitOf(t[0]) * Power(|t| - 2)) == DigitOf(t[0]) * Power(|t| - 1);
    }
  }

  lemma {:induction false} ValueBounds(t: Text)
    requires AllDigits(t)
    ensures 0 <= Value(t) < Power(|t|)
    decreases |t|
  {
    if t != [] { ValueBounds(t[..|t| - 1]); }
  }

  /** Texts of digits of the same length are ordered as their numbers. */
  lemma {:induction false} SameLength(a: Text, b: Text)
    requires |a| == |b| && AllDigits(a) && AllDigits(b)
    ensures Lex(a, b) <==> Value(a) < Value(b)
    decreases |a|
  {
    if a != [] {
      ValueFirst(a);
      ValueFirst(b);
      ValueBounds(a[1..]);
      ValueBounds(b[1..]);
      SameLength(a[1..], b[1..]);
      LeadingDecides(DigitOf(a[0]), DigitOf(b[0]), Power(|a| - 1), Value(a[1..]), Value(b[1..]));
    }
  }

  lemma LeadingDecides(x: int, y: int, p: nat, v: int, w: int)
    requires 0 <= v < p && 0 <= w < p
    ensures x < y ==> x * p + v < y * p + w
    ensures y < x ==> y * p + w < x * p + v
  {
    if x < y {
      assert (x + 1) * p <= y * p;
    } else if y < x {
      assert (y + 1) * p <= x * p;
    }
  }

  lemma {:induction false} PowerGrows(j: nat, k: nat)
    requires j <= k
    ensures Power(j) <= Power(k)
    decreases k
  {
    if j < k { PowerGrows(j, k - 1); }
  }

  lemma ValueAtLeast(t: Text)
    requires Number(t)
    ensures |t| > 1 ==> Value(t) >= Power(|t| - 1)
  {
    hide Value, Power;
    ValueFirst(t);
    ValueBounds(t[1..]);
    if |t| > 1 { Scaled(DigitOf(t[0]), Power(|t| - 1)); }
  }

  lemma Scaled(x: int, p: nat)
    requires x >= 1
    ensures x * p >= p
  {
  }

  /** Longer numbers are larger. */
  lemma LongerIsLarger(a: Text, b: Text)
    requires Number(a) && Number(b) && |a| < |b|
    ensures Value(a) < Value(b)
  {
    ValueBounds(a);
    ValueAtLeast(b);
    PowerGrows(|a|, |b| - 1);
  }

  /** The digits of a number are a number text with that value. */
  lemma {:induction false} DigitsAreNumber(n: nat)
    ensures Number(Digits(n)) && Value(Digits(n)) == n
    ensures n > 0 ==> Digits(n)[0] != 48
  {
    if n >= 10 {
      DigitsAreNumber(n / 10);
      assert Digits(n)[..|Digits(n)| - 1] == Digits(n / 10);
    } else {
      assert Digits(n)[..0] == [];
    }
  }

  lemma {:induction false} NumberIsDigits(t: Text)
    requires Number(t)
    ensures Value(t) >= 0 && Digits(Value(t)) == t
    decreases |t|
  {
    if |t| == 1 {
      assert t[..0] == [];
    } else {
      var init := t[..|t| - 1];
      NumberIsDigits(init);
      ValueAtLeast(init);
      ValueFirst(init);
      assert Value(init) > 0 by { if |init| == 1 { assert init[1..] == []; } else { PowerGrows(0, |init| - 1); } }
      LastDigit(init, t);
    }
  }

  lemma LastDigit(init: Text, t: Text)
    requires t != [] && init == t[..|t| - 1] && Value(init) > 0 && 48 <= t[|t| - 1] <= 57
    ensures Value(t) >= 0 && Digits(Value(t)) == Digits(Value(init)) + [t[|t| - 1]]
  {
    hide Digits;
    Decimal(Value(init), DigitOf(t[|t| - 1]));
    assert Value(t) == 10 * Value(init) + DigitOf(t[|t| - 1]);
  }

  lemma Decimal(v: nat, d: nat)
    requires v > 0 && d < 10
    ensures Digits(10 * v + d) == Digits(v) + [48 + d]
  {
    var n := 10 * v + d;
    assert n / 10 == v && n % 10 == d;
  }

  lemma Largest()
    ensures Ascii("4294967294") == Digits(4_294_967_294) && |Digits(4_294_967_294)| == 10
  {
    hide Ascii, Digits;
    TenDigits();
  }

  lemma TenDigits()
    ensures Digits(4_294_967_294) == [52, 50, 57, 52, 57, 54, 55, 50, 57, 52]
  {
    assert Digits(42) == [52, 50] && Digits(429) == [52, 50, 57] && Digits(4294) == [52, 50, 57, 52];
    assert Digits(42949) == [52, 50, 57, 52, 57] && Digits(429496) == [52, 50, 57, 52, 57, 54];
    assert Digits(4294967) == [52, 50, 57, 52, 57, 54, 55];
    assert Digits(42949672) == [52, 50, 57, 52, 57, 54, 55, 50];
    assert Digits(429496729) == [52, 50, 57, 52, 57, 54, 55, 50, 57];
  }

  /** The decimal digits of a number up to 2^32 - 2. */
  ghost predicate IndexKey(t: Text) { exists n: nat :: n <= 4_294_967_294 && t == Digits(n) }

  /** The index keys are the decimal digits of the numbers up to 2^32 - 2. */
  lemma IndexExactly(t: Text)
    ensures IsIndex(t) <==> IndexKey(t)
  {
    hide Lex, Digits;
    Largest();
    var most := Digits(4_294_967_294);
    DigitsAreNumber(4_294_967_294);
    if Number(t) {
      NumberIsDigits(t);
      assert t == Digits(Value(t));
      if |t| < 10 {
        LongerIsLarger(t, most);
      } else if |t| > 10 {
        LongerIsLarger(most, t);
      } else {
        SameLength(most, t);
      }
      forall n: nat | t == Digits(n)
        ensures n == Value(t)
      {
        DigitsAreNumber(n);
      }
    } else {
      forall n: nat
        ensures t != Digits(n)
      {
        DigitsAreNumber(n);
      }
    }
  }

  /** Two index keys come in the order of their numbers. */
  lemma IndicesByNumber(m: nat, n: nat)
    requires m <= 4_294_967_294 && n <= 4_294_967_294
    ensures Before(Digits(m), Digits(n)) <==> m < n
  {
    hide Lex, Digits, IsIndex;
    var a, b := Digits(m), Digits(n);
    IndexExactly(a);
    IndexExactly(b);
    DigitsAreNumber(m);
    DigitsAreNumber(n);
    if |a| < |b| {
      LongerIsLarger(a, b);
    } else if |b| < |a| {
      LongerIsLarger(b, a);
    } else {
      SameLength(a, b);
    }
  }

  /** Index keys come before all others, and the others by code units. */
  lemma OthersByUnits(a: Text, b: Text)
    ensures IndexKey(a) && !IndexKey(b) ==> Before(a, b) && !Before(b, a)
    ensures !IndexKey(a) && !IndexKey(b) ==> (Before(a, b) <==> Precedes(a, b))
  {
    hide Lex, Digits, IsIndex, IndexKey;
    IndexExactly(a);
    IndexExactly(b);
    LexExactly(a, b);
  }
}
