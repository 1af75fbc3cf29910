/**
 Canonical JSON text (src/server/canonical-json.ts) and the equality of JSON values that ignores
 the order of object keys (src/shared/agent-tool-policy.ts). Both agree with equality of trees
 whose objects are maps.
 */
module CanonicalJson {
  import opened Utf16
  import opened JsonText

  // ---- values ----

  predicate NumberUnit(u: Unit) { Digit(u) || u == 43 || u == 45 || u == 46 || u == 101 }

  /**
   A finite number is named by the text ECMAScript's Number::toString gives it, which determines
   it; negative zero is the one exception, since it prints as zero.
   */
  type NumberText = t: Text | t != [] && forall i :: 0 <= i < |t| ==> NumberUnit(t[i])
    witness [48]

  datatype Number = NegativeZero | Finite(text: NumberText)

  const ZERO: NumberText := [48]

  datatype Json =
    | Null
    | Bool(b: bool)
    | Num(n: Number)
    | String(s: Text)
    | Array(items: seq<Json>)
    | Object(entries: seq<Entry>)

  /** An own property; an object lists its properties in enumeration order. */
  datatype Entry = Entry(key: Text, value: Json)

  predicate DistinctKeys(entries: seq<Entry>) {
    forall i, j :: 0 <= i < j < |entries| ==> entries[i].key != entries[j].key
  }

  predicate Proper(v: Json) {
    match v
    case Array(items) => forall i :: 0 <= i < |items| ==> Proper(items[i])
    case Object(entries) => DistinctKeys(entries) && forall i :: 0 <= i < |entries| ==> Proper(entries[i].value)
    case _ => true
  }

  // ---- meaning: trees with unordered objects ----

  datatype Tree =
    | TNull
    | TBool(b: bool)
    | TNumber(text: NumberText)
    | TString(s: Text)
    | TArray(items: seq<Tree>)
    | TObject(members: map<Text, Tree>)

  function Meaning(v: Json): Tree
    decreases v, 1
  {
    match v
    case Null => TNull
    case Bool(b) => TBool(b)
    case Num(n) => TNumber(if n.NegativeZero? then ZERO else n.text)
    case String(s) => TString(s)
    case Array(items) => TArray(Items(items))
    case Object(entries) => TObject(Members(entries))
  }

  function Items(items: seq<Json>): (r: seq<Tree>)
    ensures |r| == |items|
    decreases items, 0
  {
    if items == [] then [] else [Meaning(items[0])] + Items(items[1..])
  }

  function Members(entries: seq<Entry>): map<Text, Tree>
    decreases entries, 0
  {
    if entries == [] then map[] else Members(entries[1..])[entries[0].key := Meaning(entries[0].value)]
  }

  lemma {:induction false} ItemAt(items: seq<Json>, i: nat)
    requires i < |items|
    ensures Items(items)[i] == Meaning(items[i])
  {
    if i > 0 {
      ItemAt(items[1..], i - 1);
    }
  }

  lemma {:induction false} MembersKeys(entries: seq<Entry>)
    requires DistinctKeys(entries)
    ensures |Members(entries)| == |entries|
    ensures forall i :: 0 <= i < |entries| ==>
              entries[i].key in Members(entries) && Members(entries)[entries[i].key] == Meaning(entries[i].value)
    ensures forall k :: k in Members(entries) ==> exists i :: 0 <= i < |entries| && entries[i].key == k
  {
    hide Meaning;
    if entries != [] {
      var rest := entries[1..];
      MembersKeys(rest);
      assert forall i :: 0 < i < |entries| ==> entries[i] == rest[i - 1];
      assert entries[0].key !in Members(rest);
      assert Members(entries).Keys == Members(rest).Keys + {entries[0].key};
    }
  }

  // ---- sameJsonValue ----

  function Find(entries: seq<Entry>, key: Text): (i: nat)
    ensures i <= |entries|
    ensures i < |entries| ==> entries[i].key == key
    ensures forall j :: 0 <= j < i ==> entries[j].key != key
  {
    if entries == [] || entries[0].key == key then 0 else 1 + Find(entries[1..], key)
  }

  /** Strict equality of numbers: the two zeros are equal. */
  predicate SameNumber(a: Number, b: Number) {
    (if a.NegativeZero? then ZERO else a.text) == (if b.NegativeZero? then ZERO else b.text)
  }

  predicate Same(a: Json, b: Json)
    decreases a, 1
  {
    match (a, b)
    case (Null, Null) => true
    case (Bool(x), Bool(y)) => x == y
    case (Num(x), Num(y)) => SameNumber(x, y)
    case (String(x), String(y)) => x == y
    case (Array(x), Array(y)) => |x| == |y| && SameItems(x, y)
    case (Object(x), Object(y)) => |x| == |y| && SameMembers(x, y)
    case _ => false
  }

  predicate SameItems(a: seq<Json>, b: seq<Json>)
    requires |a| == |b|
    decreases a, 0
  {
    a == [] || (Same(a[0], b[0]) && SameItems(a[1..], b[1..]))
  }

  /** Every property on the left is also on the right, with the same value. */
  predicate SameMembers(a: seq<Entry>, b: seq<Entry>)
    decreases a, 0
  {
    a == [] || (var i := Find(b, a[0].key);
                i < |b| && Same(a[0].value, b[i].value) && SameMembers(a[1..], b))
  }

  lemma {:induction false} SameIsMeaning(a: Json, b: Json)
    requires Proper(a) && Proper(b)
    ensures Same(a, b) <==> Meaning(a) == Meaning(b)
    decreases a, 1
  {
    match (a, b)
    case (Array(x), Array(y)) =>
      if |x| == |y| { SameItemsIsMeaning(x, y); }
    case (Object(x), Object(y)) =>
      SameObjects(x, y);
    case _ =>
  }

  lemma {:induction false} SameItemsIsMeaning(a: seq<Json>, b: seq<Json>)
    requires |a| == |b|
    requires forall i :: 0 <= i < |a| ==> Proper(a[i]) && Proper(b[i])
    ensures SameItems(a, b) <==> Items(a) == Items(b)
    decreases a, 0
  {
    if a != [] {
      SameIsMeaning(a[0], b[0]);
      SameItemsIsMeaning(a[1..], b[1..]);
      assert Items(a)[1..] == Items(a[1..]) && Items(b)[1..] == Items(b[1..]);
    }
  }

  /** `a` is included in `b`, as maps. */
  ghost predicate Included(a: map<Text, Tree>, b: map<Text, Tree>) {
    forall k :: k in a ==> k in b && b[k] == a[k]
  }

  lemma {:induction false} SameMembersIsIncluded(a: seq<Entry>, b: seq<Entry>)
    requires DistinctKeys(a) && DistinctKeys(b)
    requires forall i :: 0 <= i < |a| ==> Proper(a[i].value)
    requires forall i :: 0 <= i < |b| ==> Proper(b[i].value)
    ensures SameMembers(a, b) <==> Included(Members(a), Members(b))
    decreases a, 0
  {
    if a != [] {
      var first, rest := a[0], a[1..];
      SameMembersIsIncluded(rest, b);
      MembersKeys(a);
      MembersKeys(rest);
      MembersKeys(b);
      var i := Find(b, first.key);
      assert first.key in Members(b) <==> i < |b|;
      if i < |b| {
        SameIsMeaning(first.value, b[i].value);
        assert Members(b)[first.key] == Meaning(b[i].value);
      }
      assert first.key !in Members(rest);
      IncludedAdd(Members(rest), first.key, Meaning(first.value), Members(b));
    }
  }

  lemma IncludedAdd(a: map<Text, Tree>, key: Text, tree: Tree, b: map<Text, Tree>)
    requires key !in a
    ensures Included(a[key := tree], b) <==> key in b && b[key] == tree && Included(a, b)
  {
    assert forall k :: k in a ==> k in a[key := tree] && a[key := tree][k] == a[k];
    assert key in a[key := tree];
  }

  /** The cardinality argument: as many properties, and all of them, means the same properties. */
  lemma IncludedAndSameSize(a: map<Text, Tree>, b: map<Text, Tree>)
    requires Included(a, b) && |a| == |b|
    ensures a == b
  {
    assert a.Keys <= b.Keys;
    assert |b.Keys - a.Keys| == |b.Keys| - |a.Keys|;
    assert b.Keys - a.Keys == {};
    assert a.Keys == b.Keys;
  }

  lemma {:induction false} SameObjects(a: seq<Entry>, b: seq<Entry>)
    requires Proper(Object(a)) && Proper(Object(b))
    ensures Same(Object(a), Object(b)) <==> Members(a) == Members(b)
    decreases a, 1
  {
    SameMembersIsIncluded(a, b);
    MembersKeys(a);
    MembersKeys(b);
    if |a| == |b| && Included(Members(a), Members(b)) {
      IncludedAndSameSize(Members(a), Members(b));
    }
  }

  // ---- the order of keys ----

  /** The order of `sort()`: by code units. */
  predicate Lex(a: Text, b: Text) {
    b != [] && (a == [] || a[0] < b[0] || (a[0] == b[0] && Lex(a[1..], b[1..])))
  }

  /** Keys that are array indices come first when an object is enumerated. */
  predicate IsIndex(t: Text) {
    && t != [] && (forall i :: 0 <= i < |t| ==> Digit(t[i]))
    && (|t| == 1 || t[0] != 48)
    && (|t| < 10 || (|t| == 10 && !Lex(Ascii("4294967294"), t)))
  }

  /** Enumeration order of the canonical object: indices by value, then the rest by code units. */
  predicate Before(a: Text, b: Text) {
    if IsIndex(a) && IsIndex(b) then |a| < |b| || (|a| == |b| && Lex(a, b))
    else IsIndex(a) || (!IsIndex(b) && Lex(a, b))
  }

  lemma {:induction false} LexIsStrict(a: Text, b: Text)
    ensures !(Lex(a, b) && Lex(b, a))
    ensures a != b ==> Lex(a, b) || Lex(b, a)
  {
    if a != [] && b != [] && a[0] == b[0] {
      LexIsStrict(a[1..], b[1..]);
      assert a == [a[0]] + a[1..] && b == [b[0]] + b[1..];
    }
  }

  lemma {:induction false} LexTransitive(a: Text, b: Text, c: Text)
    requires Lex(a, b) && Lex(b, c)
    ensures Lex(a, c)
  {
    if a != [] && a[0] == b[0] == c[0] {
      LexTransitive(a[1..], b[1..], c[1..]);
    }
  }

  lemma BeforeIsStrict(a: Text, b: Text)
    ensures !(Before(a, b) && Before(b, a))
    ensures a != b ==> Before(a, b) || Before(b, a)
  {
    hide IsIndex, Lex;
    LexIsStrict(a, b);
  }

  lemma BeforeTransitive(a: Text, b: Text, c: Text)
    requires Before(a, b) && Before(b, c)
    ensures Before(a, c)
  {
    hide IsIndex, Lex;
    if Lex(a, b) && Lex(b, c) { LexTransitive(a, b, c); }
  }

  // ---- canonicalize ----

  predicate Sorted(entries: seq<Entry>) {
    forall i, j :: 0 <= i < j < |entries| ==> Before(entries[i].key, entries[j].key)
  }

  function Insert(e: Entry, entries: seq<Entry>): seq<Entry> {
    if entries == [] || Before(e.key, entries[0].key) then [e] + entries
    else [entries[0]] + Insert(e, entries[1..])
  }

  function Canonical(v: Json): Json
    decreases v, 1
  {
    match v
    case Num(n) => Num(if n.NegativeZero? then Finite(ZERO) else n)
    case Array(items) => Array(CanonicalItems(items))
    case Object(entries) => Object(CanonicalEntries(entries))
    case _ => v
  }

  function CanonicalItems(items: seq<Json>): (r: seq<Json>)
    ensures |r| == |items|
    decreases items, 0
  {
    if items == [] then [] else [Canonical(items[0])] + CanonicalItems(items[1..])
  }

  function CanonicalEntries(entries: seq<Entry>): seq<Entry>
    decreases entries, 0
  {
    if entries == [] then []
    else Insert(Entry(entries[0].key, Canonical(entries[0].value)), CanonicalEntries(entries[1..]))
  }

  /** Numbers without negative zero and objects in canonical order, all the way down. */
  ghost predicate InForm(v: Json) {
    match v
    case Num(n) => n.Finite?
    case Array(items) => forall i :: 0 <= i < |items| ==> InForm(items[i])
    case Object(entries) => Sorted(entries) && forall i :: 0 <= i < |entries| ==> InForm(entries[i].value)
    case _ => true
  }

  lemma SortedDistinct(entries: seq<Entry>)
    requires Sorted(entries)
    ensures DistinctKeys(entries)
  {
    forall i, j | 0 <= i < j < |entries| ensures entries[i].key != entries[j].key {
      BeforeIsStrict(entries[i].key, entries[j].key);
    }
  }

  ghost predicate FormEntries(entries: seq<Entry>) {
    Sorted(entries) && forall i :: 0 <= i < |entries| ==> InForm(entries[i].value)
  }

  lemma {:induction false} InsertContents(e: Entry, entries: seq<Entry>)
    ensures forall x :: x in Insert(e, entries) <==> x == e || x in entries
  {
    hide Before;
    if entries != [] && !Before(e.key, entries[0].key) {
      InsertContents(e, entries[1..]);
    }
  }

  lemma {:induction false} InsertMembers(e: Entry, entries: seq<Entry>)
    requires e.key !in Members(entries)
    ensures Members(Insert(e, entries)) == Members(entries)[e.key := Meaning(e.value)]
  {
    hide Before, Meaning;
    var r := Insert(e, entries);
    if entries == [] || Before(e.key, entries[0].key) {
      assert r[1..] == entries;
    } else {
      assert r[1..] == Insert(e, entries[1..]);
      assert entries[0].key in Members(entries);
      RestHasFewer(entries, e.key);
      InsertMembers(e, entries[1..]);
    }
  }

  lemma {:induction false} InsertSorted(e: Entry, entries: seq<Entry>)
    requires Sorted(entries) && forall x :: x in entries ==> x.key != e.key
    ensures Sorted(Insert(e, entries))
  {
    hide Before;
    var r := Insert(e, entries);
    if entries == [] || Before(e.key, entries[0].key) {
      forall i, j | 0 <= i < j < |r| ensures Before(r[i].key, r[j].key) {
        if i == 0 && j > 1 { BeforeTransitive(e.key, entries[0].key, entries[j - 1].key); }
      }
    } else {
      var first, rest := entries[0], entries[1..];
      BeforeIsStrict(e.key, first.key);
      InsertSorted(e, rest);
      InsertContents(e, rest);
      FirstIsBefore(entries);
      ConsSorted(first, Insert(e, rest));
    }
  }

  lemma FirstIsBefore(entries: seq<Entry>)
    requires entries != [] && Sorted(entries)
    ensures forall x :: x in entries[1..] ==> Before(entries[0].key, x.key)
  {
    hide Before;
    forall x | x in entries[1..] ensures Before(entries[0].key, x.key) {
      var k :| 0 <= k < |entries[1..]| && entries[1..][k] == x;
      assert entries[k + 1] == x;
    }
  }

  lemma ConsSorted(first: Entry, rest: seq<Entry>)
    requires Sorted(rest) && forall x :: x in rest ==> Before(first.key, x.key)
    ensures Sorted([first] + rest)
  {
    hide Before;
    var r := [first] + rest;
    forall i, j | 0 <= i < j < |r| ensures Before(r[i].key, r[j].key) {
      assert r[j] in rest;
      if i > 0 { assert r[i] == rest[i - 1] && r[j] == rest[j - 1]; }
    }
  }

  lemma InsertKeeps(e: Entry, entries: seq<Entry>)
    requires FormEntries(entries) && InForm(e.value) && e.key !in Members(entries)
    ensures FormEntries(Insert(e, entries))
    ensures Members(Insert(e, entries)) == Members(entries)[e.key := Meaning(e.value)]
  {
    hide Before, InForm, Meaning, Insert, Members;
    forall x | x in entries ensures x.key != e.key { EntryIsMember(entries, x); }
    InsertSorted(e, entries);
    InsertContents(e, entries);
    InsertMembers(e, entries);
    assert forall i :: 0 <= i < |Insert(e, entries)| ==> Insert(e, entries)[i] in Insert(e, entries);
  }

  lemma {:induction false} EntryIsMember(entries: seq<Entry>, x: Entry)
    requires x in entries
    ensures x.key in Members(entries)
  {
    hide Meaning;
    if x != entries[0] { EntryIsMember(entries[1..], x); }
  }

  lemma RestHasFewer(entries: seq<Entry>, key: Text)
    requires entries != [] && key !in Members(entries)
    ensures key !in Members(entries[1..])
  {
  }

  lemma {:induction false} CanonicalKeeps(v: Json)
    requires Proper(v)
    ensures InForm(Canonical(v)) && Meaning(Canonical(v)) == Meaning(v)
    decreases v, 1
  {
    match v
    case Array(items) => CanonicalItemsKeep(items);
    case Object(entries) => CanonicalEntriesKeep(entries);
    case _ =>
  }

  lemma {:induction false} CanonicalItemsKeep(items: seq<Json>)
    requires forall i :: 0 <= i < |items| ==> Proper(items[i])
    ensures Items(CanonicalItems(items)) == Items(items)
    ensures forall i :: 0 <= i < |items| ==> InForm(CanonicalItems(items)[i])
    decreases items, 0
  {
    if items != [] {
      CanonicalKeeps(items[0]);
      CanonicalItemsKeep(items[1..]);
      assert CanonicalItems(items)[1..] == CanonicalItems(items[1..]);
    }
  }

  lemma {:induction false} CanonicalEntriesKeep(entries: seq<Entry>)
    requires DistinctKeys(entries) && forall i :: 0 <= i < |entries| ==> Proper(entries[i].value)
    ensures FormEntries(CanonicalEntries(entries))
    ensures Members(CanonicalEntries(entries)) == Members(entries)
    decreases entries, 0
  {
    if entries != [] {
      CanonicalKeeps(entries[0].value);
      CanonicalEntriesKeep(entries[1..]);
      MembersKeys(entries[1..]);
      assert entries[0].key !in Members(entries[1..]);
      InsertKeeps(Entry(entries[0].key, Canonical(entries[0].value)), CanonicalEntries(entries[1..]));
    }
  }

  // ---- a canonical form is determined by its meaning ----

  lemma {:induction false} FormIsUnique(a: Json, b: Json)
    requires InForm(a) && InForm(b) && Meaning(a) == Meaning(b)
    ensures a == b
    decreases a, 1
  {
    match (a, b)
    case (Array(x), Array(y)) => FormItemsUnique(x, y);
    case (Object(x), Object(y)) => FormEntriesUnique(x, y);
    case _ =>
  }

  lemma {:induction false} FormItemsUnique(a: seq<Json>, b: seq<Json>)
    requires Items(a) == Items(b)
    requires forall i :: 0 <= i < |a| ==> InForm(a[i])
    requires forall i :: 0 <= i < |b| ==> InForm(b[i])
    ensures a == b
    decreases a, 0
  {
    assert |a| == |Items(a)| == |Items(b)| == |b|;
    if a != [] {
      assert Items(a)[0] == Meaning(a[0]) && Items(b)[0] == Meaning(b[0]);
      assert Items(a)[1..] == Items(a[1..]) && Items(b)[1..] == Items(b[1..]);
      FormIsUnique(a[0], b[0]);
      FormItemsUnique(a[1..], b[1..]);
      assert a == [a[0]] + a[1..] && b == [b[0]] + b[1..];
    }
  }

  /** Equal maps have the same first key. */
  lemma FirstKeysAgree(a: seq<Entry>, b: seq<Entry>)
    requires Sorted(a) && Sorted(b) && Members(a) == Members(b) && a != [] && b != []
    ensures a[0].key == b[0].key
  {
    hide Before, Meaning, Members;
    SortedDistinct(a);
    SortedDistinct(b);
    MembersKeys(a);
    MembersKeys(b);
    var i :| 0 <= i < |a| && a[i].key == b[0].key;
    var j :| 0 <= j < |b| && b[j].key == a[0].key;
    if a[0].key != b[0].key {
      assert Before(a[0].key, a[i].key) && Before(b[0].key, b[j].key);
      BeforeIsStrict(a[0].key, b[0].key);
      assert false;
    }
  }

  lemma {:induction false} FormEntriesUnique(a: seq<Entry>, b: seq<Entry>)
    requires FormEntries(a) && FormEntries(b) && Members(a) == Members(b)
    ensures a == b
    decreases a, 0
  {
    hide Sorted, DistinctKeys, InForm, Meaning, Members;
    SortedDistinct(a);
    SortedDistinct(b);
    MembersKeys(a);
    MembersKeys(b);
    assert |a| == |b|;
    if a != [] {
      FirstKeysAgree(a, b);
      FormRest(a);
      FormRest(b);
      FormIsUnique(a[0].value, b[0].value);
      MembersOfRest(a);
      MembersOfRest(b);
      FormEntriesUnique(a[1..], b[1..]);
      assert a == [a[0]] + a[1..] && b == [b[0]] + b[1..];
    }
  }

  lemma FormRest(entries: seq<Entry>)
    requires FormEntries(entries) && entries != []
    ensures FormEntries(entries[1..])
  {
    hide Before, InForm;
  }

  lemma MembersOfRest(entries: seq<Entry>)
    requires entries != [] && DistinctKeys(entries)
    ensures Members(entries[1..]) == Members(entries) - {entries[0].key}
  {
    hide Meaning;
    var key, rest := entries[0].key, Members(entries[1..]);
    MembersKeys(entries[1..]);
    AddThenRemove(rest, key, Meaning(entries[0].value));
  }

  lemma AddThenRemove(m: map<Text, Tree>, key: Text, tree: Tree)
    requires key !in m
    ensures m[key := tree] - {key} == m
  {
  }

  /** Canonicalizing again changes nothing. */
  lemma CanonicalIdempotent(v: Json)
    requires Proper(v)
    ensures Canonical(Canonical(v)) == Canonical(v)
  {
    CanonicalKeeps(v);
    FormIsProper(Canonical(v));
    CanonicalKeeps(Canonical(v));
    FormIsUnique(Canonical(Canonical(v)), Canonical(v));
  }

  lemma {:induction false} FormIsProper(v: Json)
    requires InForm(v)
    ensures Proper(v)
  {
    match v
    case Array(items) =>
      forall i | 0 <= i < |items| ensures Proper(items[i]) { FormIsProper(items[i]); }
    case Object(entries) =>
      SortedDistinct(entries);
      forall i | 0 <= i < |entries| ensures Proper(entries[i].value) { FormIsProper(entries[i].value); }
    case _ =>
  }

  // ---- JSON.stringify ----

  function Print(v: Json): Text
    decreases v, 1
  {
    match v
    case Null => Ascii("null")
    case Bool(b) => if b then Ascii("true") else Ascii("false")
    case Num(n) => if n.NegativeZero? then ZERO else n.text
    case String(s) => Quote(s)
    case Array(items) =>
      if items == [] then [OPEN_BRACKET, CLOSE_BRACKET]
      else [OPEN_BRACKET] + (Print(items[0]) + PrintItems(items[1..]))
    case Object(entries) =>
      if entries == [] then [OPEN_BRACE, CLOSE_BRACE]
      else [OPEN_BRACE] + (PrintEntry(entries[0]) + PrintEntries(entries[1..]))
  }

  function PrintItems(items: seq<Json>): Text
    decreases items, 0
  {
    if items == [] then [CLOSE_BRACKET] else [COMMA] + (Print(items[0]) + PrintItems(items[1..]))
  }

  function PrintEntry(e: Entry): Text
    decreases e, 2
  {
    Quote(e.key) + ([COLON] + Print(e.value))
  }

  function PrintEntries(entries: seq<Entry>): Text
    decreases entries, 0
  {
    if entries == [] then [CLOSE_BRACE] else [COMMA] + (PrintEntry(entries[0]) + PrintEntries(entries[1..]))
  }

  /** What may follow a value: nothing, or a separator or closing bracket. */
  predicate Stops(t: Text) { t == [] || t[0] == COMMA || t[0] == CLOSE_BRACKET || t[0] == CLOSE_BRACE }

  /** The first unit of a value tells its kind. */
  predicate StartsLike(v: Json, u: Unit) {
    match v
    case Null => u == 110
    case Bool(b) => u == if b then 116 else 102
    case Num(n) => NumberUnit(u)
    case String(s) => u == QUOTE
    case Array(items) => u == OPEN_BRACKET
    case Object(entries) => u == OPEN_BRACE
  }

  lemma PrintStart(v: Json)
    ensures Print(v) != [] && StartsLike(v, Print(v)[0])
  {
  }

  function NumberSpan(t: Text): nat {
    if t == [] || !NumberUnit(t[0]) then 0 else 1 + NumberSpan(t[1..])
  }

  lemma {:induction false} SpanOfNumber(a: Text, r: Text)
    requires (forall i :: 0 <= i < |a| ==> NumberUnit(a[i])) && Stops(r)
    ensures NumberSpan(a + r) == |a|
  {
    if a == [] {
      assert a + r == r;
    } else {
      SpanOfNumber(a[1..], r);
      assert (a + r)[1..] == a[1..] + r;
    }
  }

  lemma SplitAt(a: Text, b: Text, r: Text, s: Text)
    requires a + r == b + s && |a| == |b|
    ensures a == b && r == s
  {
    assert a == (a + r)[..|a|] && b == (b + s)[..|b|];
    assert r == (a + r)[|a|..] && s == (b + s)[|b|..];
  }

  lemma SameTail(u: Unit, a: Text, b: Text, r: Text, s: Text)
    requires [u] + a + r == [u] + b + s
    ensures a + r == b + s
  {
    assert ([u] + a + r)[1..] == a + r && ([u] + b + s)[1..] == b + s;
  }

  /** Values print self-delimited: equal texts hold equal values and equal remainders. */
  lemma {:induction false} PrintInjective(a: Json, b: Json, r: Text, s: Text)
    requires InForm(a) && InForm(b)
    requires Print(a) + r == Print(b) + s && Stops(r) && Stops(s)
    ensures a == b && r == s
    decreases a, 2
  {
    hide Print, InForm;
    PrintStart(a);
    PrintStart(b);
    assert (Print(a) + r)[0] == Print(a)[0] && (Print(b) + s)[0] == Print(b)[0];
    match a
    case Null => SplitAt(Print(a), Print(b), r, s);
    case Bool(_) => SplitAt(Print(a), Print(b), r, s);
    case Num(_) => NumbersInjective(a, b, r, s);
    case String(x) => PrintString(a); PrintString(b); QuoteInjective(x, b.s, r, s);
    case Array(x) => ArraysInjective(x, b.items, r, s);
    case Object(x) => ObjectsInjective(x, b.entries, r, s);
  }

  lemma PrintString(v: Json)
    requires v.String?
    ensures Print(v) == Quote(v.s)
  {
  }

  lemma NumbersInjective(a: Json, b: Json, r: Text, s: Text)
    requires a.Num? && b.Num? && InForm(a) && InForm(b)
    requires Print(a) + r == Print(b) + s && Stops(r) && Stops(s)
    ensures a == b && r == s
  {
    SpanOfNumber(Print(a), r);
    SpanOfNumber(Print(b), s);
    SplitAt(Print(a), Print(b), r, s);
  }

  lemma {:induction false} ArraysInjective(a: seq<Json>, b: seq<Json>, r: Text, s: Text)
    requires InForm(Array(a)) && InForm(Array(b))
    requires Print(Array(a)) + r == Print(Array(b)) + s
    ensures a == b && r == s
    decreases a, 1
  {
    hide Print, PrintItems, InForm;
    var x, y := ArrayBody(a), ArrayBody(b);
    ArrayBodyStart(a, r);
    ArrayBodyStart(b, s);
    SameTail(OPEN_BRACKET, x, y, r, s);
    if a == [] {
      SplitAt(x, y, r, s);
    } else {
      var u, v := PrintItems(a[1..]) + r, PrintItems(b[1..]) + s;
      assert x + r == Print(a[0]) + u && y + s == Print(b[0]) + v;
      PrintInjective(a[0], b[0], u, v);
      ItemsInjective(a[1..], b[1..], r, s);
      assert a == [a[0]] + a[1..] && b == [b[0]] + b[1..];
    }
  }

  function ArrayBody(items: seq<Json>): Text {
    if items == [] then [CLOSE_BRACKET] else Print(items[0]) + PrintItems(items[1..])
  }

  lemma ArrayBodyStart(items: seq<Json>, r: Text)
    requires InForm(Array(items))
    ensures Print(Array(items)) == [OPEN_BRACKET] + ArrayBody(items)
    ensures ArrayBody(items) != [] && (items == [] <==> (ArrayBody(items) + r)[0] == CLOSE_BRACKET)
    ensures items != [] ==> Stops(PrintItems(items[1..]) + r)
    ensures forall i :: 0 <= i < |items| ==> InForm(items[i])
  {
    if items != [] {
      PrintStart(items[0]);
    }
  }

  lemma {:induction false} ItemsInjective(a: seq<Json>, b: seq<Json>, r: Text, s: Text)
    requires forall i :: 0 <= i < |a| ==> InForm(a[i])
    requires forall i :: 0 <= i < |b| ==> InForm(b[i])
    requires PrintItems(a) + r == PrintItems(b) + s
    ensures a == b && r == s
    decreases a, 0
  {
    hide Print, InForm;
    assert (PrintItems(a) + r)[0] == (PrintItems(b) + s)[0];
    assert PrintItems(a)[0] == if a == [] then CLOSE_BRACKET else COMMA;
    assert PrintItems(b)[0] == if b == [] then CLOSE_BRACKET else COMMA;
    if a == [] {
      SplitAt(PrintItems(a), PrintItems(b), r, s);
    } else {
      var x, y := Print(a[0]) + PrintItems(a[1..]), Print(b[0]) + PrintItems(b[1..]);
      SameTail(COMMA, x, y, r, s);
      var u, v := PrintItems(a[1..]) + r, PrintItems(b[1..]) + s;
      assert x + r == Print(a[0]) + u && y + s == Print(b[0]) + v;
      PrintInjective(a[0], b[0], u, v);
      ItemsInjective(a[1..], b[1..], r, s);
      assert a == [a[0]] + a[1..] && b == [b[0]] + b[1..];
    }
  }

  lemma {:induction false} EntryInjective(e: Entry, f: Entry, r: Text, s: Text)
    requires InForm(e.value) && InForm(f.value)
    requires PrintEntry(e) + r == PrintEntry(f) + s && Stops(r) && Stops(s)
    ensures e == f && r == s
    decreases e, 3
  {
    hide Print, InForm, Quote;
    var x, y := Print(e.value), Print(f.value);
    assert PrintEntry(e) + r == Quote(e.key) + ([COLON] + x + r);
    assert PrintEntry(f) + s == Quote(f.key) + ([COLON] + y + s);
    QuoteInjective(e.key, f.key, [COLON] + x + r, [COLON] + y + s);
    SameTail(COLON, x, y, r, s);
    PrintInjective(e.value, f.value, r, s);
  }

  lemma {:induction false} ObjectsInjective(a: seq<Entry>, b: seq<Entry>, r: Text, s: Text)
    requires InForm(Object(a)) && InForm(Object(b))
    requires Print(Object(a)) + r == Print(Object(b)) + s
    ensures a == b && r == s
    decreases a, 4
  {
    hide Print, PrintEntry, PrintEntries, InForm;
    var x, y := ObjectBody(a), ObjectBody(b);
    ObjectBodyStart(a, r);
    ObjectBodyStart(b, s);
    SameTail(OPEN_BRACE, x, y, r, s);
    if a == [] {
      SplitAt(x, y, r, s);
    } else {
      var u, v := PrintEntries(a[1..]) + r, PrintEntries(b[1..]) + s;
      assert x + r == PrintEntry(a[0]) + u && y + s == PrintEntry(b[0]) + v;
      EntryInjective(a[0], b[0], u, v);
      EntriesInjective(a[1..], b[1..], r, s);
      assert a == [a[0]] + a[1..] && b == [b[0]] + b[1..];
    }
  }

  function ObjectBody(entries: seq<Entry>): Text {
    if entries == [] then [CLOSE_BRACE] else PrintEntry(entries[0]) + PrintEntries(entries[1..])
  }

  lemma ObjectBodyStart(entries: seq<Entry>, r: Text)
    requires InForm(Object(entries))
    ensures Print(Object(entries)) == [OPEN_BRACE] + ObjectBody(entries)
    ensures ObjectBody(entries) != [] && (entries == [] <==> (ObjectBody(entries) + r)[0] == CLOSE_BRACE)
    ensures entries != [] ==> Stops(PrintEntries(entries[1..]) + r)
    ensures forall i :: 0 <= i < |entries| ==> InForm(entries[i].value)
  {
  }

  lemma {:induction false} EntriesInjective(a: seq<Entry>, b: seq<Entry>, r: Text, s: Text)
    requires forall i :: 0 <= i < |a| ==> InForm(a[i].value)
    requires forall i :: 0 <= i < |b| ==> InForm(b[i].value)
    requires PrintEntries(a) + r == PrintEntries(b) + s
    ensures a == b && r == s
    decreases a, 3
  {
    hide PrintEntry, InForm;
    assert (PrintEntries(a) + r)[0] == (PrintEntries(b) + s)[0];
    assert PrintEntries(a)[0] == if a == [] then CLOSE_BRACE else COMMA;
    assert PrintEntries(b)[0] == if b == [] then CLOSE_BRACE else COMMA;
    if a == [] {
      SplitAt(PrintEntries(a), PrintEntries(b), r, s);
    } else {
      var x, y := PrintEntry(a[0]) + PrintEntries(a[1..]), PrintEntry(b[0]) + PrintEntries(b[1..]);
      SameTail(COMMA, x, y, r, s);
      var u, v := PrintEntries(a[1..]) + r, PrintEntries(b[1..]) + s;
      assert x + r == PrintEntry(a[0]) + u && y + s == PrintEntry(b[0]) + v;
      EntryInjective(a[0], b[0], u, v);
      EntriesInjective(a[1..], b[1..], r, s);
      assert a == [a[0]] + a[1..] && b == [b[0]] + b[1..];
    }
  }

  // ---- the law ----

  function DeterministicJson(v: Json): Text { Print(Canonical(v)) }

  /** Canonical text, structural equality and equality of unordered trees are the same relation. */
  lemma DeterministicIsSame(a: Json, b: Json)
    requires Proper(a) && Proper(b)
    ensures DeterministicJson(a) == DeterministicJson(b) <==> Meaning(a) == Meaning(b)
    ensures Same(a, b) <==> DeterministicJson(a) == DeterministicJson(b)
  {
    hide Print, Canonical, Meaning, Same;
    CanonicalKeeps(a);
    CanonicalKeeps(b);
    SameIsMeaning(a, b);
    if DeterministicJson(a) == DeterministicJson(b) {
      PrintInjective(Canonical(a), Canonical(b), [], []);
    }
    if Meaning(a) == Meaning(b) {
      FormIsUnique(Canonical(a), Canonical(b));
    }
  }

  // ---- sameAgentToolPolicyRevision ----

  function Without(entries: seq<Entry>, key: Text): seq<Entry> {
    if entries == [] then []
    else if entries[0].key == key then Without(entries[1..], key)
    else [entries[0]] + Without(entries[1..], key)
  }

  function RuntimeAvailability(): Text { Ascii("runtimeAvailability") }

  predicate SamePolicyRevision(a: seq<Entry>, b: seq<Entry>) {
    Same(Object(Without(a, RuntimeAvailability())), Object(Without(b, RuntimeAvailability())))
  }

  lemma {:induction false} WithoutContents(entries: seq<Entry>, key: Text)
    ensures forall x :: x in Without(entries, key) <==> x in entries && x.key != key
  {
    if entries != [] { WithoutContents(entries[1..], key); }
  }

  lemma {:induction false} WithoutDistinct(entries: seq<Entry>, key: Text)
    requires DistinctKeys(entries)
    ensures DistinctKeys(Without(entries, key))
  {
    if entries != [] {
      var rest := entries[1..];
      WithoutDistinct(rest, key);
      WithoutContents(rest, key);
      hide Without;
      forall x | x in rest ensures x.key != entries[0].key {
        var k :| 0 <= k < |rest| && rest[k] == x;
        assert entries[k + 1] == x;
      }
      ConsDistinct(entries[0], Without(rest, key));
    }
  }

  lemma ConsDistinct(first: Entry, rest: seq<Entry>)
    requires DistinctKeys(rest) && forall x :: x in rest ==> x.key != first.key
    ensures DistinctKeys([first] + rest)
  {
    var r := [first] + rest;
    forall i, j | 0 <= i < j < |r| ensures r[i].key != r[j].key {
      assert r[j] in rest;
      if i > 0 { assert r[i] == rest[i - 1] && r[j] == rest[j - 1]; }
    }
  }

  lemma {:induction false} WithoutMembers(entries: seq<Entry>, key: Text)
    ensures Members(Without(entries, key)) == Members(entries) - {key}
  {
    hide Meaning;
    if entries != [] {
      WithoutMembers(entries[1..], key);
      if entries[0].key != key { assert Without(entries, key)[1..] == Without(entries[1..], key); }
    }
  }

  lemma WithoutKeeps(entries: seq<Entry>, key: Text)
    requires Proper(Object(entries))
    ensures Proper(Object(Without(entries, key)))
    ensures Members(Without(entries, key)) == Members(entries) - {key}
  {
    hide Without, Members, DistinctKeys;
    WithoutContents(entries, key);
    WithoutDistinct(entries, key);
    WithoutMembers(entries, key);
    assert forall i :: 0 <= i < |Without(entries, key)| ==> Without(entries, key)[i] in Without(entries, key);
  }

  /** Two policies are the same revision exactly when they agree on everything but availability. */
  lemma SamePolicyRevisionIsMeaning(a: seq<Entry>, b: seq<Entry>)
    requires Proper(Object(a)) && Proper(Object(b))
    ensures SamePolicyRevision(a, b) <==>
            Members(a) - {Ascii("runtimeAvailability")} == Members(b) - {Ascii("runtimeAvailability")}
  {
    hide Proper, Without, Members, Ascii;
    WithoutKeeps(a, RuntimeAvailability());
    WithoutKeeps(b, RuntimeAvailability());
    SameObjects(Without(a, RuntimeAvailability()), Without(b, RuntimeAvailability()));
  }
}
