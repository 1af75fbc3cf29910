/**
 Building a tool's input from named command-line options: the second half of
 `parseDynamicToolInput` in src/cli/sedes-dynamic-tool-command.ts, with `getAtPath` and `setAtPath`.
 */
module OptionTree {
  import opened Utf16
  import opened Wrappers

  /** A JSON value; whatever is neither an array nor an object is a scalar. */
  datatype Value = Scalar(text: Text) | List(items: seq<Value>) | Object(members: map<Text, Value>)

  type Path = seq<Text>

  /** An option as supplied: where it goes, whether it may repeat, and its value unless reading it fails. */
  datatype Supplied = Supplied(path: Path, repeatable: bool, value: Option<Value>)

  predicate NulFree(t: Text) { forall i :: 0 <= i < |t| ==> t[i] != NUL }

  ghost predicate PathOk(p: Path) { p != [] && forall i :: 0 <= i < |p| ==> NulFree(p[i]) }

  // ---- reading and writing at a path ----

  function Get(root: Value, path: Path): Option<Value>
    decreases |path|
  {
    if path == [] then Some(root)
    else if root.Object? && path[0] in root.members then Get(root.members[path[0]], path[1..])
    else None
  }

  /** Fails when something other than an object is on the way. */
  function Set(root: Value, path: Path, value: Value): Option<Value>
    requires path != []
    decreases |path|
  {
    if !root.Object? then None
    else if |path| == 1 then Some(Object(root.members[path[0] := value]))
    else
      var next := if path[0] in root.members then root.members[path[0]] else Object(map[]);
      var child := Set(next, path[1..], value);
      if child.None? then None else Some(Object(root.members[path[0] := child.value]))
  }

  // ---- path keys ----

  function Join(p: Path): Text
    requires p != []
  {
    if |p| == 1 then p[0] else p[0] + [NUL] + Join(p[1..])
  }

  predicate Conflicting(p: Path, q: Path) { p < q || q < p }

  /** The test on keys: one starts with the other and a separator. */
  predicate KeysConflict(a: Text, b: Text) {
    a != b && (b + [NUL] <= a || a + [NUL] <= b)
  }

  lemma FirstPart(p: Path)
    requires PathOk(p)
    ensures IndexOf(Join(p), NUL) == |p[0]|
    ensures |p| == 1 <==> |Join(p)| == |p[0]|
    ensures |p| > 1 ==> Join(p)[|p[0]| + 1..] == Join(p[1..]) && Join(p)[|p[0]|] == NUL
    ensures Join(p)[..|p[0]|] == p[0]
  {
    assert NulFree(p[0]);
    IndexOfUnique(Join(p), NUL, |p[0]|);
  }

  lemma {:induction false} JoinInjective(p: Path, q: Path)
    requires PathOk(p) && PathOk(q) && Join(p) == Join(q)
    ensures p == q
    decreases |p|
  {
    FirstPart(p);
    FirstPart(q);
    assert p[0] == q[0];
    if |p| > 1 {
      JoinInjective(p[1..], q[1..]);
      assert p == [p[0]] + p[1..] && q == [q[0]] + q[1..];
    } else {
      assert p == [p[0]] && q == [q[0]];
    }
  }

  lemma {:induction false} JoinConcat(p: Path, q: Path)
    requires p != [] && q != []
    ensures Join(p + q) == Join(p) + [NUL] + Join(q)
    decreases |p|
  {
    if |p| == 1 {
      assert (p + q)[1..] == q;
    } else {
      assert (p + q)[1..] == p[1..] + q;
      JoinConcat(p[1..], q);
    }
  }

  lemma {:induction false} KeyPrefixIsPathPrefix(p: Path, q: Path)
    requires PathOk(p) && PathOk(q) && Join(q) + [NUL] <= Join(p)
    ensures q < p
    decreases |q|
  {
    FirstPart(p);
    FirstPart(q);
    var key := Join(q) + [NUL];
    assert Join(p)[..|key|] == key;
    assert |p| > 1 && p[0] == q[0] by { SameFirst(p, q); }
    if |q| > 1 {
      var tail := Join(q[1..]) + [NUL];
      assert key[|q[0]| + 1..] == tail;
      assert Join(p)[|p[0]| + 1..][..|tail|] == tail;
      KeyPrefixIsPathPrefix(p[1..], q[1..]);
      assert p == [p[0]] + p[1..] && q == [q[0]] + q[1..];
    } else {
      assert q == [q[0]] && p == [p[0]] + p[1..];
    }
  }

  /** The first separator of a key that starts with another is the first separator of that one. */
  lemma SameFirst(p: Path, q: Path)
    requires PathOk(p) && PathOk(q) && Join(q) + [NUL] <= Join(p)
    ensures |p| > 1 && p[0] == q[0]
  {
    FirstPart(p);
    FirstPart(q);
    var key := Join(q) + [NUL];
    assert key[|q[0]|] == NUL && forall i :: 0 <= i < |q[0]| ==> key[i] == q[0][i];
    assert Join(p)[|q[0]|] == key[|q[0]|];
    assert NulFree(q[0]);
    assert forall i :: 0 <= i < |q[0]| ==> Join(p)[i] == key[i] != NUL;
    IndexOfUnique(Join(p), NUL, |q[0]|);
    assert Join(p)[..|q[0]|] == key[..|q[0]|] == q[0];
  }

  /** The string test decides exactly whether one path is a proper prefix of the other. */
  lemma KeysDecide(p: Path, q: Path)
    requires PathOk(p) && PathOk(q)
    ensures KeysConflict(Join(p), Join(q)) <==> Conflicting(p, q)
    ensures Join(p) == Join(q) <==> p == q
  {
    if Join(p) == Join(q) { JoinInjective(p, q); }
    if Join(q) + [NUL] <= Join(p) { KeyPrefixIsPathPrefix(p, q); }
    if Join(p) + [NUL] <= Join(q) { KeyPrefixIsPathPrefix(q, p); }
    if q < p { PrefixKey(p, q); }
    if p < q { PrefixKey(q, p); }
  }

  lemma PrefixKey(p: Path, q: Path)
    requires q != [] && q < p
    ensures Join(q) + [NUL] <= Join(p)
  {
    var rest := p[|q|..];
    assert p == q + rest;
    JoinConcat(q, rest);
  }

  // ---- the tree of an assignment ----

  type Assignment = map<Path, Value>

  ghost predicate Antichain(a: Assignment) {
    (forall p :: p in a ==> p != []) && forall p, q :: p in a && q in a ==> !(p < q)
  }

  function Heads(a: Assignment): set<Text> { set p | p in a && p != [] :: p[0] }

  /** What is assigned below a first part. */
  function Below(a: Assignment, head: Text): Assignment {
    map p | p in BelowPaths(a, head) && [head] + p in a :: a[[head] + p]
  }

  function BelowPaths(a: Assignment, head: Text): set<Path> {
    set p | p in a && p != [] && p[0] == head :: p[1..]
  }

  lemma BelowAt(a: Assignment, head: Text, p: Path)
    ensures p in Below(a, head) <==> [head] + p in a
    ensures p in Below(a, head) ==> Below(a, head)[p] == a[[head] + p]
  {
    var q := [head] + p;
    assert q[1..] == p;
    if p in BelowPaths(a, head) {
      var r :| r in a && r != [] && r[0] == head && r[1..] == p;
      assert r == q;
    }
  }

  /** The tree holds exactly what was assigned, each value at its path, and nothing else. */
  ghost predicate Represents(t: Value, a: Assignment)
    decreases t, 0
  {
    t.Object? && t.members.Keys == Heads(a) && forall h :: h in t.members ==> ChildOk(t.members[h], a, h)
  }

  ghost predicate ChildOk(c: Value, a: Assignment, h: Text)
    decreases c, 1
  {
    if [h] in a then c == a[[h]] else Represents(c, Below(a, h))
  }

  lemma {:induction false} RepresentedOnce(t: Value, u: Value, a: Assignment)
    requires Represents(t, a) && Represents(u, a)
    ensures t == u
    decreases t
  {
    forall h | h in t.members ensures t.members[h] == u.members[h] {
      assert ChildOk(t.members[h], a, h) && ChildOk(u.members[h], a, h);
      if [h] !in a {
        RepresentedOnce(t.members[h], u.members[h], Below(a, h));
      }
    }
    assert t.members == u.members;
  }

  lemma BelowAntichain(a: Assignment, h: Text)
    requires Antichain(a) && [h] !in a
    ensures Antichain(Below(a, h))
  {
    hide Below;
    var b := Below(a, h);
    forall p | p in b ensures p != [] {
      BelowAt(a, h, p);
      assert [h] + [] == [h];
    }
    forall p, q | p in b && q in b ensures !(p < q) {
      BelowAt(a, h, p);
      BelowAt(a, h, q);
      assert p < q ==> [h] + p < [h] + q;
    }
  }

  lemma {:induction false} GetRepresented(t: Value, a: Assignment, p: Path)
    requires Represents(t, a) && Antichain(a) && p in a
    ensures Get(t, p) == Some(a[p])
    decreases |p|
  {
    hide Below;
    var h := p[0];
    assert h in Heads(a);
    assert ChildOk(t.members[h], a, h);
    if |p| == 1 {
      assert p == [h];
      assert p[1..] == [];
    } else {
      assert [h] < p;
      assert p == [h] + p[1..];
      BelowAt(a, h, p[1..]);
      BelowAntichain(a, h);
      GetRepresented(t.members[h], Below(a, h), p[1..]);
    }
  }

  lemma BelowOther(a: Assignment, p: Path, v: Value, g: Text)
    requires p != [] && p[0] != g
    ensures Below(a[p := v], g) == Below(a, g) && ([g] in a[p := v] <==> [g] in a)
  {
    hide Below;
    var x, y := Below(a[p := v], g), Below(a, g);
    forall q ensures (q in x <==> q in y) && (q in x ==> x[q] == y[q]) {
      BelowAt(a[p := v], g, q);
      BelowAt(a, g, q);
      assert ([g] + q)[0] == g;
    }
    assert x == y;
    assert [g][0] == g;
  }

  lemma BelowSame(a: Assignment, p: Path, v: Value)
    requires |p| > 1
    ensures Below(a[p := v], p[0]) == Below(a, p[0])[p[1..] := v]
  {
    hide Below;
    var x, y := Below(a[p := v], p[0]), Below(a, p[0])[p[1..] := v];
    forall q ensures (q in x <==> q in y) && (q in x ==> x[q] == y[q]) {
      BelowAt(a[p := v], p[0], q);
      BelowAt(a, p[0], q);
      if [p[0]] + q == p {
        assert ([p[0]] + q)[1..] == q;
      } else {
        assert [p[0]] + p[1..] == p;
      }
    }
    assert x == y;
  }

  lemma NothingBelow(a: Assignment, h: Text)
    requires h !in Heads(a)
    ensures Below(a, h) == map[] && Represents(Object(map[]), Below(a, h))
  {
    forall p ensures p !in Below(a, h) {
      BelowAt(a, h, p);
      if [h] + p in a {
        assert false;
      }
    }
    assert Below(a, h) == map[];
  }

  lemma HeadsAdd(a: Assignment, p: Path, v: Value)
    requires p != []
    ensures Heads(a[p := v]) == Heads(a) + {p[0]}
  {
    var x, y := Heads(a[p := v]), Heads(a) + {p[0]};
    forall h | h in y ensures h in x {
      if h in Heads(a) {
        var q :| q in a && q != [] && q[0] == h;
        assert q in a[p := v];
      } else {
        assert p in a[p := v];
      }
    }
  }

  /** Writing at a path that conflicts with nothing succeeds and adds exactly that assignment. */
  lemma {:induction false} SetRepresents(t: Value, a: Assignment, p: Path, v: Value)
    requires Represents(t, a) && p != [] && Antichain(a[p := v])
    ensures Set(t, p, v).Some? && Represents(Set(t, p, v).value, a[p := v])
    decreases |p|
  {
    hide Below, Heads, ChildOk, Antichain;
    var h := p[0];
    if |p| == 1 {
      assert ChildOk(v, a[p := v], h) by { OwnChild(a, p, v); }
      ReplaceChild(t, a, p, v, v);
    } else {
      var next := if h in t.members then t.members[h] else Object(map[]);
      StepDown(t, a, p, v);
      SetRepresents(next, Below(a, h), p[1..], v);
      BelowChild(Set(next, p[1..], v).value, a[p := v], h);
      ReplaceChild(t, a, p, v, Set(next, p[1..], v).value);
    }
  }

  lemma BelowChild(c: Value, a: Assignment, h: Text)
    requires [h] !in a && Represents(c, Below(a, h))
    ensures ChildOk(c, a, h)
  {
  }

  lemma OwnChild(a: Assignment, p: Path, v: Value)
    requires |p| == 1
    ensures ChildOk(v, a[p := v], p[0])
  {
    assert p == [p[0]];
  }

  /** Replacing one child changes the assignment below that child only. */
  lemma ReplaceChild(t: Value, a: Assignment, p: Path, v: Value, child: Value)
    requires Represents(t, a) && p != [] && ChildOk(child, a[p := v], p[0])
    ensures Represents(Object(t.members[p[0] := child]), a[p := v])
  {
    hide Below, Heads;
    var r := Object(t.members[p[0] := child]);
    HeadsAdd(a, p, v);
    forall g | g in r.members ensures ChildOk(r.members[g], a[p := v], g) {
      if g != p[0] {
        assert ChildOk(t.members[g], a, g);
        BelowOther(a, p, v, g);
        assert [g] != p;
      }
    }
  }

  lemma StepDown(t: Value, a: Assignment, p: Path, v: Value)
    requires Represents(t, a) && |p| > 1 && Antichain(a[p := v])
    ensures var h := p[0];
            var next := if h in t.members then t.members[h] else Object(map[]);
            && [h] !in a[p := v] && Represents(next, Below(a, h))
            && Antichain(Below(a, h)[p[1..] := v]) && Below(a[p := v], h) == Below(a, h)[p[1..] := v]
  {
    hide Below, Heads;
    var h := p[0];
    assert [h] < p && p in a[p := v] && [h] !in a[p := v];
    assert h in t.members ==> ChildOk(t.members[h], a, h);
    if h !in t.members { NothingBelow(a, h); }
    BelowSame(a, p, v);
    BelowAntichain(a[p := v], h);
  }

  // ---- the loop over supplied options ----

  datatype State = State(input: Value, taken: set<Text>)

  const START := State(Object(map[]), {})

  /** The value written for a repeatable option: a new list, or the existing one and one more. */
  function Extended(current: Option<Value>, v: Value): Option<Value> {
    if current.None? then Some(List([v]))
    else if current.value.List? then Some(List(current.value.items + [v]))
    else None
  }

  /** One option: conflicts, repetition, an unreadable value, or an impossible write refuse it. */
  function Step(s: State, x: Supplied): Option<State>
    requires x.path != []
  {
    var key := Join(x.path);
    if (exists other :: other in s.taken && KeysConflict(other, key)) || (key in s.taken && !x.repeatable)
    then None
    else if x.value.None? then None
    else
      var written := if x.repeatable then Extended(Get(s.input, x.path), x.value.value) else x.value;
      if written.None? then None
      else
        var input := Set(s.input, x.path, written.value);
        if input.None? then None else Some(State(input.value, s.taken + {key}))
  }

  ghost predicate ItemsOk(items: seq<Supplied>) { forall i :: 0 <= i < |items| ==> PathOk(items[i].path) }

  function Run(items: seq<Supplied>): Option<State>
    requires ItemsOk(items)
    decreases |items|
  {
    if items == [] then Some(START)
    else
      var before := Run(items[..|items| - 1]);
      if before.None? then None else Step(before.value, items[|items| - 1])
  }

  method BuildInput(supplied: seq<Supplied>) returns (r: Option<Value>)
    requires ItemsOk(supplied)
    ensures var run := Run(supplied);
            r == if run.None? then None else Some(run.value.input)
  {
    hide Run, Join, Get, Set, PathOk;
    var input, taken: set<Text> := Object(map[]), {};
    RunNothing();
    var i := 0;
    assert supplied[..0] == [];
    while i < |supplied|
      invariant 0 <= i <= |supplied|
      invariant Run(supplied[..i]) == Some(State(input, taken))
    {
      var x := supplied[i];
      RunNext(supplied, i);
      assert x.path != [] by { PathNotEmpty(x.path); }
      var pathKey := Join(x.path);
      ghost var next := Step(State(input, taken), x);
      if exists other :: other in taken && KeysConflict(other, pathKey) {
        RunFails(supplied, i + 1);
        return None;
      }
      if (pathKey in taken && !x.repeatable) || x.value.None? {
        RunFails(supplied, i + 1);
        return None;
      }
      var value := x.value.value;
      if x.repeatable {
        var current := Get(input, x.path);
        if current.None? {
          value := List([value]);
        } else if current.value.List? {
          value := List(current.value.items + [value]);
        } else {
          RunFails(supplied, i + 1);
          return None;
        }
      }
      var changed := Set(input, x.path, value);
      if changed.None? {
        RunFails(supplied, i + 1);
        return None;
      }
      input := changed.value;
      taken := taken + {pathKey};
      i := i + 1;
    }
    assert supplied[..i] == supplied;
    r := Some(input);
  }

  lemma RunNothing()
    ensures Run([]) == Some(START)
  {
  }

  lemma PathNotEmpty(p: Path)
    requires PathOk(p)
    ensures p != []
  {
  }

  lemma RunNext(items: seq<Supplied>, i: nat)
    requires ItemsOk(items) && i < |items|
    ensures var before := Run(items[..i]);
            Run(items[..i + 1]) == if before.None? then None else Step(before.value, items[i])
  {
    hide Step;
    var next := items[..i + 1];
    assert next[..|next| - 1] == items[..i] && next[|next| - 1] == items[i];
  }

  lemma {:induction false} RunFails(items: seq<Supplied>, i: nat)
    requires ItemsOk(items) && i <= |items| && Run(items[..i]).None?
    ensures Run(items).None?
    decreases |items| - i
  {
    hide Run, Step;
    if i == |items| {
      assert items[..i] == items;
    } else {
      RunNext(items, i);
      RunFails(items, i + 1);
    }
  }

  // ---- what succeeds, and what it means ----

  /** The options given for one path, in order. */
  function At(items: seq<Supplied>, p: Path): seq<Supplied> {
    if items == [] then []
    else
      var before := At(items[..|items| - 1], p);
      if items[|items| - 1].path == p then before + [items[|items| - 1]] else before
  }

  /** One more option for a path that holds `current`: the first of any form, later ones appended to a list. */
  function Appended(current: Option<Value>, x: Supplied): Option<Value> {
    if x.value.None? then None
    else if x.repeatable then Extended(current, x.value.value)
    else if current.None? then x.value
    else None
  }

  /** What the options given for one path make of it. */
  function Fold(xs: seq<Supplied>): Option<Value> {
    if xs == [] then None
    else if |xs| == 1 then Appended(None, xs[0])
    else
      var before := Fold(xs[..|xs| - 1]);
      if before.None? then None else Appended(before, xs[|xs| - 1])
  }

  function Paths(items: seq<Supplied>): set<Path> { set x | x in items :: x.path }

  /** No path is inside another, and the options for each path can be put together. */
  ghost predicate Compatible(items: seq<Supplied>) {
    && (forall p, q :: p in Paths(items) && q in Paths(items) ==> !(p < q))
    && (forall p :: p in Paths(items) ==> Fold(At(items, p)).Some?)
  }

  ghost function Assigned(items: seq<Supplied>): Assignment {
    map p | p in Paths(items) && Fold(At(items, p)).Some? :: Fold(At(items, p)).value
  }

  function Elements(xs: seq<Supplied>): seq<Value>
    requires forall i :: 0 <= i < |xs| ==> xs[i].value.Some?
  {
    if xs == [] then [] else Elements(xs[..|xs| - 1]) + [xs[|xs| - 1].value.value]
  }

  /** Every value is readable, all but the first may repeat, and they join a list. */
  ghost predicate Joins(xs: seq<Supplied>) {
    && xs != [] && (forall i :: 0 <= i < |xs| ==> xs[i].value.Some?)
    && (forall i :: 1 <= i < |xs| ==> xs[i].repeatable)
    && (|xs| > 1 && !xs[0].repeatable ==> xs[0].value.value.List?)
  }

  /** The same without a fold: the one value, or the list of the values in order, after the items of a list that was
      given whole. */
  function Joined(xs: seq<Supplied>): Value
    requires xs != [] && forall i :: 0 <= i < |xs| ==> xs[i].value.Some?
    requires |xs| > 1 && !xs[0].repeatable ==> xs[0].value.value.List?
  {
    if xs[0].repeatable then List(Elements(xs))
    else if |xs| == 1 then xs[0].value.value
    else List(xs[0].value.value.items + Elements(xs[1..]))
  }

  lemma {:induction false} FoldExactly(xs: seq<Supplied>)
    ensures Fold(xs).Some? <==> Joins(xs)
    ensures Joins(xs) ==> Fold(xs) == Some(Joined(xs))
    decreases |xs|
  {
    if |xs| == 1 {
      assert xs[..|xs| - 1] == [];
      if Joins(xs) { assert Elements(xs) == [] + [xs[0].value.value] == [xs[0].value.value]; }
    } else if |xs| > 1 {
      var init, last := xs[..|xs| - 1], xs[|xs| - 1];
      FoldExactly(init);
      assert forall i :: 0 <= i < |init| ==> init[i] == xs[i];
      if Joins(xs) {
        JoinedGrows(xs);
      }
    }
  }

  lemma JoinedGrows(xs: seq<Supplied>)
    requires |xs| > 1 && Joins(xs)
    ensures var init := xs[..|xs| - 1];
            Joins(init) && Joined(init).List? == (xs[0].repeatable || xs[0].value.value.List?)
            && Joined(init).List? && Joined(xs) == List(Joined(init).items + [xs[|xs| - 1].value.value])
  {
    var init, last := xs[..|xs| - 1], xs[|xs| - 1];
    assert forall i :: 0 <= i < |init| ==> init[i] == xs[i];
    if !xs[0].repeatable {
      var rest := xs[1..];
      assert rest[..|rest| - 1] == init[1..];
      if |init| == 1 { assert Elements(init[1..]) == []; }
    }
  }

  lemma AtSnoc(items: seq<Supplied>, x: Supplied, p: Path)
    ensures At(items + [x], p) == if x.path == p then At(items, p) + [x] else At(items, p)
  {
    assert (items + [x])[..|items|] == items;
  }

  lemma PathsSnoc(items: seq<Supplied>, x: Supplied)
    ensures Paths(items + [x]) == Paths(items) + {x.path}
  {
    assert forall y :: y in items + [x] <==> y in items || y == x;
  }

  lemma {:induction false} AtElements(items: seq<Supplied>, p: Path)
    ensures At(items, p) != [] <==> p in Paths(items)
    ensures forall i :: 0 <= i < |At(items, p)| ==> At(items, p)[i] in items && At(items, p)[i].path == p
    decreases |items|
  {
    if items != [] {
      var init, last := items[..|items| - 1], items[|items| - 1];
      assert items == init + [last];
      AtElements(init, p);
      PathsSnoc(init, last);
    }
  }

  /** Reading at a path that is not assigned, and not related to one that is, finds nothing. */
  lemma {:induction false} GetNothing(t: Value, a: Assignment, p: Path)
    requires Represents(t, a) && p != [] && p !in a
    requires forall q :: q in a ==> !Conflicting(p, q)
    ensures Get(t, p).None?
    decreases |p|
  {
    hide Below;
    var h := p[0];
    if h in t.members {
      assert ChildOk(t.members[h], a, h);
      assert p == [h] + p[1..];
      if |p| == 1 {
        forall q | q in a && q != [] ensures q[0] != h {
          assert q == [q[0]] + q[1..];
          assert q[0] == h ==> q == p || p < q;
        }
        assert false;
      } else {
        assert [h] < p;
        BelowAt(a, h, p[1..]);
        forall q | q in Below(a, h) ensures !Conflicting(p[1..], q) {
          BelowAt(a, h, q);
          assert p[1..] < q ==> p < [h] + q;
          assert q < p[1..] ==> [h] + q < p;
        }
        GetNothing(t.members[h], Below(a, h), p[1..]);
      }
    }
  }

  lemma FoldSnoc(xs: seq<Supplied>, x: Supplied)
    ensures xs == [] ==> Fold(xs + [x]) == Appended(None, x)
    ensures xs != [] ==> Fold(xs + [x]) == if Fold(xs).None? then None else Appended(Fold(xs), x)
  {
    assert (xs + [x])[..|xs|] == xs;
  }

  lemma CompatibleSnoc(items: seq<Supplied>, x: Supplied)
    ensures Compatible(items + [x]) <==>
            && Compatible(items) && (forall p :: p in Paths(items) ==> !Conflicting(p, x.path))
            && Fold(At(items, x.path) + [x]).Some?
  {
    hide At, Fold, Paths;
    var all := items + [x];
    PathsSnoc(items, x);
    forall p ensures At(all, p) == if x.path == p then At(items, p) + [x] else At(items, p) {
      AtSnoc(items, x, p);
    }
    AtElements(items, x.path);
    FoldSnoc(At(items, x.path), x);
    if Compatible(all) {
      assert forall p :: p in Paths(items) ==> p in Paths(all);
      forall p | p in Paths(items) ensures Fold(At(items, p)).Some? && !Conflicting(p, x.path) {
        assert x.path in Paths(all) && Fold(At(all, p)).Some?;
      }
    }
  }

  ghost predicate Holds(items: seq<Supplied>, s: State)
    requires ItemsOk(items)
  {
    && Assigned(items).Keys == Paths(items) && Antichain(Assigned(items))
    && Represents(s.input, Assigned(items))
    && s.taken == set p | p in Paths(items) && p != [] :: Join(p)
  }

  lemma AssignedSnoc(items: seq<Supplied>, x: Supplied, w: Value)
    requires Assigned(items).Keys == Paths(items)
    requires Fold(At(items, x.path) + [x]) == Some(w)
    ensures Assigned(items + [x]) == Assigned(items)[x.path := w]
    ensures Assigned(items + [x]).Keys == Paths(items + [x])
  {
    hide At, Fold, Paths;
    PathsSnoc(items, x);
    var a, b := Assigned(items + [x]), Assigned(items)[x.path := w];
    forall p ensures (p in a <==> p in b) && (p in a ==> a[p] == b[p]) {
      AtSnoc(items, x, p);
    }
    assert a == b;
  }

  /** What is at a path is what its options made of it so far. */
  lemma CurrentIsFold(items: seq<Supplied>, s: State, x: Supplied)
    requires ItemsOk(items) && Holds(items, s) && PathOk(x.path)
    requires forall p :: p in Paths(items) ==> !Conflicting(p, x.path)
    ensures Get(s.input, x.path) == Fold(At(items, x.path))
    ensures x.path in Paths(items) <==> Fold(At(items, x.path)).Some?
    ensures Fold(At(items, x.path) + [x]) == Appended(Get(s.input, x.path), x)
  {
    hide At, Represents, Antichain, PathOk;
    AtElements(items, x.path);
    FoldSnoc(At(items, x.path), x);
    if x.path in Paths(items) {
      GetRepresented(s.input, Assigned(items), x.path);
    } else {
      PathNotEmpty(x.path);
      forall q | q in Assigned(items) ensures !Conflicting(x.path, q) {
        assert q in Paths(items);
      }
      GetNothing(s.input, Assigned(items), x.path);
    }
  }

  lemma KeysDecideAll(items: seq<Supplied>, s: State, x: Supplied)
    requires ItemsOk(items) && Holds(items, s) && PathOk(x.path)
    ensures (exists other :: other in s.taken && KeysConflict(other, Join(x.path))) <==>
            (exists p :: p in Paths(items) && Conflicting(p, x.path))
    ensures Join(x.path) in s.taken <==> x.path in Paths(items)
  {
    hide Join, Represents, Antichain, KeysConflict, Conflicting, PathOk, Assigned;
    assert forall p :: p in Paths(items) ==> PathOk(p);
    PathNotEmpty(x.path);
    if other :| other in s.taken && KeysConflict(other, Join(x.path)) {
      var p :| p in Paths(items) && p != [] && Join(p) == other;
      KeysDecide(p, x.path);
    }
    if p :| p in Paths(items) && Conflicting(p, x.path) {
      KeysDecide(p, x.path);
      PathNotEmpty(p);
      assert Join(p) in s.taken;
    }
    if Join(x.path) in s.taken {
      var p :| p in Paths(items) && p != [] && Join(p) == Join(x.path);
      KeysDecide(p, x.path);
    }
  }

  lemma AntichainAdd(items: seq<Supplied>, p: Path, w: Value)
    requires Antichain(Assigned(items)) && Assigned(items).Keys == Paths(items) && p != []
    requires forall q :: q in Paths(items) ==> !Conflicting(q, p)
    ensures Antichain(Assigned(items)[p := w])
  {
    hide Assigned, Paths;
    var b := Assigned(items)[p := w];
    forall q, r | q in b && r in b ensures !(q < r) {
      assert q != p ==> q in Paths(items);
      assert r != p ==> r in Paths(items);
    }
  }

  /** Beside the test on keys, the loop's branches for one option are what the fold does. */
  lemma StepIsAppended(items: seq<Supplied>, s: State, x: Supplied)
    requires ItemsOk(items) && Holds(items, s) && PathOk(x.path) && x.path != []
    requires forall p :: p in Paths(items) ==> !Conflicting(p, x.path)
    ensures var w := Appended(Get(s.input, x.path), x);
            Step(s, x) == if w.None? then None
                          else
                            var input := Set(s.input, x.path, w.value);
                            if input.None? then None else Some(State(input.value, s.taken + {Join(x.path)}))
  {
    hide At, Fold, Represents, Antichain, PathOk, Paths, Assigned, Join, Get, Set, KeysConflict, Conflicting, Holds;
    KeysDecideAll(items, s, x);
    CurrentIsFold(items, s, x);
  }

  lemma StepDecides(items: seq<Supplied>, s: State, x: Supplied)
    requires ItemsOk(items + [x]) && ItemsOk(items) && PathOk(x.path)
    requires Holds(items, s) && Compatible(items)
    ensures x.path != [] && (Step(s, x).Some? <==> Compatible(items + [x]))
    ensures Step(s, x).Some? ==> Holds(items + [x], Step(s, x).value)
  {
    hide At, Fold, Represents, Antichain, PathOk, Compatible, Paths, Assigned, Join, Get, Set, KeysConflict, Step;
    PathNotEmpty(x.path);
    CompatibleSnoc(items, x);
    if p :| p in Paths(items) && Conflicting(p, x.path) {
      ConflictIsRefused(items, s, x);
    } else {
      CurrentIsFold(items, s, x);
      StepIsAppended(items, s, x);
      if Compatible(items + [x]) {
        var w := Appended(Get(s.input, x.path), x).value;
        AssignedSnoc(items, x, w);
        AntichainAdd(items, x.path, w);
        SetRepresents(s.input, Assigned(items), x.path, w);
        PathsSnoc(items, x);
      }
    }
  }

  lemma ConflictIsRefused(items: seq<Supplied>, s: State, x: Supplied)
    requires ItemsOk(items) && Holds(items, s) && PathOk(x.path) && x.path != []
    requires exists p :: p in Paths(items) && Conflicting(p, x.path)
    ensures Step(s, x).None?
  {
    hide At, Fold, Represents, Antichain, PathOk, Paths, Assigned, Join, Get, Set, KeysConflict, Conflicting, Holds;
    KeysDecideAll(items, s, x);
  }

  /**
   The loop accepts exactly the compatible lists, and then builds exactly the tree of what was
   assigned; in particular its writes never meet anything that is not an object.
   */
  lemma {:induction false} RunDecides(items: seq<Supplied>)
    requires ItemsOk(items)
    ensures Run(items).Some? <==> Compatible(items)
    ensures Run(items).Some? ==> Holds(items, Run(items).value)
    decreases |items|
  {
    if items == [] {
      assert Assigned([]) == map[];
    } else {
      hide Holds, Compatible, Step, PathOk;
      var init, last := items[..|items| - 1], items[|items| - 1];
      assert items == init + [last];
      RunDecides(init);
      if Run(init).Some? {
        StepDecides(init, Run(init).value, last);
      } else {
        CompatibleSnoc(init, last);
      }
    }
  }

  /** Exactly when a list of options is accepted, path by path. */
  lemma AcceptsExactly(items: seq<Supplied>)
    requires ItemsOk(items)
    ensures Run(items).Some? <==>
            && (forall p, q :: p in Paths(items) && q in Paths(items) ==> !(p < q))
            && (forall p :: p in Paths(items) ==> Joins(At(items, p)))
  {
    hide Run, PathOk, At, Fold, Paths, Joins, Holds;
    RunDecides(items);
    forall p ensures Fold(At(items, p)).Some? <==> Joins(At(items, p)) { FoldExactly(At(items, p)); }
  }

  /** The test on keys and the reading of the value, and repeating what may not repeat or is no list, are the only ways
      to be refused: the write itself never meets anything that is not an object. */
  lemma WriteNeverConflicts(items: seq<Supplied>, x: Supplied)
    requires ItemsOk(items) && ItemsOk(items + [x]) && PathOk(x.path) && Run(items).Some?
    ensures x.path != []
    ensures var s, key := Run(items).value, Join(x.path);
            var w := Appended(Get(s.input, x.path), x);
            w.Some? && !(exists other :: other in s.taken && KeysConflict(other, key)) ==>
              Set(s.input, x.path, w.value).Some? && Step(s, x).Some?
  {
    hide Run, Step, Holds, Compatible, PathOk, Join, KeysConflict, Conflicting, Fold, At, Get, Set, Appended;
    PathNotEmpty(x.path);
    RunDecides(items);
    var s := Run(items).value;
    StepDecides(items, s, x);
    KeysDecideAll(items, s, x);
    if !(exists other :: other in s.taken && KeysConflict(other, Join(x.path))) {
      CurrentIsFold(items, s, x);
      CompatibleSnoc(items, x);
      StepIsAppended(items, s, x);
    }
  }

  /** On success each supplied path reads back as its value, or as its values in order. */
  lemma ReadsBack(items: seq<Supplied>, p: Path)
    requires ItemsOk(items) && Run(items).Some? && p in Paths(items)
    ensures Joins(At(items, p)) && Get(Run(items).value.input, p) == Some(Joined(At(items, p)))
  {
    hide Run, Get, At, Represents, Fold, Joined, Joins;
    RunDecides(items);
    FoldExactly(At(items, p));
    GetRepresented(Run(items).value.input, Assigned(items), p);
  }

  /** Only the order of options for the same path matters. */
  lemma OrderDoesNotMatter(items: seq<Supplied>, other: seq<Supplied>)
    requires ItemsOk(items) && ItemsOk(other)
    requires forall p :: At(items, p) == At(other, p)
    ensures Run(items).Some? <==> Run(other).Some?
    ensures Run(items).Some? ==> Run(items).value.input == Run(other).value.input
  {
    hide Run, PathOk, At, Fold, Paths;
    RunDecides(items);
    RunDecides(other);
    forall p ensures p in Paths(items) <==> p in Paths(other) {
      AtElements(items, p);
      AtElements(other, p);
    }
    assert Paths(items) == Paths(other) && Assigned(items) == Assigned(other);
    if Run(items).Some? && Run(other).Some? {
      RepresentedOnce(Run(items).value.input, Run(other).value.input, Assigned(items));
    }
  }
}
