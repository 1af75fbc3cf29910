/**
 What the help of a dynamic command says about an option: `optionRequirement` of
 src/cli/sedes-dynamic-tool-command.ts, against the values that conform to the schema, for the options that
 src/server/agent-tools/schema/canonical-cli-options.ts offers.
 */
module OptionRequirement {
  import opened Utf16
  import opened Wrappers
  import opened OptionTree

  /** Closed objects, unions, and everything else; a leaf comes with a value it accepts. */
  datatype Schema =
    | ObjectSchema(properties: map<Text, Schema>, required: set<Text>)
    | Union(members: seq<Schema>)
    | Leaf(accepts: Value -> bool, sample: Value)

  ghost predicate Conforms(v: Value, s: Schema)
    decreases s
  {
    match s
    case ObjectSchema(properties, required) =>
      && v.Object? && required <= v.members.Keys <= properties.Keys
      && forall k :: k in properties && k in v.members ==> Conforms(v.members[k], properties[k])
    case Union(members) => exists i :: 0 <= i < |members| && Conforms(v, members[i])
    case Leaf(accepts, _) => !v.Object? && accepts(v)
  }

  /** Required names are declared, unions are not empty, and leaves accept their sample. */
  ghost predicate Inhabited(s: Schema)
    decreases s
  {
    match s
    case ObjectSchema(properties, required) =>
      required <= properties.Keys && forall k :: k in properties ==> Inhabited(properties[k])
    case Union(members) => members != [] && forall i :: 0 <= i < |members| ==> Inhabited(members[i])
    case Leaf(accepts, sample) => !sample.Object? && accepts(sample)
  }

  // ---- the analysis ----

  datatype Need = Need(inAll: bool, inSome: bool)

  const NO_NEED := Need(false, false)

  function WithinObject(s: Schema, path: Path): Need
    requires s.ObjectSchema?
    decreases s, 0
  {
    if path == [] || path[0] !in s.properties then NO_NEED
    else
      var direct := path[0] in s.required;
      if |path| == 1 then Need(direct, direct)
      else
        var nested := Within(s.properties[path[0]], path[1..]);
        Need(direct && nested.inAll, nested.inSome)
  }

  function Within(s: Schema, path: Path): Need
    decreases s, 1
  {
    match s
    case ObjectSchema(_, _) => WithinObject(s, path)
    case Union(members) =>
      Need(forall i :: 0 <= i < |members| ==> members[i].ObjectSchema? && WithinObject(members[i], path).inAll,
           exists i :: 0 <= i < |members| && members[i].ObjectSchema? && WithinObject(members[i], path).inSome)
    case Leaf(_, _) => NO_NEED
  }

  datatype Requirement = Required | Conditional | Optional

  function OptionRequirement(s: Schema, path: Path): Requirement
    requires s.ObjectSchema?
  {
    var need := WithinObject(s, path);
    if need.inAll then Required else if need.inSome then Conditional else Optional
  }

  // ---- required ----

  predicate Present(v: Value, path: Path) { Get(v, path).Some? }

  lemma {:induction false} RequiredIsPresent(s: Schema, path: Path, v: Value)
    requires path != [] && Within(s, path).inAll && Conforms(v, s)
    ensures Present(v, path)
    decreases s
  {
    match s
    case ObjectSchema(properties, required) =>
      var h := path[0];
      assert h in v.members;
      if |path| == 1 {
        assert path[1..] == [];
      } else {
        RequiredIsPresent(properties[h], path[1..], v.members[h]);
      }
    case Union(members) =>
      var i :| 0 <= i < |members| && Conforms(v, members[i]);
      assert Within(members[i], path).inAll;
      RequiredIsPresent(members[i], path, v);
  }

  /** A smallest conforming value: the required members only. */
  ghost function Minimal(s: Schema): Value
    requires Inhabited(s)
    decreases s
  {
    match s
    case ObjectSchema(properties, required) =>
      Object(map k | k in properties && k in required :: Minimal(properties[k]))
    case Union(members) => Minimal(members[0])
    case Leaf(_, sample) => sample
  }

  lemma {:induction false} MinimalConforms(s: Schema)
    requires Inhabited(s)
    ensures Conforms(Minimal(s), s)
    decreases s
  {
    match s
    case ObjectSchema(properties, required) =>
      var m := Minimal(s).members;
      assert m.Keys == required;
      forall k | k in properties && k in m ensures Conforms(m[k], properties[k]) {
        MinimalConforms(properties[k]);
      }
    case Union(members) => MinimalConforms(members[0]);
    case Leaf(_, _) =>
  }

  /** The same analysis, looking into unions of unions as well. */
  ghost predicate Deep(s: Schema, path: Path)
    decreases s
  {
    match s
    case ObjectSchema(properties, required) =>
      && path != [] && path[0] in properties && path[0] in required
      && (|path| == 1 || Deep(properties[path[0]], path[1..]))
    case Union(members) => forall i :: 0 <= i < |members| ==> Deep(members[i], path)
    case Leaf(_, _) => false
  }

  lemma {:induction false} DeepIsPresent(s: Schema, path: Path, v: Value)
    requires path != [] && Deep(s, path) && Conforms(v, s)
    ensures Present(v, path)
    decreases s
  {
    match s
    case ObjectSchema(properties, required) =>
      var h := path[0];
      assert h in v.members;
      if |path| == 1 {
        assert path[1..] == [];
      } else {
        DeepIsPresent(properties[h], path[1..], v.members[h]);
      }
    case Union(members) =>
      var i :| 0 <= i < |members| && Conforms(v, members[i]);
      DeepIsPresent(members[i], path, v);
  }

  lemma {:induction false} ShallowIsMissing(s: Schema, path: Path) returns (v: Value)
    requires path != [] && Inhabited(s) && !Deep(s, path)
    ensures Conforms(v, s) && !Present(v, path)
    decreases s
  {
    match s
    case ObjectSchema(properties, required) =>
      var h := path[0];
      v := Minimal(s);
      MinimalConforms(s);
      assert v.members.Keys == required;
      if h in required && |path| > 1 {
        var child := ShallowIsMissing(properties[h], path[1..]);
        v := Object(v.members[h := child]);
      }
    case Union(members) =>
      var i :| 0 <= i < |members| && !Deep(members[i], path);
      v := ShallowIsMissing(members[i], path);
    case Leaf(_, sample) =>
      v := sample;
  }

  /** Every conforming value has the path exactly when that analysis says so. */
  lemma DeepExactly(s: Schema, path: Path)
    requires path != [] && Inhabited(s)
    ensures Deep(s, path) <==> forall v :: Conforms(v, s) ==> Present(v, path)
  {
    hide Conforms, Inhabited, Deep;
    if Deep(s, path) {
      forall v | Conforms(v, s) ensures Present(v, path) {
        DeepIsPresent(s, path, v);
      }
    } else {
      var v := ShallowIsMissing(s, path);
    }
  }

  /** No union that is met along the path has a union among its members. */
  ghost predicate Clear(s: Schema, path: Path)
    decreases s
  {
    path == [] ||
    match s
    case ObjectSchema(properties, _) => path[0] in properties ==> Clear(properties[path[0]], path[1..])
    case Union(members) => forall i :: 0 <= i < |members| ==> !members[i].Union? && Clear(members[i], path)
    case Leaf(_, _) => true
  }

  /** The program's analysis is the deep one along clear paths, and says nothing along others. */
  lemma {:induction false} WithinIsDeep(s: Schema, path: Path)
    requires path != []
    ensures Within(s, path).inAll <==> Deep(s, path) && Clear(s, path)
    decreases s
  {
    match s
    case ObjectSchema(properties, required) =>
      var h := path[0];
      if h in properties {
        if |path| == 1 {
          assert path[1..] == [];
        } else {
          WithinIsDeep(properties[h], path[1..]);
        }
      }
    case Union(members) =>
      forall i | 0 <= i < |members|
        ensures members[i].ObjectSchema? && WithinObject(members[i], path).inAll <==>
                !members[i].Union? && Deep(members[i], path) && Clear(members[i], path)
      {
        WithinIsDeep(members[i], path);
        assert members[i].ObjectSchema? ==> Within(members[i], path) == WithinObject(members[i], path);
      }
    case Leaf(_, _) =>
  }

  /** A path is reported required exactly when every conforming value has it and no union of unions is on the way. */
  lemma RequiredExactly(s: Schema, path: Path)
    requires s.ObjectSchema? && path != [] && Inhabited(s)
    ensures OptionRequirement(s, path) == Required <==>
            Clear(s, path) && forall v :: Conforms(v, s) ==> Present(v, path)
  {
    hide Conforms, Inhabited, Clear, Deep, WithinObject;
    assert Within(s, path) == WithinObject(s, path);
    WithinIsDeep(s, path);
    DeepExactly(s, path);
  }

  // ---- conditional ----

  /** An object that a value of `child` may be: `child` itself, or a member of the union `child`. */
  ghost predicate Alternative(child: Schema, o: Schema) {
    o.ObjectSchema? && (child == o || (child.Union? && o in child.members))
  }

  /** One way down the path: an object for every name on it, each an alternative for the name before. */
  ghost predicate Way(s: Schema, path: Path, objects: seq<Schema>) {
    && path != [] && |objects| == |path| && objects[0] == s
    && (forall i :: 0 <= i < |path| ==> objects[i].ObjectSchema? && path[i] in objects[i].properties)
    && forall i :: 0 <= i < |path| - 1 ==> Alternative(objects[i].properties[path[i]], objects[i + 1])
  }

  /** On some way down the path its last name is required there, whether or not the names before it are. */
  ghost predicate RequiredSomeWay(s: Schema, path: Path) {
    exists objects: seq<Schema> :: Way(s, path, objects) && path[|path| - 1] in objects[|path| - 1].required
  }

  lemma WayShort(s: Schema, path: Path)
    requires s.ObjectSchema? && |path| == 1
    ensures RequiredSomeWay(s, path) <==> path[0] in s.properties && path[0] in s.required
  {
    if path[0] in s.properties && path[0] in s.required {
      assert Way(s, path, [s]);
    }
  }

  lemma WayDown(s: Schema, path: Path)
    requires s.ObjectSchema? && |path| > 1
    ensures RequiredSomeWay(s, path) <==>
              path[0] in s.properties
              && exists o :: Alternative(s.properties[path[0]], o) && RequiredSomeWay(o, path[1..])
  {
    var rest := path[1..];
    if objects: seq<Schema> :| Way(s, path, objects) && path[|path| - 1] in objects[|path| - 1].required {
      assert Way(objects[1], rest, objects[1..]);
      assert Alternative(s.properties[path[0]], objects[1]) && RequiredSomeWay(objects[1], rest);
    }
    if path[0] in s.properties {
      forall o | Alternative(s.properties[path[0]], o) && RequiredSomeWay(o, rest)
        ensures RequiredSomeWay(s, path)
      {
        var objects: seq<Schema> :| Way(o, rest, objects) && rest[|rest| - 1] in objects[|rest| - 1].required;
        assert Way(s, path, [s] + objects);
      }
    }
  }

  lemma {:induction false} InSomeExactly(s: Schema, path: Path)
    requires s.ObjectSchema? && path != []
    ensures WithinObject(s, path).inSome <==> RequiredSomeWay(s, path)
    decreases s
  {
    hide RequiredSomeWay;
    if |path| == 1 {
      WayShort(s, path);
    } else {
      WayDown(s, path);
      if path[0] in s.properties {
        var child, rest := s.properties[path[0]], path[1..];
        if child.ObjectSchema? {
          InSomeExactly(child, rest);
          assert Alternative(child, child);
        } else if child.Union? {
          forall o | o in child.members && o.ObjectSchema? ensures WithinObject(o, rest).inSome <==> RequiredSomeWay(o, rest) {
            InSomeExactly(o, rest);
          }
          if i :| 0 <= i < |child.members| && child.members[i].ObjectSchema? && WithinObject(child.members[i], rest).inSome {
            assert Alternative(child, child.members[i]);
          }
        }
      }
    }
  }

  /** An option that is not required is called conditional exactly when on some way down its path it is required. */
  lemma ConditionalExactly(s: Schema, path: Path)
    requires s.ObjectSchema? && path != []
    ensures OptionRequirement(s, path) == Conditional <==>
              OptionRequirement(s, path) != Required && RequiredSomeWay(s, path)
    ensures OptionRequirement(s, path) == Optional ==> !RequiredSomeWay(s, path)
  {
    InSomeExactly(s, path);
  }

  // ---- optional ----

  function Delete(v: Value, path: Path): Value
    decreases |path|
  {
    if path == [] || !v.Object? || path[0] !in v.members then v
    else if |path| == 1 then Object(v.members - {path[0]})
    else Object(v.members[path[0] := Delete(v.members[path[0]], path[1..])])
  }

  /** What is reported optional can be left out of any conforming value. */
  lemma {:induction false} OptionalCanBeDeleted(s: Schema, path: Path, v: Value)
    requires Clear(s, path) && !Within(s, path).inSome && Conforms(v, s)
    ensures Conforms(Delete(v, path), s)
    decreases s
  {
    if path == [] { return; }
    match s
    case ObjectSchema(properties, required) =>
      if path[0] in v.members {
        var h := path[0];
        if |path| > 1 {
          OptionalCanBeDeleted(properties[h], path[1..], v.members[h]);
        }
        assert Delete(v, path).members.Keys <= v.members.Keys;
      }
    case Union(members) =>
      var i :| 0 <= i < |members| && Conforms(v, members[i]);
      assert !Within(members[i], path).inSome;
      OptionalCanBeDeleted(members[i], path, v);
    case Leaf(_, _) =>
  }

  lemma OptionalIsSafe(s: Schema, path: Path, v: Value)
    requires s.ObjectSchema? && Clear(s, path) && OptionRequirement(s, path) == Optional && Conforms(v, s)
    ensures Conforms(Delete(v, path), s)
  {
    hide Conforms, Clear, WithinObject;
    assert Within(s, path) == WithinObject(s, path);
    OptionalCanBeDeleted(s, path, v);
  }

  // ---- the paths that are offered ----

  /** The objects that a schema may be: itself, or the members of a union of objects. */
  ghost function ObjectsOf(s: Schema): Option<seq<Schema>> {
    match s
    case ObjectSchema(_, _) => Some([s])
    case Union(members) => if forall i :: 0 <= i < |members| ==> members[i].ObjectSchema? then Some(members) else None
    case Leaf(_, _) => None
  }

  /** What the objects say about a property, in order. */
  ghost function Children(objects: seq<Schema>, name: Text): (r: seq<Schema>)
    requires forall i :: 0 <= i < |objects| ==> objects[i].ObjectSchema?
    ensures forall i :: 0 <= i < |objects| && name in objects[i].properties ==> objects[i].properties[name] in r
  {
    if objects == [] then []
    else
      var rest := Children(objects[1..], name);
      if name in objects[0].properties then [objects[0].properties[name]] + rest else rest
  }

  ghost function Distinct(schemas: seq<Schema>): (r: seq<Schema>)
    ensures forall x :: x in r <==> x in schemas
  {
    if schemas == [] then []
    else
      var init := Distinct(schemas[..|schemas| - 1]);
      assert schemas == schemas[..|schemas| - 1] + [schemas[|schemas| - 1]];
      if schemas[|schemas| - 1] in init then init else init + [schemas[|schemas| - 1]]
  }

  ghost function UnionOf(schemas: seq<Schema>): Schema
    requires schemas != []
  {
    var unique := Distinct(schemas);
    assert schemas[0] in unique;
    if |unique| == 1 then unique[0] else Union(unique)
  }

  /** `collectSpecs`: whether some option is offered for a path below a schema. */
  ghost predicate OfferedBelow(s: Schema, path: Path)
    decreases |path|
  {
    path == [] ||
    match ObjectsOf(s)
    case None => false
    case Some(objects) =>
      var children := Children(objects, path[0]);
      children != [] && OfferedBelow(UnionOf(children), path[1..])
  }

  ghost predicate Offered(s: Schema, path: Path)
    requires s.ObjectSchema?
  {
    path != [] && path[0] in s.properties && OfferedBelow(s.properties[path[0]], path[1..])
  }

  /** What is clear below a union of schemas is clear below each of them. */
  lemma ClearInUnion(schemas: seq<Schema>, c: Schema, path: Path)
    requires c in schemas && Clear(UnionOf(schemas), path)
    ensures Clear(c, path)
  {
    var unique := Distinct(schemas);
    assert c in unique;
    var i :| 0 <= i < |unique| && unique[i] == c;
  }

  /** An offered path meets no union of unions. */
  lemma {:induction false} OfferedIsClear(s: Schema, path: Path)
    requires OfferedBelow(s, path)
    ensures Clear(s, path)
    decreases |path|
  {
    if path != [] {
      var h, rest := path[0], path[1..];
      var objects := ObjectsOf(s).value;
      OfferedIsClear(UnionOf(Children(objects, h)), rest);
      hide UnionOf;
      forall i | 0 <= i < |objects| ensures Clear(objects[i], path) {
        if h in objects[i].properties {
          ClearInUnion(Children(objects, h), objects[i].properties[h], rest);
        }
      }
      if s.ObjectSchema? { assert objects[0] == s; }
    }
  }

  lemma OfferedPathIsClear(s: Schema, path: Path)
    requires s.ObjectSchema? && Offered(s, path)
    ensures Clear(s, path)
  {
    OfferedIsClear(s.properties[path[0]], path[1..]);
  }

  /** So for the options that the help lists: required exactly when every conforming value has it. */
  lemma OfferedRequiredExactly(s: Schema, path: Path)
    requires s.ObjectSchema? && Inhabited(s) && Offered(s, path)
    ensures OptionRequirement(s, path) == Required <==> forall v :: Conforms(v, s) ==> Present(v, path)
  {
    hide Conforms, Inhabited, Clear, WithinObject;
    OfferedPathIsClear(s, path);
    RequiredExactly(s, path);
  }

  /** And what it lists as optional can be left out of any conforming value. */
  lemma OfferedOptionalIsSafe(s: Schema, path: Path, v: Value)
    requires s.ObjectSchema? && Offered(s, path) && OptionRequirement(s, path) == Optional && Conforms(v, s)
    ensures Conforms(Delete(v, path), s)
  {
    hide Conforms, Clear, WithinObject;
    OfferedPathIsClear(s, path);
    OptionalIsSafe(s, path, v);
  }

  // ---- a path that is not offered ----

  const ANY := Leaf(v => true, Scalar([]))
  const PART: Text := [112]
  const OUTER: Text := [111]
  const SMALL := ObjectSchema(map[PART := ANY], {PART})
  const LARGE := ObjectSchema(map[PART := ANY, OUTER := ANY], {PART})
  const INNER := Union([SMALL, LARGE])
  const BOTH := Union([INNER, ANY])
  const NESTED := ObjectSchema(map[OUTER := BOTH], {OUTER})
  const PART_VALUE := Object(map[PART := Scalar([])])
  const NESTED_VALUE := Object(map[OUTER := PART_VALUE])

  /** Asked about a path through a union of unions, the function alone would call a needed part optional; but no option
      is offered there. */
  lemma NestedUnionIsNotOffered()
    ensures OptionRequirement(NESTED, [OUTER, PART]) == Optional && !Offered(NESTED, [OUTER, PART])
    ensures Conforms(NESTED_VALUE, NESTED) && !Conforms(Delete(NESTED_VALUE, [OUTER, PART]), NESTED)
  {
    var path := [OUTER, PART];
    assert path[1..] == [PART];
    NestedReport();
    NestedConforms();
    var empty := Delete(PART_VALUE, [PART]);
    assert PART !in empty.members;
    assert !Conforms(empty, SMALL) && !Conforms(empty, LARGE);
    assert forall i :: 0 <= i < |INNER.members| ==> !Conforms(empty, INNER.members[i]);
    assert !Conforms(empty, INNER) && !Conforms(empty, ANY);
    assert forall i :: 0 <= i < |BOTH.members| ==> !Conforms(empty, BOTH.members[i]);
    assert !Conforms(empty, BOTH);
    assert Delete(NESTED_VALUE, path).members[OUTER] == empty;
  }

  lemma NestedReport()
    ensures OptionRequirement(NESTED, [OUTER, PART]) == Optional && !Offered(NESTED, [OUTER, PART])
  {
    var path := [OUTER, PART];
    assert path[1..] == [PART];
    assert forall i :: 0 <= i < |BOTH.members| ==> !BOTH.members[i].ObjectSchema?;
    assert !BOTH.members[0].ObjectSchema?;
    assert Within(BOTH, [PART]) == NO_NEED;
    assert NESTED.properties[OUTER] == BOTH;
    assert WithinObject(NESTED, path) == NO_NEED;
    assert ObjectsOf(BOTH) == None;
    assert !OfferedBelow(BOTH, [PART]);
  }

  lemma NestedConforms()
    ensures Conforms(NESTED_VALUE, NESTED)
  {
    assert Conforms(Scalar([]), ANY);
    assert Conforms(PART_VALUE, SMALL);
    assert Conforms(PART_VALUE, INNER.members[0]);
    assert Conforms(PART_VALUE, INNER);
    assert Conforms(PART_VALUE, BOTH.members[0]);
    assert Conforms(PART_VALUE, BOTH);
  }
}
