/**
 `canonicalize` of src/server/canonical-json.ts over a heap of objects that may be shared or form
 cycles: when it fails, what it returns when it does not, and what it leaves behind.
 */
module ObjectGraph {
  import opened Utf16
  import opened CanonicalJson

  type Ref = nat

  datatype Value =
    | Plain(json: Json)       // null, a string, a boolean or a finite number
    | NonFinite               // NaN or an infinity
    | Unsupported             // undefined, a function, a symbol or a bigint
    | Pointer(target: Ref)

  datatype Slot = Data(value: Value) | Accessor

  datatype Property = Property(key: Text, slot: Slot)

  /** An object's properties are listed in the order of `Object.keys(value).sort()`. */
  datatype Node =
    | ArrayNode(items: seq<Value>)
    | ObjectNode(plain: bool, symbolKeys: bool, properties: seq<Property>)

  type Heap = map<Ref, Node>

  datatype Fault = Cycle | NonFiniteNumber | UnsupportedValue | NonPlainObject | SymbolKey | AccessorKey

  datatype Result<T> = Ok(value: T) | Failed(fault: Fault)

  // ---- well-formed heaps ----

  predicate Primitive(j: Json) { !j.Array? && !j.Object? }

  predicate ValueOk(heap: Heap, v: Value) {
    match v
    case Plain(json) => Primitive(json)
    case Pointer(r) => r in heap
    case _ => true
  }

  predicate DistinctNames(properties: seq<Property>) {
    forall i, j :: 0 <= i < j < |properties| ==> properties[i].key != properties[j].key
  }

  predicate PropertyOk(heap: Heap, p: Property) { p.slot.Data? ==> ValueOk(heap, p.slot.value) }

  predicate NodeOk(heap: Heap, node: Node) {
    match node
    case ArrayNode(items) => forall i :: 0 <= i < |items| ==> ValueOk(heap, items[i])
    case ObjectNode(_, _, properties) =>
      DistinctNames(properties) && forall i :: 0 <= i < |properties| ==> PropertyOk(heap, properties[i])
  }

  ghost predicate Closed(heap: Heap) { forall r :: r in heap ==> NodeOk(heap, heap[r]) }

  // ---- the walk, before keys are sorted ----

  function Walk(heap: Heap, v: Value, ancestors: set<Ref>): Result<Json>
    requires Closed(heap) && ValueOk(heap, v)
    decreases heap.Keys - ancestors, 2, 0
  {
    match v
    case Plain(json) => Ok(json)
    case NonFinite => Failed(NonFiniteNumber)
    case Unsupported => Failed(UnsupportedValue)
    case Pointer(r) =>
      if r in ancestors then Failed(Cycle) else WalkNode(heap, r, ancestors)
  }

  function WalkNode(heap: Heap, r: Ref, ancestors: set<Ref>): Result<Json>
    requires Closed(heap) && r in heap && r !in ancestors
    decreases heap.Keys - ancestors, 1, 0
  {
    match heap[r]
    case ArrayNode(items) =>
      var walked := WalkItems(heap, items, ancestors + {r});
      if walked.Failed? then Failed(walked.fault) else Ok(Array(walked.value))
    case ObjectNode(plain, symbolKeys, properties) =>
      if !plain then Failed(NonPlainObject)
      else if symbolKeys then Failed(SymbolKey)
      else
        var walked := WalkProperties(heap, properties, ancestors + {r});
        if walked.Failed? then Failed(walked.fault) else Ok(Object(walked.value))
  }

  function WalkItems(heap: Heap, items: seq<Value>, ancestors: set<Ref>): Result<seq<Json>>
    requires Closed(heap) && forall i :: 0 <= i < |items| ==> ValueOk(heap, items[i])
    decreases heap.Keys - ancestors, 3, |items|
  {
    if items == [] then Ok([])
    else
      var first := Walk(heap, items[0], ancestors);
      if first.Failed? then Failed(first.fault)
      else
        var rest := WalkItems(heap, items[1..], ancestors);
        if rest.Failed? then rest else Ok([first.value] + rest.value)
  }

  function WalkProperty(heap: Heap, p: Property, ancestors: set<Ref>): Result<Json>
    requires Closed(heap) && PropertyOk(heap, p)
    decreases heap.Keys - ancestors, 2, 1
  {
    if p.slot.Accessor? then Failed(AccessorKey) else Walk(heap, p.slot.value, ancestors)
  }

  function WalkProperties(heap: Heap, properties: seq<Property>, ancestors: set<Ref>): Result<seq<Entry>>
    requires Closed(heap) && forall i :: 0 <= i < |properties| ==> PropertyOk(heap, properties[i])
    decreases heap.Keys - ancestors, 3, |properties|
  {
    if properties == [] then Ok([])
    else
      var first := WalkProperty(heap, properties[0], ancestors);
      if first.Failed? then Failed(first.fault)
      else
        var rest := WalkProperties(heap, properties[1..], ancestors);
        if rest.Failed? then rest else Ok([Entry(properties[0].key, first.value)] + rest.value)
  }

  // ---- when it fails ----

  /** The values an object holds in data properties or array elements. */
  predicate Holds(node: Node, v: Value) {
    match node
    case ArrayNode(items) => v in items
    case ObjectNode(_, _, properties) => exists i :: 0 <= i < |properties| && properties[i].slot == Data(v)
  }

  /** An object that JSON cannot represent, whatever its children are. */
  ghost predicate Bad(node: Node) {
    || Holds(node, NonFinite) || Holds(node, Unsupported)
    || (node.ObjectNode? && (!node.plain || node.symbolKeys ||
                             exists i :: 0 <= i < |node.properties| && node.properties[i].slot.Accessor?))
  }

  ghost predicate Path(heap: Heap, p: seq<Ref>) {
    && p != [] && (forall i :: 0 <= i < |p| ==> p[i] in heap)
    && (forall i :: 0 <= i < |p| - 1 ==> Holds(heap[p[i]], Pointer(p[i + 1])))
  }

  /** The path ends at a bad object or closes a cycle. */
  ghost predicate Faulty(heap: Heap, p: seq<Ref>, ancestors: set<Ref>)
    requires Path(heap, p)
  {
    var last := p[|p| - 1];
    Bad(heap[last]) || last in ancestors || last in p[..|p| - 1]
  }

  /** Walking the items of an array succeeds exactly when walking each of them does. */
  lemma {:induction false} ItemsFail(heap: Heap, items: seq<Value>, ancestors: set<Ref>)
    requires Closed(heap) && forall i :: 0 <= i < |items| ==> ValueOk(heap, items[i])
    ensures WalkItems(heap, items, ancestors).Failed? <==>
            exists i :: 0 <= i < |items| && Walk(heap, items[i], ancestors).Failed?
    decreases |items|
  {
    if items != [] {
      hide Walk, ValueOk, Closed;
      ItemsFail(heap, items[1..], ancestors);
      assert forall i :: 0 <= i < |items[1..]| ==> items[1..][i] == items[i + 1];
      if i :| 0 <= i < |items| && Walk(heap, items[i], ancestors).Failed? {
        assert i > 0 ==> items[i] == items[1..][i - 1];
      }
    }
  }

  lemma {:induction false} PropertiesFail(heap: Heap, properties: seq<Property>, ancestors: set<Ref>)
    requires Closed(heap) && forall i :: 0 <= i < |properties| ==> PropertyOk(heap, properties[i])
    ensures WalkProperties(heap, properties, ancestors).Failed? <==>
            exists i :: 0 <= i < |properties| && WalkProperty(heap, properties[i], ancestors).Failed?
    decreases |properties|
  {
    if properties != [] {
      hide WalkProperty, PropertyOk, Closed;
      PropertiesFail(heap, properties[1..], ancestors);
      assert forall i :: 0 <= i < |properties[1..]| ==> properties[1..][i] == properties[i + 1];
      if i :| 0 <= i < |properties| && WalkProperty(heap, properties[i], ancestors).Failed? {
        assert i > 0 ==> properties[i] == properties[1..][i - 1];
      }
    }
  }

  ghost predicate ChildFails(heap: Heap, node: Node, ancestors: set<Ref>)
    requires Closed(heap)
  {
    exists c :: c in heap && Holds(node, Pointer(c)) && Walk(heap, Pointer(c), ancestors).Failed?
  }

  lemma ArrayFails(heap: Heap, items: seq<Value>, ancestors: set<Ref>)
    requires Closed(heap) && NodeOk(heap, ArrayNode(items))
    ensures WalkItems(heap, items, ancestors).Failed? <==>
            Bad(ArrayNode(items)) || ChildFails(heap, ArrayNode(items), ancestors)
  {
    hide WalkItems, Closed, WalkNode;
    var node := ArrayNode(items);
    ItemsFail(heap, items, ancestors);
    if i :| 0 <= i < |items| && Walk(heap, items[i], ancestors).Failed? {
      assert Holds(node, items[i]);
    }
    if c :| c in heap && Holds(node, Pointer(c)) && Walk(heap, Pointer(c), ancestors).Failed? {
      var i :| 0 <= i < |items| && items[i] == Pointer(c);
    }
    if Bad(node) {
      var i :| 0 <= i < |items| && (items[i] == NonFinite || items[i] == Unsupported);
      assert Walk(heap, items[i], ancestors).Failed?;
    }
  }

  lemma ObjectFails(heap: Heap, properties: seq<Property>, ancestors: set<Ref>)
    requires Closed(heap) && NodeOk(heap, ObjectNode(true, false, properties))
    ensures WalkProperties(heap, properties, ancestors).Failed? <==>
            || Bad(ObjectNode(true, false, properties))
            || ChildFails(heap, ObjectNode(true, false, properties), ancestors)
  {
    hide WalkProperties, Closed, WalkNode;
    var node := ObjectNode(true, false, properties);
    PropertiesFail(heap, properties, ancestors);
    if i :| 0 <= i < |properties| && WalkProperty(heap, properties[i], ancestors).Failed? {
      assert properties[i].slot.Data? ==> Holds(node, properties[i].slot.value);
    }
    if c :| c in heap && Holds(node, Pointer(c)) && Walk(heap, Pointer(c), ancestors).Failed? {
      var i :| 0 <= i < |properties| && properties[i].slot == Data(Pointer(c));
      assert WalkProperty(heap, properties[i], ancestors).Failed?;
    }
    if Bad(node) {
      var i :| 0 <= i < |properties| && (properties[i].slot.Accessor? || properties[i].slot.value == NonFinite
                                         || properties[i].slot.value == Unsupported);
      assert WalkProperty(heap, properties[i], ancestors).Failed?;
    }
  }

  /** A node fails exactly when it is bad or one of its children fails. */
  lemma NodeFails(heap: Heap, r: Ref, ancestors: set<Ref>)
    requires Closed(heap) && r in heap && r !in ancestors
    ensures WalkNode(heap, r, ancestors).Failed? <==>
            Bad(heap[r]) || ChildFails(heap, heap[r], ancestors + {r})
  {
    hide WalkItems, WalkProperties, ChildFails, Walk, Holds;
    var node := heap[r];
    if node.ArrayNode? {
      ArrayFails(heap, node.items, ancestors + {r});
    } else if node.plain && !node.symbolKeys {
      ObjectFails(heap, node.properties, ancestors + {r});
    }
  }

  /** A failure has a witness: a path to a bad object, or one that closes a cycle. */
  lemma {:induction false} FailureHasPath(heap: Heap, r: Ref, ancestors: set<Ref>) returns (p: seq<Ref>)
    requires Closed(heap) && r in heap && Walk(heap, Pointer(r), ancestors).Failed?
    ensures Path(heap, p) && p[0] == r && Faulty(heap, p, ancestors)
    decreases heap.Keys - ancestors
  {
    hide WalkNode, Closed, Holds;
    p := [r];
    if r !in ancestors && !Bad(heap[r]) {
      NodeFails(heap, r, ancestors);
      var c :| c in heap && Holds(heap[r], Pointer(c)) && Walk(heap, Pointer(c), ancestors + {r}).Failed?;
      var rest := FailureHasPath(heap, c, ancestors + {r});
      p := [r] + rest;
      assert p[|p| - 1] == rest[|rest| - 1];
      assert rest[|rest| - 1] in rest[..|rest| - 1] ==> p[|p| - 1] in p[..|p| - 1] by {
        assert p[..|p| - 1] == [r] + rest[..|rest| - 1];
      }
    }
  }

  /** And every such path makes the walk fail. */
  lemma {:induction false} PathFails(heap: Heap, p: seq<Ref>, ancestors: set<Ref>)
    requires Closed(heap) && Path(heap, p) && Faulty(heap, p, ancestors)
    ensures Walk(heap, Pointer(p[0]), ancestors).Failed?
    decreases |p|
  {
    hide WalkNode, Closed, Holds, Bad;
    var r := p[0];
    if r !in ancestors {
      NodeFails(heap, r, ancestors);
      if |p| > 1 {
        var rest := p[1..];
        assert forall i :: 0 <= i < |rest| ==> rest[i] == p[i + 1];
        assert p[..|p| - 1] == [r] + rest[..|rest| - 1];
        PathFails(heap, rest, ancestors + {r});
        assert Holds(heap[r], Pointer(p[1]));
      }
    }
  }

  ghost predicate CycleReachable(heap: Heap, r: Ref) {
    exists p :: Path(heap, p) && p[0] == r && p[|p| - 1] in p[..|p| - 1]
  }

  ghost predicate BadReachable(heap: Heap, r: Ref) {
    exists p :: Path(heap, p) && p[0] == r && Bad(heap[p[|p| - 1]])
  }

  /** `canonicalize` fails exactly when a cycle or an object that is not JSON can be reached. */
  lemma FailsExactly(heap: Heap, r: Ref)
    requires Closed(heap) && r in heap
    ensures Walk(heap, Pointer(r), {}).Failed? <==> CycleReachable(heap, r) || BadReachable(heap, r)
  {
    hide Walk, Closed, Bad, Holds;
    if Walk(heap, Pointer(r), {}).Failed? {
      var p := FailureHasPath(heap, r, {});
    }
    if CycleReachable(heap, r) {
      var p :| Path(heap, p) && p[0] == r && p[|p| - 1] in p[..|p| - 1];
      PathFails(heap, p, {});
    }
    if BadReachable(heap, r) {
      var p :| Path(heap, p) && p[0] == r && Bad(heap[p[|p| - 1]]);
      PathFails(heap, p, {});
    }
  }

  // ---- what it returns ----

  /** `t` is what one reads by following the pointers from `v`; shared objects are read twice. */
  ghost predicate Unfolds(heap: Heap, v: Value, t: Json)
    decreases t
  {
    match v
    case Plain(json) => t == json
    case Pointer(r) =>
      && r in heap
      && (match heap[r]
          case ArrayNode(items) =>
            && t.Array? && |t.items| == |items|
            && forall i :: 0 <= i < |items| ==> Unfolds(heap, items[i], t.items[i])
          case ObjectNode(_, _, properties) =>
            && t.Object? && |t.entries| == |properties|
            && forall i :: 0 <= i < |properties| ==>
                 && properties[i].slot.Data? && t.entries[i].key == properties[i].key
                 && Unfolds(heap, properties[i].slot.value, t.entries[i].value))
    case _ => false
  }

  /** There is at most one reading. */
  lemma {:induction false} UnfoldsOnce(heap: Heap, v: Value, t: Json, u: Json)
    requires Unfolds(heap, v, t) && Unfolds(heap, v, u)
    ensures t == u
    decreases t
  {
    if v.Pointer? {
      var node := heap[v.target];
      if node.ArrayNode? {
        forall i | 0 <= i < |t.items| ensures t.items[i] == u.items[i] {
          UnfoldsOnce(heap, node.items[i], t.items[i], u.items[i]);
        }
        assert t.items == u.items;
      } else {
        forall i | 0 <= i < |t.entries| ensures t.entries[i] == u.entries[i] {
          UnfoldsOnce(heap, node.properties[i].slot.value, t.entries[i].value, u.entries[i].value);
        }
        assert t.entries == u.entries;
      }
    }
  }

  lemma {:induction false} WalkUnfolds(heap: Heap, v: Value, ancestors: set<Ref>)
    requires Closed(heap) && ValueOk(heap, v) && Walk(heap, v, ancestors).Ok?
    ensures Unfolds(heap, v, Walk(heap, v, ancestors).value) && Proper(Walk(heap, v, ancestors).value)
    decreases heap.Keys - ancestors, 2, 0
  {
    if v.Pointer? {
      hide Closed;
      var r := v.target;
      assert NodeOk(heap, heap[r]) by { NodeIsOk(heap, r); }
      if heap[r].ArrayNode? {
        ItemsUnfold(heap, heap[r].items, ancestors + {r});
      } else {
        PropertiesUnfold(heap, heap[r].properties, ancestors + {r});
      }
    }
  }

  lemma NodeIsOk(heap: Heap, r: Ref)
    requires Closed(heap) && r in heap
    ensures NodeOk(heap, heap[r])
  {
  }

  lemma {:induction false} ItemsUnfold(heap: Heap, items: seq<Value>, ancestors: set<Ref>)
    requires Closed(heap) && forall i :: 0 <= i < |items| ==> ValueOk(heap, items[i])
    requires WalkItems(heap, items, ancestors).Ok?
    ensures var r := WalkItems(heap, items, ancestors).value;
            && |r| == |items|
            && forall i :: 0 <= i < |items| ==> Unfolds(heap, items[i], r[i]) && Proper(r[i])
    decreases heap.Keys - ancestors, 3, |items|
  {
    if items != [] {
      hide Walk, Closed, Unfolds, Proper;
      WalkUnfolds(heap, items[0], ancestors);
      ItemsUnfold(heap, items[1..], ancestors);
    }
  }

  lemma {:induction false} PropertiesUnfold(heap: Heap, properties: seq<Property>, ancestors: set<Ref>)
    requires Closed(heap) && DistinctNames(properties)
    requires forall i :: 0 <= i < |properties| ==> PropertyOk(heap, properties[i])
    requires WalkProperties(heap, properties, ancestors).Ok?
    ensures var r := WalkProperties(heap, properties, ancestors).value;
            && |r| == |properties| && DistinctKeys(r)
            && forall i :: 0 <= i < |properties| ==>
                 && properties[i].slot.Data? && r[i].key == properties[i].key
                 && Unfolds(heap, properties[i].slot.value, r[i].value) && Proper(r[i].value)
    decreases heap.Keys - ancestors, 3, |properties|
  {
    if properties != [] {
      hide Walk, Closed, Unfolds, Proper;
      WalkUnfolds(heap, properties[0].slot.value, ancestors);
      PropertiesUnfold(heap, properties[1..], ancestors);
    }
  }

  // ---- which fault ----

  ghost predicate Containers(heap: Heap) { forall r :: r in heap ==> !Bad(heap[r]) }

  /** Over JSON containers the only fault is the cycle. */
  lemma {:induction false} OnlyCyclesFail(heap: Heap, v: Value, ancestors: set<Ref>)
    requires Closed(heap) && Containers(heap) && ValueOk(heap, v) && (v.Plain? || v.Pointer?)
    ensures Walk(heap, v, ancestors).Failed? ==> Walk(heap, v, ancestors).fault == Cycle
    decreases heap.Keys - ancestors, 2, 0
  {
    if v.Pointer? && v.target !in ancestors {
      hide Closed;
      var r := v.target;
      NodeIsOk(heap, r);
      assert !Bad(heap[r]);
      if heap[r].ArrayNode? {
        OnlyCyclesInItems(heap, heap[r].items, ancestors + {r});
      } else {
        OnlyCyclesInProperties(heap, heap[r].properties, ancestors + {r});
      }
    }
  }

  lemma {:induction false} OnlyCyclesInItems(heap: Heap, items: seq<Value>, ancestors: set<Ref>)
    requires Closed(heap) && Containers(heap)
    requires forall i :: 0 <= i < |items| ==> ValueOk(heap, items[i])
    requires NonFinite !in items && Unsupported !in items
    ensures WalkItems(heap, items, ancestors).Failed? ==> WalkItems(heap, items, ancestors).fault == Cycle
    decreases heap.Keys - ancestors, 3, |items|
  {
    if items != [] {
      hide Closed, Walk, Containers;
      assert items[0] in items;
      OnlyCyclesFail(heap, items[0], ancestors);
      OnlyCyclesInItems(heap, items[1..], ancestors);
    }
  }

  lemma {:induction false} OnlyCyclesInProperties(heap: Heap, properties: seq<Property>, ancestors: set<Ref>)
    requires Closed(heap) && Containers(heap)
    requires forall i :: 0 <= i < |properties| ==>
               PropertyOk(heap, properties[i]) && properties[i].slot.Data?
               && !properties[i].slot.value.NonFinite? && !properties[i].slot.value.Unsupported?
    ensures WalkProperties(heap, properties, ancestors).Failed? ==>
              WalkProperties(heap, properties, ancestors).fault == Cycle
    decreases heap.Keys - ancestors, 3, |properties|
  {
    if properties != [] {
      hide Closed, Walk, Containers;
      OnlyCyclesFail(heap, properties[0].slot.value, ancestors);
      OnlyCyclesInProperties(heap, properties[1..], ancestors);
    }
  }

  /** Two graphs print alike exactly when their readings are the same JSON value. */
  lemma GraphTextsAgree(heap: Heap, v: Value, w: Value)
    requires Closed(heap) && ValueOk(heap, v) && ValueOk(heap, w)
    requires Walk(heap, v, {}).Ok? && Walk(heap, w, {}).Ok?
    ensures DeterministicJson(Walk(heap, v, {}).value) == DeterministicJson(Walk(heap, w, {}).value) <==>
            Same(Walk(heap, v, {}).value, Walk(heap, w, {}).value)
  {
    hide Walk, DeterministicJson, Same;
    WalkUnfolds(heap, v, {});
    WalkUnfolds(heap, w, {});
    DeterministicIsSame(Walk(heap, v, {}).value, Walk(heap, w, {}).value);
  }

  // ---- the program: one shared, mutable set of ancestors ----

  /** Inserting one more property at the end is inserting it into the canonical object. */
  lemma CanonicalSnoc(entries: seq<Entry>, e: Entry)
    requires Proper(Object(entries + [e]))
    ensures CanonicalEntries(entries + [e]) == Insert(Entry(e.key, Canonical(e.value)), CanonicalEntries(entries))
  {
    hide InForm, Meaning, Insert, Before;
    var all := entries + [e];
    assert all[..|entries|] == entries && all[|entries|] == e;
    assert forall i :: 0 <= i < |entries| ==> entries[i] == all[i];
    assert DistinctKeys(entries);
    CanonicalEntriesKeep(all);
    CanonicalEntriesKeep(entries);
    CanonicalKeeps(e.value);
    MembersKeys(entries);
    assert e.key !in Members(entries);
    InsertKeeps(Entry(e.key, Canonical(e.value)), CanonicalEntries(entries));
    MembersSnoc(entries, e);
    FormEntriesUnique(CanonicalEntries(all), Insert(Entry(e.key, Canonical(e.value)), CanonicalEntries(entries)));
  }

  lemma {:induction false} MembersSnoc(entries: seq<Entry>, e: Entry)
    requires DistinctKeys(entries + [e])
    ensures Members(entries + [e]) == Members(entries)[e.key := Meaning(e.value)]
  {
    hide Meaning;
    var all := entries + [e];
    if entries == [] {
      assert all[1..] == [];
    } else {
      assert all[1..] == entries[1..] + [e];
      assert all[0] == entries[0] && all[|entries|] == e && entries[0].key != e.key;
      MembersSnoc(entries[1..], e);
    }
  }

  lemma {:induction false} CanonicalItemsSnoc(items: seq<Json>, last: Json)
    ensures CanonicalItems(items + [last]) == CanonicalItems(items) + [Canonical(last)]
  {
    if items == [] {
      assert items + [last] == [last];
    } else {
      assert (items + [last])[1..] == items[1..] + [last];
      CanonicalItemsSnoc(items[1..], last);
    }
  }

  /** A walk over a list, cut after its first `n` elements that succeed. */
  lemma {:induction false} ItemsSplit(heap: Heap, items: seq<Value>, ancestors: set<Ref>, n: nat, done: seq<Json>)
    requires Closed(heap) && forall i :: 0 <= i < |items| ==> ValueOk(heap, items[i])
    requires n == |done| < |items|
    requires forall i :: 0 <= i < n ==> Walk(heap, items[i], ancestors) == Ok(done[i])
    requires Walk(heap, items[n], ancestors).Failed?
    ensures WalkItems(heap, items, ancestors) == Failed(Walk(heap, items[n], ancestors).fault)
    decreases n
  {
    hide Walk, Closed, ValueOk;
    if n > 0 {
      ItemsSplit(heap, items[1..], ancestors, n - 1, done[1..]);
    }
  }

  lemma {:induction false} ItemsAll(heap: Heap, items: seq<Value>, ancestors: set<Ref>, done: seq<Json>)
    requires Closed(heap) && forall i :: 0 <= i < |items| ==> ValueOk(heap, items[i])
    requires |done| == |items| && forall i :: 0 <= i < |items| ==> Walk(heap, items[i], ancestors) == Ok(done[i])
    ensures WalkItems(heap, items, ancestors) == Ok(done)
    decreases |items|
  {
    hide Walk, Closed, ValueOk;
    if items != [] {
      ItemsAll(heap, items[1..], ancestors, done[1..]);
      assert done == [done[0]] + done[1..];
    }
  }

  class Canonicalizer {
    var ancestors: set<Ref>

    constructor ()
      ensures ancestors == {}
    {
      ancestors := {};
    }

    /** Succeeds or fails as the walk does, and gives the set of ancestors back as it was. */
    method Canonicalize(heap: Heap, v: Value) returns (r: Result<Json>, ghost tree: Json)
      requires Closed(heap) && ValueOk(heap, v)
      modifies this
      ensures ancestors == old(ancestors)
      ensures var walked := Walk(heap, v, ancestors);
              if walked.Ok? then tree == walked.value && r == Ok(Canonical(tree)) else r == walked
      decreases heap.Keys - ancestors, 2
    {
      tree := Null;
      match v
      case Plain(json) => tree := json; r := Ok(Canonical(json));
      case NonFinite => r := Failed(NonFiniteNumber);
      case Unsupported => r := Failed(UnsupportedValue);
      case Pointer(ref) =>
        if ref in ancestors { return Failed(Cycle), tree; }
        ghost var before := ancestors;
        ancestors := ancestors + {ref};
        NodeIsOk(heap, ref);
        match heap[ref] {
          case ArrayNode(items) =>
            var list;
            ghost var raw;
            list, raw := CanonicalizeItems(heap, items);
            if list.Ok? { tree := Array(raw); r := Ok(Array(list.value)); } else { r := Failed(list.fault); }
          case ObjectNode(plain, symbolKeys, properties) =>
            if !plain { r := Failed(NonPlainObject); }
            else if symbolKeys { r := Failed(SymbolKey); }
            else {
              var entries;
              ghost var raw;
              entries, raw := CanonicalizeProperties(heap, properties);
              if entries.Ok? { tree := Object(raw); r := Ok(Object(entries.value)); }
              else { r := Failed(entries.fault); }
            }
        }
        ancestors := ancestors - {ref};
        assert ancestors == before;
    }

    method CanonicalizeItems(heap: Heap, items: seq<Value>) returns (r: Result<seq<Json>>, ghost raw: seq<Json>)
      requires Closed(heap) && forall i :: 0 <= i < |items| ==> ValueOk(heap, items[i])
      modifies this
      ensures ancestors == old(ancestors)
      ensures var walked := WalkItems(heap, items, ancestors);
              if walked.Ok? then raw == walked.value && r == Ok(CanonicalItems(raw)) else r == Failed(walked.fault)
      decreases heap.Keys - ancestors, 3
    {
      hide Walk, WalkItems, Canonical, Closed, ValueOk;
      var result := [];
      raw := [];
      var i := 0;
      while i < |items|
        invariant 0 <= i <= |items| && |raw| == i
        invariant ancestors == old(ancestors)
        invariant forall j :: 0 <= j < i ==> Walk(heap, items[j], ancestors) == Ok(raw[j])
        invariant result == CanonicalItems(raw)
      {
        var item;
        ghost var tree;
        item, tree := Canonicalize(heap, items[i]);
        if item.Failed? {
          ItemsSplit(heap, items, ancestors, i, raw);
          return Failed(item.fault), raw;
        }
        CanonicalItemsSnoc(raw, tree);
        result := result + [item.value];
        raw := raw + [tree];
        i := i + 1;
      }
      ItemsAll(heap, items, ancestors, raw);
      r := Ok(result);
    }

    method CanonicalizeProperties(heap: Heap, properties: seq<Property>)
      returns (r: Result<seq<Entry>>, ghost raw: seq<Entry>)
      requires Closed(heap) && DistinctNames(properties)
      requires forall i :: 0 <= i < |properties| ==> PropertyOk(heap, properties[i])
      modifies this
      ensures ancestors == old(ancestors)
      ensures var walked := WalkProperties(heap, properties, ancestors);
              if walked.Ok? then raw == walked.value && r == Ok(CanonicalEntries(raw)) else r == Failed(walked.fault)
      decreases heap.Keys - ancestors, 3
    {
      hide Walk, WalkProperties, Canonical, Closed, Insert, Proper, Unfolds, ValueOk;
      var result: seq<Entry> := [];
      raw := [];
      var i := 0;
      while i < |properties|
        invariant 0 <= i <= |properties| && |raw| == i
        invariant ancestors == old(ancestors)
        invariant PrefixWalked(heap, properties, ancestors, raw)
        invariant result == CanonicalEntries(raw)
      {
        var p := properties[i];
        if p.slot.Accessor? {
          PropertiesSplit(heap, properties, ancestors, i, raw);
          return Failed(AccessorKey), raw;
        }
        var value;
        ghost var tree;
        value, tree := Canonicalize(heap, p.slot.value);
        if value.Failed? {
          PropertiesSplit(heap, properties, ancestors, i, raw);
          return Failed(value.fault), raw;
        }
        PrefixGrows(heap, properties, ancestors, raw, tree);
        CanonicalSnoc(raw, Entry(p.key, tree));
        result := Insert(Entry(p.key, value.value), result);
        raw := raw + [Entry(p.key, tree)];
        i := i + 1;
      }
      PropertiesAll(heap, properties, ancestors, raw);
      r := Ok(result);
    }
  }

  ghost predicate PrefixWalked(heap: Heap, properties: seq<Property>, ancestors: set<Ref>, raw: seq<Entry>)
    requires Closed(heap) && forall i :: 0 <= i < |properties| ==> PropertyOk(heap, properties[i])
  {
    && |raw| <= |properties|
    && forall j :: 0 <= j < |raw| ==>
         raw[j].key == properties[j].key && WalkProperty(heap, properties[j], ancestors) == Ok(raw[j].value)
  }

  lemma PrefixGrows(heap: Heap, properties: seq<Property>, ancestors: set<Ref>, raw: seq<Entry>, tree: Json)
    requires Closed(heap) && DistinctNames(properties)
    requires forall i :: 0 <= i < |properties| ==> PropertyOk(heap, properties[i])
    requires PrefixWalked(heap, properties, ancestors, raw) && |raw| < |properties|
    requires WalkProperty(heap, properties[|raw|], ancestors) == Ok(tree)
    ensures PrefixWalked(heap, properties, ancestors, raw + [Entry(properties[|raw|].key, tree)])
    ensures Proper(Object(raw + [Entry(properties[|raw|].key, tree)]))
  {
    hide Walk, Closed, Unfolds, ValueOk;
    var all := raw + [Entry(properties[|raw|].key, tree)];
    forall j | 0 <= j < |all| ensures Proper(all[j].value) {
      WalkUnfolds(heap, properties[j].slot.value, ancestors);
    }
  }

  lemma {:induction false} PropertiesSplit(heap: Heap, properties: seq<Property>, ancestors: set<Ref>, n: nat,
                                           raw: seq<Entry>)
    requires Closed(heap) && forall i :: 0 <= i < |properties| ==> PropertyOk(heap, properties[i])
    requires PrefixWalked(heap, properties, ancestors, raw) && n == |raw| < |properties|
    requires WalkProperty(heap, properties[n], ancestors).Failed?
    ensures WalkProperties(heap, properties, ancestors) == Failed(WalkProperty(heap, properties[n], ancestors).fault)
    decreases n
  {
    hide WalkProperty, Closed, PropertyOk;
    if n > 0 {
      PropertiesSplit(heap, properties[1..], ancestors, n - 1, raw[1..]);
    }
  }

  lemma {:induction false} PropertiesAll(heap: Heap, properties: seq<Property>, ancestors: set<Ref>, raw: seq<Entry>)
    requires Closed(heap) && forall i :: 0 <= i < |properties| ==> PropertyOk(heap, properties[i])
    requires PrefixWalked(heap, properties, ancestors, raw) && |raw| == |properties|
    ensures WalkProperties(heap, properties, ancestors) == Ok(raw)
    decreases |properties|
  {
    hide WalkProperty, Closed, PropertyOk;
    if properties != [] {
      PropertiesAll(heap, properties[1..], ancestors, raw[1..]);
      assert raw == [Entry(properties[0].key, raw[0].value)] + raw[1..];
    }
  }
}
