/** Which error `canonicalize` of src/server/canonical-json.ts throws: the first fault on the way, and what it means. */
module GraphFaults {
  import opened Wrappers
  import opened Utf16
  import opened CanonicalJson
  import opened ObjectGraph

  /** What the object at the end of the path has done wrong: each error says what there is. */
  ghost predicate Shows(heap: Heap, p: seq<Ref>, ancestors: set<Ref>, fault: Fault)
    requires Path(heap, p)
  {
    var last := p[|p| - 1];
    var node := heap[last];
    match fault
    case Cycle => last in ancestors || last in p[..|p| - 1]
    case NonFiniteNumber => Holds(node, NonFinite)
    case UnsupportedValue => Holds(node, Unsupported)
    case NonPlainObject => node.ObjectNode? && !node.plain
    case SymbolKey => node.ObjectNode? && node.plain && node.symbolKeys
    case AccessorKey => node.ObjectNode? && exists i :: 0 <= i < |node.properties| && node.properties[i].slot == Accessor
  }

  ghost predicate FirstItem(heap: Heap, items: seq<Value>, ancestors: set<Ref>, i: nat, fault: Fault)
    requires Closed(heap) && forall k :: 0 <= k < |items| ==> ValueOk(heap, items[k])
  {
    && i < |items| && Walk(heap, items[i], ancestors) == Failed(fault)
    && forall j :: 0 <= j < i ==> Walk(heap, items[j], ancestors).Ok?
  }

  /** An array fails with the fault of its first item that fails. */
  lemma {:induction false} ItemsFault(heap: Heap, items: seq<Value>, ancestors: set<Ref>) returns (i: nat)
    requires Closed(heap) && forall k :: 0 <= k < |items| ==> ValueOk(heap, items[k])
    requires WalkItems(heap, items, ancestors).Failed?
    ensures FirstItem(heap, items, ancestors, i, WalkItems(heap, items, ancestors).fault)
    decreases |items|
  {
    hide Walk, Closed, ValueOk;
    i := 0;
    if Walk(heap, items[0], ancestors).Ok? {
      i := ItemsFault(heap, items[1..], ancestors);
      i := i + 1;
      assert forall j :: 0 < j < |items| ==> items[j] == items[1..][j - 1];
    }
  }

  /** The fault of one property, if it has one. */
  ghost function OwnFault(heap: Heap, p: Property, ancestors: set<Ref>): Option<Fault>
    requires Closed(heap) && PropertyOk(heap, p)
  {
    match p.slot
    case Accessor => Some(AccessorKey)
    case Data(value) =>
      match Walk(heap, value, ancestors) { case Failed(fault) => Some(fault) case Ok(_) => None }
  }

  ghost predicate FirstProperty(heap: Heap, properties: seq<Property>, ancestors: set<Ref>, i: nat, fault: Fault)
    requires Closed(heap) && forall k :: 0 <= k < |properties| ==> PropertyOk(heap, properties[k])
  {
    && i < |properties|
    && OwnFault(heap, properties[i], ancestors) == Some(fault)
    && forall j :: 0 <= j < i ==> OwnFault(heap, properties[j], ancestors) == None
  }

  /** An object fails with the fault of its first property that fails; an accessor is one. */
  lemma {:induction false} PropertiesFault(heap: Heap, properties: seq<Property>, ancestors: set<Ref>) returns (i: nat)
    requires Closed(heap) && forall k :: 0 <= k < |properties| ==> PropertyOk(heap, properties[k])
    requires WalkProperties(heap, properties, ancestors).Failed?
    ensures FirstProperty(heap, properties, ancestors, i, WalkProperties(heap, properties, ancestors).fault)
    decreases |properties|
  {
    hide Walk, Closed, ValueOk;
    i := 0;
    assert PropertyOk(heap, properties[0]);
    if OwnFault(heap, properties[0], ancestors) == None {
      i := PropertiesFault(heap, properties[1..], ancestors);
      i := i + 1;
      assert forall j :: 0 < j < |properties| ==> properties[j] == properties[1..][j - 1];
    }
  }

  /** How a node fails: by itself, or at the first child that does. */
  lemma NodeFault(heap: Heap, r: Ref, ancestors: set<Ref>) returns (child: Value)
    requires Closed(heap) && r in heap && r !in ancestors && WalkNode(heap, r, ancestors).Failed?
    ensures Path(heap, [r])
    ensures var fault := WalkNode(heap, r, ancestors).fault;
            || Shows(heap, [r], ancestors, fault)
            || (child.Pointer? && child.target in heap && Holds(heap[r], child)
                && Walk(heap, child, ancestors + {r}) == Failed(fault))
  {
    hide WalkNode, Closed, WalkItems, WalkProperties;
    var node := heap[r];
    child := NonFinite;
    NodeUnfold(heap, r, ancestors);
    if node.ArrayNode? {
      var i := ItemsFault(heap, node.items, ancestors + {r});
      child := node.items[i];
      LeafFault(heap, child, ancestors + {r});
    } else if node.plain && !node.symbolKeys {
      var i := PropertiesFault(heap, node.properties, ancestors + {r});
      if node.properties[i].slot.Data? {
        child := node.properties[i].slot.value;
        LeafFault(heap, child, ancestors + {r});
      }
    }
  }

  lemma NodeUnfold(heap: Heap, r: Ref, ancestors: set<Ref>)
    requires Closed(heap) && r in heap && r !in ancestors
    ensures NodeOk(heap, heap[r])
    ensures heap[r].ArrayNode? && WalkNode(heap, r, ancestors).Failed? ==>
              WalkItems(heap, heap[r].items, ancestors + {r}) == Failed(WalkNode(heap, r, ancestors).fault)
    ensures heap[r].ObjectNode? && WalkNode(heap, r, ancestors).Failed? ==>
              if !heap[r].plain then WalkNode(heap, r, ancestors).fault == NonPlainObject
              else if heap[r].symbolKeys then WalkNode(heap, r, ancestors).fault == SymbolKey
              else WalkProperties(heap, heap[r].properties, ancestors + {r}) == Failed(WalkNode(heap, r, ancestors).fault)
  {
    hide WalkItems, WalkProperties;
  }

  /** Numbers that are not finite, and values that are not JSON, are told apart. */
  lemma LeafFault(heap: Heap, v: Value, ancestors: set<Ref>)
    requires Closed(heap) && ValueOk(heap, v) && Walk(heap, v, ancestors).Failed?
    ensures !v.Plain?
    ensures v == NonFinite ==> Walk(heap, v, ancestors).fault == NonFiniteNumber
    ensures v == Unsupported ==> Walk(heap, v, ancestors).fault == UnsupportedValue
    ensures v.Pointer? ==> v.target in heap
  {
    hide WalkNode, Closed;
  }

  /** Whatever error is thrown, there is a path to an object that shows exactly that fault. */
  lemma {:induction false} FaultHasPath(heap: Heap, r: Ref, ancestors: set<Ref>) returns (p: seq<Ref>)
    requires Closed(heap) && r in heap && Walk(heap, Pointer(r), ancestors).Failed?
    ensures Path(heap, p) && p[0] == r && Shows(heap, p, ancestors, Walk(heap, Pointer(r), ancestors).fault)
    decreases heap.Keys - ancestors
  {
    hide WalkNode, Closed, Holds;
    p := [r];
    if r !in ancestors {
      var fault := Walk(heap, Pointer(r), ancestors).fault;
      var child := NodeFault(heap, r, ancestors);
      if !Shows(heap, [r], ancestors, fault) {
        var rest := FaultHasPath(heap, child.target, ancestors + {r});
        p := [r] + rest;
        ShowsBelow(heap, r, rest, ancestors, fault);
      }
    }
  }

  lemma ShowsBelow(heap: Heap, r: Ref, rest: seq<Ref>, ancestors: set<Ref>, fault: Fault)
    requires r in heap && Path(heap, rest) && Holds(heap[r], Pointer(rest[0]))
    requires Shows(heap, rest, ancestors + {r}, fault)
    ensures Path(heap, [r] + rest) && Shows(heap, [r] + rest, ancestors, fault)
  {
    hide Holds;
    var p := [r] + rest;
    assert p[|p| - 1] == rest[|rest| - 1] && p[..|p| - 1] == [r] + rest[..|rest| - 1];
  }
}
