/** The entity and shape helpers of the editor view.

    `processEntity` renames and strips keys of a shallow copy of an entity
    record; `processComponentType` maps a shape group's component IRI to the
    component that renders it; `addToShape` appends the groups of one shape to
    another in place, numbering each appended group's `order`. */
module EditorMethods {
  import opened Js
  import opened Wrappers

  /** The IRIs of the information model's vocabulary used here. */
  const ImId := "http://endhealth.info/im#id"
  const Im1Id := "http://endhealth.info/im#im1Id"
  const Im1Scheme := "http://endhealth.info/im#im1Scheme"
  const StepsGroupComponent := "http://endhealth.info/im#stepsGroup"

  const ComponentTypeError := "Invalid component type encountered in shape group"

  // ---------------------------------------------------------------------------
  // processEntity
  // ---------------------------------------------------------------------------

  /** `processEntity`: "@id" is moved to the full IRI key, and the two legacy
      keys are removed. The input record is a value, so it is never changed. */
  function ProcessEntity(entity: map<string, Value>): (r: map<string, Value>)
    ensures "@id" !in r && Im1Id !in r && Im1Scheme !in r
    ensures "@id" in entity ==> ImId in r && r[ImId] == entity["@id"]
    ensures "@id" !in entity ==> (ImId in r <==> ImId in entity) && (ImId in entity ==> r[ImId] == entity[ImId])
    ensures forall k :: k in entity && k !in {"@id", ImId, Im1Id, Im1Scheme} ==> k in r && r[k] == entity[k]
    ensures forall k :: k in r ==> k in entity || k == ImId
  {
    var result := entity;
    var renamed := if "@id" in result then (result[ImId := result["@id"]]) - {"@id"} else result;
    var withoutId := if Im1Id in renamed then renamed - {Im1Id} else renamed;
    if Im1Scheme in withoutId then withoutId - {Im1Scheme} else withoutId
  }

  /** Processing an entity a second time changes nothing. */
  lemma ProcessEntityIdempotent(entity: map<string, Value>)
    ensures ProcessEntity(ProcessEntity(entity)) == ProcessEntity(entity)
  {
    var once := ProcessEntity(entity);
    var twice := ProcessEntity(once);
    assert forall k :: k in twice <==> k in once;
    assert forall k :: k in twice ==> twice[k] == once[k];
  }

  // ---------------------------------------------------------------------------
  // processComponentType
  // ---------------------------------------------------------------------------

  /** The components a shape group can be rendered with. */
  datatype Component = StepsGroup

  /** `processComponentType`: only the steps-group IRI has a component; any
      other IRI is an error naming it. */
  function ProcessComponentType(iri: string): (r: Result<Component, string>)
    ensures r.Ok? <==> iri == StepsGroupComponent
    ensures r.Ok? ==> r.value == StepsGroup
    ensures r.Err? ==> r.error == ComponentTypeError + iri
  {
    if iri == StepsGroupComponent then Ok(StepsGroup) else Err(ComponentTypeError + iri)
  }

  // ---------------------------------------------------------------------------
  // addToShape
  // ---------------------------------------------------------------------------

  /** The shape at `s` has a "group" key holding an array, other than the array
      `b` that is being iterated. */
  predicate ShapeReady(h: Cells, s: nat, b: nat) {
    && IsObjectHasAllKeys(h, Ref(s), ["group"])
    && IsObject(h, Prop(h, Ref(s), "group"))
    && h[Prop(h, Ref(s), "group").addr].isArray
    && Prop(h, Ref(s), "group").addr != b
  }

  /** The address of the shape's group array. */
  function GroupArray(h: Cells, s: nat, b: nat): nat
    requires ShapeReady(h, s, b)
  {
    Prop(h, Ref(s), "group").addr
  }

  predicate AllIn(items: seq<Value>, n: nat) {
    forall i :: 0 <= i < |items| ==> ValueIn(items[i], n)
  }

  /** The body of one iteration for an object group `g` once the guard holds
      for the array at `a`: allocate the arrow function handed to `includes`,
      set `g.order` to the array's length plus one and push `g` onto it. */
  function PushGroup(h: Cells, a: nat, g: Value): (r: Cells)
    requires a < |h| && IsObject(h, g)
    ensures && |r| == |h| + 1 && r[|h|] == FunctionObject
      && r[a].elems == h[a].elems + [g]
      && r[g.addr].props == h[g.addr].props["order" := Num(|h[a].elems| + 1)]
      && (forall c :: 0 <= c < |h| && c != a && c != g.addr ==> r[c] == h[c])
      && (forall c :: 0 <= c < |h| && c != g.addr ==> r[c].props == h[c].props)
  {
    var h1 := h + [FunctionObject];
    PushElem(SetProp(h1, g.addr, "order", Num(|h1[a].elems| + 1)), a, g)
  }

  /** One iteration for an object group `g`, pushing onto the shape's group
      array. */
  function Step(h: Cells, s: nat, b: nat, g: Value): (r: Cells)
    requires Closed(h) && ShapeReady(h, s, b) && IsObject(h, g)
    ensures var a := GroupArray(h, s, b);
      && |r| == |h| + 1 && r[|h|] == FunctionObject
      && r[a].elems == h[a].elems + [g]
      && r[g.addr].props == h[g.addr].props["order" := Num(|h[a].elems| + 1)]
      && (forall c :: 0 <= c < |h| && c != a && c != g.addr ==> r[c] == h[c])
      && (forall c :: 0 <= c < |h| && c != g.addr ==> r[c].props == h[c].props)
  {
    PushGroup(h, GroupArray(h, s, b), g)
  }

  /** The iterations of the loop over `items`, the groups still to add.
      Writing `order` on a group that is not an object throws, after the
      arrow function of that iteration is allocated. */
  function GroupsAdded(h: Cells, s: nat, b: nat, items: seq<Value>): (r: Run)
    requires Closed(h) && ShapeReady(h, s, b) && AllIn(items, |h|)
    ensures |h| <= |r.cells|
    decreases |items|
  {
    if items == [] then Run(h, false)
    else if !IsObject(h + [FunctionObject], items[0]) then Run(h + [FunctionObject], true)
    else
      StepKeepsReady(h, s, b, items[0]);
      GroupsAdded(Step(h, s, b, items[0]), s, b, items[1..])
  }

  /** One iteration keeps the heap closed and the shape ready, with the same
      group array. */
  lemma StepKeepsReady(h: Cells, s: nat, b: nat, g: Value)
    requires Closed(h) && ShapeReady(h, s, b) && IsObject(h, g)
    ensures var r := Step(h, s, b, g);
      Closed(r) && ShapeReady(r, s, b) && GroupArray(r, s, b) == GroupArray(h, s, b)
  {
    var r := Step(h, s, b, g);
    forall c | 0 <= c < |r|
      ensures ObjIn(r[c], |r|)
    {
      if c < |h| {
        assert ObjIn(h[c], |h|);
      }
    }
  }

  /** One iteration of the loop, for an object group. */
  lemma GroupsAddedUnfold(h: Cells, s: nat, b: nat, items: seq<Value>)
    requires Closed(h) && ShapeReady(h, s, b) && AllIn(items, |h|)
    requires items != [] && items[0].Ref?
    ensures var h2 := Step(h, s, b, items[0]);
      && Closed(h2) && ShapeReady(h2, s, b) && GroupArray(h2, s, b) == GroupArray(h, s, b)
      && AllIn(items[1..], |h2|)
      && GroupsAdded(h, s, b, items) == GroupsAdded(h2, s, b, items[1..])
  {
    StepKeepsReady(h, s, b, items[0]);
  }

  /** The arrow function handed to `includes` is a new object, so no element
      of the shape's groups is that object and the guard never excludes a
      group. */
  lemma GuardNeverExcludes(h: Cells, s: nat, b: nat)
    requires Closed(h) && ShapeReady(h, s, b)
    ensures IsObjectHasAllKeys(h + [FunctionObject], Ref(s), ["group"])
    ensures !Includes((h + [FunctionObject])[GroupArray(h, s, b)].elems, Ref(|h|))
  {
    var a := GroupArray(h, s, b);
    assert ObjIn(h[a], |h|);
    forall i | 0 <= i < |h[a].elems|
      ensures h[a].elems[i] != Ref(|h|)
    {
      assert ValueIn(h[a].elems[i], |h|);
    }
  }

  /** No group of `items` after position `k` is the group at `k`. */
  predicate LastOccurrence(items: seq<Value>, k: nat)
    requires k < |items|
  {
    forall j :: k < j < |items| ==> items[j] != items[k]
  }

  /** When every group is an object, the loop does not throw, one function
      object is allocated per group, and the shape's group array ends with
      the old groups followed by all of `items` in order. */
  lemma {:induction false} GroupsAddedAppends(h: Cells, s: nat, b: nat, items: seq<Value>)
    requires Closed(h) && ShapeReady(h, s, b) && AllIn(items, |h|)
    requires forall i :: 0 <= i < |items| ==> items[i].Ref?
    ensures var r := GroupsAdded(h, s, b, items); var a := GroupArray(h, s, b);
      && !r.threw
      && |r.cells| == |h| + |items|
      && r.cells[a].elems == h[a].elems + items
    decreases |items|
  {
    if items != [] {
      var g := items[0];
      var h2 := Step(h, s, b, g);
      GroupsAddedUnfold(h, s, b, items);
      GroupsAddedAppends(h2, s, b, items[1..]);
      assert items == [g] + items[1..];
    }
  }

  /** No cell other than the shape's group array and the groups changes, and
      every cell allocated by the loop is one of its arrow functions. */
  lemma {:induction false} GroupsAddedFrame(h: Cells, s: nat, b: nat, items: seq<Value>)
    requires Closed(h) && ShapeReady(h, s, b) && AllIn(items, |h|)
    ensures var r := GroupsAdded(h, s, b, items); var a := GroupArray(h, s, b);
      && (forall c :: 0 <= c < |h| && c != a && Ref(c) !in items ==> r.cells[c] == h[c])
      && (forall c :: |h| <= c < |r.cells| ==> r.cells[c] == FunctionObject)
    decreases |items|
  {
    if items != [] && IsObject(h + [FunctionObject], items[0]) {
      var h2 := Step(h, s, b, items[0]);
      GroupsAddedUnfold(h, s, b, items);
      GroupsAddedFrame(h2, s, b, items[1..]);
      var r := GroupsAdded(h2, s, b, items[1..]);
      assert Ref(|h|) !in items[1..] by {
        assert AllIn(items, |h|);
      }
      forall c | 0 <= c < |h| && c != GroupArray(h, s, b) && Ref(c) !in items
        ensures r.cells[c] == h[c]
      {
        assert Ref(c) !in items[1..];
      }
    }
  }

  /** The groups' keys change only on the groups themselves. */
  lemma {:induction false} GroupsAddedKeepsKeys(h: Cells, s: nat, b: nat, items: seq<Value>)
    requires Closed(h) && ShapeReady(h, s, b) && AllIn(items, |h|)
    ensures var r := GroupsAdded(h, s, b, items);
      forall c :: 0 <= c < |h| && Ref(c) !in items ==> r.cells[c].props == h[c].props
    decreases |items|
  {
    if items != [] && IsObject(h + [FunctionObject], items[0]) {
      var h2 := Step(h, s, b, items[0]);
      GroupsAddedUnfold(h, s, b, items);
      GroupsAddedKeepsKeys(h2, s, b, items[1..]);
      var r := GroupsAdded(h2, s, b, items[1..]);
      forall c | 0 <= c < |h| && Ref(c) !in items
        ensures r.cells[c].props == h[c].props
      {
        assert Ref(c) !in items[1..];
      }
    }
  }

  /** A last occurrence after the head is a last occurrence in the tail. */
  lemma LastOccurrenceTail(items: seq<Value>, k: nat)
    requires 0 < k < |items| && LastOccurrence(items, k)
    ensures items[1..][k - 1] == items[k] && LastOccurrence(items[1..], k - 1)
  {
  }

  /** The head is its own last occurrence only when the tail does not hold it. */
  lemma LastOccurrenceFirst(items: seq<Value>)
    requires items != [] && LastOccurrence(items, 0)
    ensures items[0] !in items[1..]
  {
    forall j | 0 <= j < |items[1..]|
      ensures items[1..][j] != items[0]
    {
      assert items[j + 1] != items[0];
    }
  }

  /** The first group, when it does not occur again, keeps the `order` its
      own iteration gives it. */
  lemma FirstGroupOrder(h: Cells, s: nat, b: nat, items: seq<Value>)
    requires Closed(h) && ShapeReady(h, s, b) && AllIn(items, |h|)
    requires items != [] && items[0].Ref? && items[0] !in items[1..]
    ensures Prop(GroupsAdded(h, s, b, items).cells, items[0], "order")
      == Num(|h[GroupArray(h, s, b)].elems| + 1)
  {
    var h2 := Step(h, s, b, items[0]);
    GroupsAddedUnfold(h, s, b, items);
    GroupsAddedKeepsKeys(h2, s, b, items[1..]);
  }

  /** When every group is an object, a group's `order` is its one-based
      position in the shape's group array, counted at its last occurrence in
      `items`. */
  lemma {:induction false} GroupsAddedOrders(h: Cells, s: nat, b: nat, items: seq<Value>)
    requires Closed(h) && ShapeReady(h, s, b) && AllIn(items, |h|)
    requires forall i :: 0 <= i < |items| ==> items[i].Ref?
    ensures var r := GroupsAdded(h, s, b, items); var a := GroupArray(h, s, b);
      forall k :: 0 <= k < |items| && LastOccurrence(items, k) ==>
        Prop(r.cells, items[k], "order") == Num(|h[a].elems| + k + 1)
    decreases |items|
  {
    if items != [] {
      var g := items[0];
      var a := GroupArray(h, s, b);
      var h2 := Step(h, s, b, g);
      GroupsAddedUnfold(h, s, b, items);
      GroupsAddedOrders(h2, s, b, items[1..]);
      var r := GroupsAdded(h2, s, b, items[1..]);
      assert GroupArray(h2, s, b) == a && |h2[a].elems| == |h[a].elems| + 1;
      forall k | 0 <= k < |items| && LastOccurrence(items, k)
        ensures Prop(r.cells, items[k], "order") == Num(|h[a].elems| + k + 1)
      {
        if k > 0 {
          LastOccurrenceTail(items, k);
        } else {
          LastOccurrenceFirst(items);
          FirstGroupOrder(h, s, b, items);
        }
      }
    }
  }

  /** When some group is not an object, the loop throws at the first such
      group, after appending the groups before it. */
  lemma {:induction false} GroupsAddedThrows(h: Cells, s: nat, b: nat, items: seq<Value>, j: nat)
    requires Closed(h) && ShapeReady(h, s, b) && AllIn(items, |h|)
    requires j < |items| && !items[j].Ref? && forall i :: 0 <= i < j ==> items[i].Ref?
    ensures var r := GroupsAdded(h, s, b, items); var a := GroupArray(h, s, b);
      && r.threw
      && r.cells[a].elems == h[a].elems + items[..j]
    decreases |items|
  {
    if j > 0 {
      var g := items[0];
      var h2 := Step(h, s, b, g);
      GroupsAddedUnfold(h, s, b, items);
      GroupsAddedThrows(h2, s, b, items[1..], j - 1);
      assert items[1..][..j - 1] == items[1..j];
      assert items[..j] == [g] + items[1..j];
    }
  }

  /** The loop throws exactly when some group is not an object. */
  lemma GroupsAddedThrowsIff(h: Cells, s: nat, b: nat, items: seq<Value>)
    requires Closed(h) && ShapeReady(h, s, b) && AllIn(items, |h|)
    ensures GroupsAdded(h, s, b, items).threw <==> exists i :: 0 <= i < |items| && !items[i].Ref?
  {
    if exists i :: 0 <= i < |items| && !items[i].Ref? {
      var j := FirstNonObject(items);
      GroupsAddedThrows(h, s, b, items, j);
    } else {
      GroupsAddedAppends(h, s, b, items);
    }
  }

  /** The position of the first group that is not an object. */
  function FirstNonObject(items: seq<Value>): (j: nat)
    requires exists i :: 0 <= i < |items| && !items[i].Ref?
    ensures j < |items| && !items[j].Ref? && forall i :: 0 <= i < j ==> items[i].Ref?
  {
    if !items[0].Ref? then 0
    else
      assert exists i :: 0 <= i < |items[1..]| && !items[1..][i].Ref? by {
        var i :| 0 <= i < |items| && !items[i].Ref?;
        assert items[1..][i - 1] == items[i];
      }
      1 + FirstNonObject(items[1..])
  }

  // ---------------------------------------------------------------------------
  // addToShape, merging by group name
  // ---------------------------------------------------------------------------

  /** `group.name` of a group. */
  function GroupName(h: Cells, g: Value): Value {
    Prop(h, g, "name")
  }

  predicate HasName(h: Cells, groups: seq<Value>, name: Value) {
    exists i :: 0 <= i < |groups| && GroupName(h, groups[i]) == name
  }

  predicate NamesUnique(h: Cells, groups: seq<Value>) {
    forall i, j :: 0 <= i < j < |groups| ==> GroupName(h, groups[i]) != GroupName(h, groups[j])
  }

  /** The merge the guard of `addToShape` evidently means: a group is appended
      only when no group already in the shape (including those appended
      before it) has its name. Names are read once, since the loop writes
      only `order`. */
  function MergeByName(h: Cells, groups: seq<Value>, items: seq<Value>): (r: seq<Value>)
    ensures |groups| <= |r| && r[..|groups|] == groups
    decreases |items|
  {
    if items == [] then groups
    else if HasName(h, groups, GroupName(h, items[0])) then MergeByName(h, groups, items[1..])
    else
      var r := MergeByName(h, groups + [items[0]], items[1..]);
      assert r[..|groups|] == r[..|groups| + 1][..|groups|];
      r
  }

  /** Merging by name keeps the names of the shape's groups distinct. */
  lemma {:induction false} MergeByNameKeepsNamesUnique(h: Cells, groups: seq<Value>, items: seq<Value>)
    requires NamesUnique(h, groups)
    ensures NamesUnique(h, MergeByName(h, groups, items))
    decreases |items|
  {
    if items != [] {
      if HasName(h, groups, GroupName(h, items[0])) {
        MergeByNameKeepsNamesUnique(h, groups, items[1..]);
      } else {
        var more := groups + [items[0]];
        forall i, j | 0 <= i < j < |more|
          ensures GroupName(h, more[i]) != GroupName(h, more[j])
        {
          if j == |groups| {
            assert more[i] == groups[i];
          }
        }
        MergeByNameKeepsNamesUnique(h, more, items[1..]);
      }
    }
  }

  /** Every group of the merge comes from the shape or from the added groups,
      and every added group's name is present afterwards. */
  lemma {:induction false} MergeByNameCovers(h: Cells, groups: seq<Value>, items: seq<Value>)
    ensures var r := MergeByName(h, groups, items);
      && (forall x :: x in r ==> x in groups || x in items)
      && (forall k :: 0 <= k < |items| ==> HasName(h, r, GroupName(h, items[k])))
    decreases |items|
  {
    if items != [] {
      var g := items[0];
      var more := if HasName(h, groups, GroupName(h, g)) then groups else groups + [g];
      MergeByNameCovers(h, more, items[1..]);
      var r := MergeByName(h, more, items[1..]);
      assert r == MergeByName(h, groups, items);
      assert HasName(h, more, GroupName(h, g)) by {
        if !HasName(h, groups, GroupName(h, g)) {
          assert more[|groups|] == g;
        }
      }
      assert HasName(h, r, GroupName(h, g)) by {
        var i :| 0 <= i < |more| && GroupName(h, more[i]) == GroupName(h, g);
        assert r[..|more|][i] == more[i];
      }
      forall k | 0 <= k < |items|
        ensures HasName(h, r, GroupName(h, items[k]))
      {
        if k > 0 {
          assert items[1..][k - 1] == items[k];
        }
      }
    }
  }

  /** Two shapes that share a group named "Summary details": cell 0 is the
      shape, with its groups in array 1, and cell 3 the shape to add, with
      its groups in array 4. */
  const SharedName := Str("Summary details")
  const TwoShapes: Cells := [
    Obj(false, map["group" := Ref(1)], []),
    Obj(true, map[], [Ref(2)]),
    Obj(false, map["name" := SharedName], []),
    Obj(false, map["group" := Ref(4)], []),
    Obj(true, map[], [Ref(5)]),
    Obj(false, map["name" := SharedName], [])
  ]

  /** The two shapes after `addToShape(shape, shapeToAdd)`. */
  const TwoShapesAdded: Cells := [
    Obj(false, map["group" := Ref(1)], []),
    Obj(true, map[], [Ref(2), Ref(5)]),
    Obj(false, map["name" := SharedName], []),
    Obj(false, map["group" := Ref(4)], []),
    Obj(true, map[], [Ref(5)]),
    Obj(false, map["name" := SharedName, "order" := Num(2)], []),
    FunctionObject
  ]

  lemma TwoShapesReady()
    ensures Closed(TwoShapes) && ShapeReady(TwoShapes, 0, 4) && GroupArray(TwoShapes, 0, 4) == 1
  {
    forall c | 0 <= c < |TwoShapes|
      ensures ObjIn(TwoShapes[c], |TwoShapes|)
    {
    }
  }

  /** `addToShape` as written appends the second "Summary details" group, so
      the shape ends with two groups of the same name, where merging by name
      keeps the shape's groups as they were. */
  lemma AddToShapeDuplicatesNames()
    ensures Closed(TwoShapes) && ShapeReady(TwoShapes, 0, 4)
    ensures var r := GroupsAdded(TwoShapes, 0, 4, [Ref(5)]);
      && r.cells[1].elems == [Ref(2), Ref(5)]
      && !NamesUnique(r.cells, r.cells[1].elems)
    ensures MergeByName(TwoShapes, [Ref(2)], [Ref(5)]) == [Ref(2)]
  {
    TwoShapesReady();
    var h2 := Step(TwoShapes, 0, 4, Ref(5));
    var h1 := TwoShapes + [FunctionObject];
    assert h2 == PushElem(SetProp(h1, 5, "order", Num(2)), 1, Ref(5));
    assert h2 == TwoShapesAdded by {
      forall c | 0 <= c < 7
        ensures h2[c] == TwoShapesAdded[c]
      {
      }
    }
    GroupsAddedUnfold(TwoShapes, 0, 4, [Ref(5)]);
    assert [Ref(5)][1..] == [];
    assert GroupName(TwoShapesAdded, TwoShapesAdded[1].elems[0]) == GroupName(TwoShapesAdded, TwoShapesAdded[1].elems[1]);
    assert HasName(TwoShapes, [Ref(2)], GroupName(TwoShapes, Ref(5))) by {
      assert GroupName(TwoShapes, [Ref(2)][0]) == SharedName;
    }
  }

  /** One iteration of `AddToShape` for an object group keeps the loop's
      invariants: the iterated array is unchanged and the remaining
      iterations give the same outcome. */
  lemma LoopStep(h: Cells, s: nat, b: nat, items: seq<Value>, i: nat)
    requires Closed(h) && ShapeReady(h, s, b) && AllIn(items, |h|)
    requires b < |h| && h[b].elems == items && i < |items| && IsObject(h, items[i])
    ensures var h2 := Step(h, s, b, items[i]);
      && Closed(h2) && ShapeReady(h2, s, b) && AllIn(items, |h2|)
      && h2[b].elems == items
      && GroupsAdded(h2, s, b, items[i + 1..]) == GroupsAdded(h, s, b, items[i..])
  {
    assert items[i..][0] == items[i] && items[i..][1..] == items[i + 1..];
    GroupsAddedUnfold(h, s, b, items[i..]);
  }

  /** `addToShape(shape, shapeToAdd)` for a shape that has a "group" array
      other than `shapeToAdd.group`. The `for ... of` loop reads the length
      and the next element of `shapeToAdd.group` at every step. */
  method AddToShape(heap: Heap, shape: Value, shapeToAdd: Value) returns (threw: bool)
    requires Closed(heap.cells) && IsObject(heap.cells, shapeToAdd)
    requires IsObject(heap.cells, Prop(heap.cells, shapeToAdd, "group"))
    requires heap.cells[Prop(heap.cells, shapeToAdd, "group").addr].isArray
    requires shape.Ref? && ShapeReady(heap.cells, shape.addr, Prop(heap.cells, shapeToAdd, "group").addr)
    modifies heap
    ensures var b := Prop(old(heap.cells), shapeToAdd, "group").addr;
      Run(heap.cells, threw) == GroupsAdded(old(heap.cells), shape.addr, b, old(heap.cells)[b].elems)
  {
    var groups := heap.Get(shapeToAdd, "group");
    ghost var b := groups.addr;
    ghost var items := heap.cells[b].elems;
    ghost var final := GroupsAdded(heap.cells, shape.addr, b, items);
    assert ObjIn(heap.cells[b], |heap.cells|);
    var i := 0;
    while i < |heap.cells[groups.addr].elems|
      invariant 0 <= i <= |items| && b < |heap.cells|
      invariant heap.cells[b].elems == items
      invariant Closed(heap.cells) && ShapeReady(heap.cells, shape.addr, b) && AllIn(items, |heap.cells|)
      invariant GroupsAdded(heap.cells, shape.addr, b, items[i..]) == final
      decreases |items| - i
    {
      var groupToAdd := heap.cells[groups.addr].elems[i];
      assert items[i..][0] == groupToAdd && items[i..][1..] == items[i + 1..];
      if !IsObjectHasAllKeys(heap.cells, shape, ["group"]) {
        // `shape = shapeToAdd`: a shape that has its group array never gets here
        assert false;
      }
      var shapeGroups := heap.Get(shape, "group");
      ghost var before := heap.cells;
      GuardNeverExcludes(before, shape.addr, b);
      var sameGroup := heap.New(FunctionObject);
      if Includes(heap.cells[shapeGroups.addr].elems, sameGroup) {
        assert false;
      }
      if !IsObject(heap.cells, groupToAdd) {
        return true;
      }
      LoopStep(before, shape.addr, b, items, i);
      heap.Set(groupToAdd.addr, "order", Num(|heap.cells[shapeGroups.addr].elems| + 1));
      heap.Push(shapeGroups.addr, groupToAdd);
      assert heap.cells == Step(before, shape.addr, b, groupToAdd);
      i := i + 1;
    }
    threw := false;
  }

  // ---------------------------------------------------------------------------
  // addToShape on a shape without groups
  // ---------------------------------------------------------------------------

  /** Every element of `items` is an object of `h`. */
  predicate AllObjects(h: Cells, items: seq<Value>) {
    forall i :: 0 <= i < |items| ==> IsObject(h, items[i])
  }

  /** `k` iterations from position `i` once `shape = shapeToAdd` has run: the
      guard now finds the array `b` that is being iterated, so each iteration
      pushes the group it visits onto `b` itself. The array grows by one per
      iteration, so the loop's position never reaches its length, and only
      `b` and the groups already in it are written. */
  function Rebound(h: Cells, b: nat, i: nat, k: nat): (r: Cells)
    requires b < |h| && i < |h[b].elems| && AllObjects(h, h[b].elems)
    ensures |r| == |h| + k && |r[b].elems| == |h[b].elems| + k && i + k < |r[b].elems|
    ensures forall c :: 0 <= c < |h| && c != b && Ref(c) !in h[b].elems ==> r[c] == h[c]
    decreases k
  {
    if k == 0 then h
    else
      var g := h[b].elems[i];
      var h1 := PushGroup(h, b, g);
      assert forall v :: v in h1[b].elems ==> v in h[b].elems;
      Rebound(h1, b, i + 1, k - 1)
  }

  /** `getShapesCombined` passes the empty object `{}` (cell 0) as `shape`;
      the shape to add (cell 1) has two groups in array 2. */
  const EmptyAndTwoGroups: Cells := [
    Obj(false, map[], []),
    Obj(false, map["group" := Ref(2)], []),
    Obj(true, map[], [Ref(3), Ref(4)]),
    Obj(false, map["name" := Str("Summary details")], []),
    Obj(false, map["name" := Str("Definition")], [])
  ]

  /** `addToShape({}, shapeToAdd)` as written, with two groups to add: the
      guard fails for `{}`, so the first iteration only rebinds `shape` to
      `shapeToAdd` and writes nothing. After any number `k` of further
      iterations the loop's next position is still below the length of the
      array it iterates, so the loop never ends, and the caller's `{}` is
      never written. */
  lemma AddToEmptyShapeNeverEnds(k: nat)
    ensures !IsObjectHasAllKeys(EmptyAndTwoGroups, Ref(0), ["group"])
    ensures IsObjectHasAllKeys(EmptyAndTwoGroups, Ref(1), ["group"])
      && Prop(EmptyAndTwoGroups, Ref(1), "group") == Ref(2)
    ensures var r := Rebound(EmptyAndTwoGroups, 2, 1, k);
      1 + k < |r[2].elems| && r[0] == EmptyAndTwoGroups[0]
  {
    assert ["group"][0] !in EmptyAndTwoGroups[0].props;
    assert AllObjects(EmptyAndTwoGroups, EmptyAndTwoGroups[2].elems);
    assert Ref(0) !in EmptyAndTwoGroups[2].elems;
  }

  /** The shape, given a new empty "group" array when it has no "group" key. */
  function WithGroupArray(h: Cells, s: nat): (r: Cells)
    requires s < |h|
    ensures IsObjectHasAllKeys(h, Ref(s), ["group"]) ==> r == h
    ensures !IsObjectHasAllKeys(h, Ref(s), ["group"]) ==>
      && |r| == |h| + 1 && r[|h|] == EmptyArray
      && r[s].props == h[s].props["group" := Ref(|h|)]
      && (forall c :: 0 <= c < |h| && c != s ==> r[c] == h[c])
  {
    if IsObjectHasAllKeys(h, Ref(s), ["group"]) then h
    else SetProp(h + [EmptyArray], s, "group", Ref(|h|))
  }

  /** A shape without groups, once given its empty array, is ready for the
      loop over another shape's groups. */
  lemma WithGroupArrayReady(h: Cells, s: nat, b: nat)
    requires Closed(h) && s < |h| && !h[s].isArray && b < |h| && h[b].isArray
    requires IsObjectHasAllKeys(h, Ref(s), ["group"]) ==> ShapeReady(h, s, b)
    ensures var r := WithGroupArray(h, s);
      Closed(r) && ShapeReady(r, s, b) && r[b] == h[b]
  {
    var r := WithGroupArray(h, s);
    if !IsObjectHasAllKeys(h, Ref(s), ["group"]) {
      forall c | 0 <= c < |r|
        ensures ObjIn(r[c], |r|)
      {
        if c < |h| {
          assert ObjIn(h[c], |h|);
        }
      }
    }
  }

  /** `addToShape` as evidently intended for the `{}` that `getShapesCombined`
      starts from: a shape without groups is first given an empty group
      array, and the loop then appends the groups of `shapeToAdd` to it. */
  method AddToShapeOrStart(heap: Heap, shape: Value, shapeToAdd: Value) returns (threw: bool)
    requires Closed(heap.cells) && IsObject(heap.cells, shapeToAdd)
    requires IsObject(heap.cells, Prop(heap.cells, shapeToAdd, "group"))
    requires heap.cells[Prop(heap.cells, shapeToAdd, "group").addr].isArray
    requires IsObject(heap.cells, shape) && !heap.cells[shape.addr].isArray
    requires IsObjectHasAllKeys(heap.cells, shape, ["group"]) ==>
      ShapeReady(heap.cells, shape.addr, Prop(heap.cells, shapeToAdd, "group").addr)
    modifies heap
    ensures var b := Prop(old(heap.cells), shapeToAdd, "group").addr;
      Run(heap.cells, threw) == GroupsAdded(WithGroupArray(old(heap.cells), shape.addr), shape.addr, b, old(heap.cells)[b].elems)
  {
    ghost var h := heap.cells;
    ghost var b := Prop(h, shapeToAdd, "group").addr;
    if !IsObjectHasAllKeys(heap.cells, shape, ["group"]) {
      var groups := heap.New(EmptyArray);
      heap.Set(shape.addr, "group", groups);
      assert shapeToAdd.addr != shape.addr;
    }
    WithGroupArrayReady(h, shape.addr, b);
    assert heap.cells == WithGroupArray(h, shape.addr);
    threw := AddToShape(heap, shape, shapeToAdd);
  }

  /** A shape without groups, once given its empty array, is ready to take
      the groups of the array at `b`. */
  lemma StartedShapeReady(h: Cells, s: nat, b: nat)
    requires Closed(h) && s < |h| && !h[s].isArray && b < |h| && h[b].isArray
    requires !IsObjectHasAllKeys(h, Ref(s), ["group"])
    ensures var h1 := WithGroupArray(h, s);
      && Closed(h1) && ShapeReady(h1, s, b) && AllIn(h[b].elems, |h1|)
      && Prop(h1, Ref(s), "group") == Ref(|h|) && GroupArray(h1, s, b) == |h| && h1[|h|].elems == []
  {
    var h1 := WithGroupArray(h, s);
    WithGroupArrayReady(h, s, b);
    assert ObjIn(h[b], |h|);
    forall i | 0 <= i < |h[b].elems|
      ensures ValueIn(h[b].elems[i], |h1|)
    {
      assert ValueIn(h[b].elems[i], |h|);
    }
  }

  /** Groups added to an empty group array: when every group is an object
      the loop ends without throwing, the array holds exactly the groups in
      order, each group's `order` is its one-based position (at its last
      occurrence), and the shape still refers to the array. */
  lemma EmptyGroupsTakeAll(h: Cells, s: nat, b: nat, items: seq<Value>)
    requires Closed(h) && ShapeReady(h, s, b) && AllIn(items, |h|) && h[GroupArray(h, s, b)].elems == []
    requires forall i :: 0 <= i < |items| ==> items[i].Ref?
    ensures var r := GroupsAdded(h, s, b, items); var a := GroupArray(h, s, b);
      && !r.threw
      && r.cells[a].elems == items
      && (Ref(s) !in items ==> Prop(r.cells, Ref(s), "group") == Ref(a))
      && forall k :: 0 <= k < |items| && LastOccurrence(items, k) ==> Prop(r.cells, items[k], "order") == Num(k + 1)
  {
    var r := GroupsAdded(h, s, b, items);
    GroupsAddedOrders(h, s, b, items);
    assert |h[GroupArray(h, s, b)].elems| == 0;
    forall k | 0 <= k < |items| && LastOccurrence(items, k)
      ensures Prop(r.cells, items[k], "order") == Num(k + 1)
    {
    }
    GroupsAddedAppends(h, s, b, items);
    GroupsAddedKeepsKeys(h, s, b, items);
  }

  /** A shape without groups takes all of another shape's groups, in a new
      array of its own. */
  lemma StartedShapeTakesGroups(h: Cells, s: nat, b: nat)
    requires Closed(h) && s < |h| && !h[s].isArray && b < |h| && h[b].isArray
    requires !IsObjectHasAllKeys(h, Ref(s), ["group"])
    requires forall i :: 0 <= i < |h[b].elems| ==> h[b].elems[i].Ref?
    ensures var h1 := WithGroupArray(h, s); var items := h[b].elems;
      && Closed(h1) && ShapeReady(h1, s, b) && AllIn(items, |h1|)
      && var r := GroupsAdded(h1, s, b, items);
      && !r.threw
      && r.cells[|h|].elems == items
      && (Ref(s) !in items ==> Prop(r.cells, Ref(s), "group") == Ref(|h|))
      && forall k :: 0 <= k < |items| && LastOccurrence(items, k) ==> Prop(r.cells, items[k], "order") == Num(k + 1)
  {
    StartedShapeReady(h, s, b);
    EmptyGroupsTakeAll(WithGroupArray(h, s), s, b, h[b].elems);
  }
}
