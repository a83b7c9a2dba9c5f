/** The query builder of the editor: a depth-first walk over a `TreeItem` tree
    that writes clauses into one shared query object.

    The visit of a node adds a clause keyed by its PARENT's name to the current
    target; the node's children are then visited with `target[parent.name]` as
    their target. A parent called "property" or "match" collects its children
    in an array; any other parent name receives a leaf child's value, or an
    object for a child that has children of its own.

    Each operation is stated twice: as a function on the heap cells (the
    specification, used by the lemmas) and as a method that updates a
    `Js.Heap` step by step as the source does, proved to end in the state the
    function describes. A parent that is null or has no name (or the empty
    name, which JavaScript treats as false) is passed as the empty string. */
module QueryBuilder {
  import opened Js
  import opened Wrappers

  /** `TreeItem`: `children` absent and `children` empty behave the same everywhere. */
  datatype TreeItem = TreeItem(key: int, name: Option<string>, value: Value, children: seq<TreeItem>)

  /** What the builder's outcome is: the query object, or the TypeError that
      strict-mode JavaScript raises when a clause is written to a non-object. */
  datatype Completion = Returned(query: Value) | TypeError

  const QueryName := "A new query"
  const QueryDescription := "A new query built from the query-builder"

  /** The object the builder starts from: `{name, description}`. */
  const InitialQuery := Obj(false, map["name" := Str(QueryName), "description" := Str(QueryDescription)], [])

  function NameOf(t: TreeItem): string {
    match t.name
    case Some(n) => n
    case None => ""
  }

  /** The truth value of a name in `if (parent.name)`. */
  predicate Named(n: string) {
    n != ""
  }

  /** `!treeItem.children?.length` */
  predicate IsLeaf(t: TreeItem) {
    |t.children| == 0
  }

  predicate IsPropertyOrMatch(n: string) {
    n == "property" || n == "match"
  }

  /** The heap `h'` differs from `h` only in key `k` of the object at `a`, plus new cells. */
  predicate OnlyKeyChanged(h: Cells, h': Cells, a: nat, k: string)
    requires a < |h| <= |h'|
  {
    && (forall b :: 0 <= b < |h| && b != a ==> h'[b] == h[b])
    && h'[a].isArray == h[a].isArray
    && h'[a].elems == h[a].elems
    && h'[a].props - {k} == h[a].props - {k}
  }

  // ---------------------------------------------------------------------------
  // Specification functions
  // ---------------------------------------------------------------------------

  /** The elements `query[p]` holds before a property/match clause is added:
      its elements if it is a non-empty array, and none otherwise (the old
      value is then replaced by a new array). */
  function KeptElements(h: Cells, a: nat, p: string): seq<Value>
    requires a < |h|
  {
    var cur := Prop(h, Ref(a), p);
    if IsArrayHasLength(h, cur) then h[cur.addr].elems else []
  }

  /** `addPropertyMatchClause`: make sure `query[p]` is a non-empty array or a new
      `[]`, then push the child's value (a leaf) or a new `{}` (a non-leaf). */
  function PropertyMatchClauseAdded(h: Cells, a: nat, item: TreeItem, p: string): (r: Cells)
    requires a < |h|
    ensures Grows(h, r)
    ensures IsArrayHasLength(h, Prop(h, Ref(a), p)) ==> Prop(r, Ref(a), p) == Prop(h, Ref(a), p)
    ensures !IsArrayHasLength(h, Prop(h, Ref(a), p)) ==> Prop(r, Ref(a), p) == Ref(|h|)
    ensures IsObject(r, Prop(r, Ref(a), p)) && r[Prop(r, Ref(a), p).addr].isArray
    ensures var arr := r[Prop(r, Ref(a), p).addr].elems;
            var kept := KeptElements(h, a, p);
            && |arr| == |kept| + 1 && arr[..|kept|] == kept
            && (IsLeaf(item) ==> arr[|kept|] == item.value)
            && (!IsLeaf(item) ==>
                  arr[|kept|].Ref? && |h| <= arr[|kept|].addr < |r| && r[arr[|kept|].addr] == EmptyObject)
    ensures forall b :: 0 <= b < |h| && b != a && b != Prop(r, Ref(a), p).addr ==> r[b] == h[b]
    ensures r[a].props - {p} == h[a].props - {p}
  {
    var h1 := if IsArrayHasLength(h, Prop(h, Ref(a), p)) then h
              else SetProp(h + [EmptyArray], a, p, Ref(|h|));
    var arr := Prop(h1, Ref(a), p);
    assert IsObject(h1, arr) && h1[arr.addr].isArray;
    if IsLeaf(item) then PushElem(h1, arr.addr, item.value)
    else PushElem(h1 + [EmptyObject], arr.addr, Ref(|h1|))
  }

  /** `addClause`, including the TypeError raised when the target is not an object. */
  function ClauseAdded(h: Cells, t: Value, item: TreeItem, p: string): (r: Run)
    ensures Grows(h, r.cells)
    ensures r.threw <==> !IsObject(h, t)
    ensures r.threw ==> r.cells == h
    ensures IsObject(h, t) && !IsPropertyOrMatch(p) && IsLeaf(item) ==>
              Prop(r.cells, t, p) == item.value && |r.cells| == |h| && OnlyKeyChanged(h, r.cells, t.addr, p)
    ensures IsObject(h, t) && !IsPropertyOrMatch(p) && !IsLeaf(item) && IsObjectHasKeys(h, Prop(h, t, p)) ==>
              r.cells == h
    ensures IsObject(h, t) && !IsPropertyOrMatch(p) && !IsLeaf(item) && !IsObjectHasKeys(h, Prop(h, t, p)) ==>
              Prop(r.cells, t, p) == Ref(|h|) && |r.cells| == |h| + 1 && r.cells[|h|] == EmptyObject
              && OnlyKeyChanged(h, r.cells, t.addr, p)
  {
    if !IsObject(h, t) then Run(h, true)
    else if IsPropertyOrMatch(p) then Run(PropertyMatchClauseAdded(h, t.addr, item, p), false)
    else if IsLeaf(item) then Run(SetProp(h, t.addr, p, item.value), false)
    else if !IsObjectHasKeys(h, Prop(h, t, p)) then Run(SetProp(h + [EmptyObject], t.addr, p, Ref(|h|)), false)
    else Run(h, false)
  }

  /** The target the children of a node are visited with: `query[parent.name]`
      when the parent is named, otherwise `query` itself. */
  function ChildTarget(h: Cells, t: Value, p: string): Value {
    if Named(p) then Prop(h, t, p) else t
  }

  /** `recurseBuildQuery(t, item, parent)` where `p` is the parent's name. */
  function Visited(h: Cells, t: Value, item: TreeItem, p: string): (r: Run)
    ensures Grows(h, r.cells)
    decreases item, 1, 0
  {
    var r0 := if Named(p) then ClauseAdded(h, t, item, p) else Run(h, false);
    if r0.threw then r0
    else
      var r := KidsVisited(r0.cells, t, item, p, |item.children|);
      GrowsTrans(h, r0.cells, r.cells);
      r
  }

  /** The first `n` iterations of the `forEach` over `node.children`, where
      `t` and `p` are the target and parent name `node` was visited with. The
      child target is read again before every child. */
  function KidsVisited(h: Cells, t: Value, node: TreeItem, p: string, n: nat): (r: Run)
    requires n <= |node.children|
    ensures Grows(h, r.cells)
    decreases node, 0, n
  {
    if n == 0 then Run(h, false)
    else
      var r0 := KidsVisited(h, t, node, p, n - 1);
      if r0.threw then r0
      else
        var r := Visited(r0.cells, ChildTarget(r0.cells, t, p), node.children[n - 1], NameOf(node));
        GrowsTrans(h, r0.cells, r.cells);
        r
  }

  /** `buildQueryFromTreeItem`: the query object is allocated at address `|h|`. */
  function QueryBuilt(h: Cells, tree: TreeItem): Run {
    Visited(h + [InitialQuery], Ref(|h|), tree, "")
  }

  /** `isProperty`: the value is an object whose only key is "name", and the item has children. */
  function IsProperty(h: Cells, item: TreeItem): (r: bool)
    ensures r <==> && IsObject(h, item.value) && !h[item.value.addr].isArray
                   && h[item.value.addr].props.Keys == {"name"} && |item.children| > 0
  {
    if !IsObjectHasKeys(h, item.value) then false
    else
      var keys := h[item.value.addr].props.Keys;
      SingletonKeys(keys, "name");
      |keys| == 1 && "name" in keys && |item.children| > 0
  }

  lemma SingletonKeys(keys: set<string>, k: string)
    ensures |keys| == 1 && k in keys <==> keys == {k}
  {
    if |keys| == 1 && k in keys {
      assert |keys - {k}| == 0;
    }
  }

  /** Once a visit has thrown, the remaining children are not visited. */
  lemma {:induction false} KidsStopAfterThrow(h: Cells, t: Value, node: TreeItem, p: string, n: nat, m: nat)
    requires n <= m <= |node.children|
    requires KidsVisited(h, t, node, p, n).threw
    ensures KidsVisited(h, t, node, p, m) == KidsVisited(h, t, node, p, n)
    decreases m
  {
    if m > n {
      KidsStopAfterThrow(h, t, node, p, n, m - 1);
    }
  }

  // ---------------------------------------------------------------------------
  // The builder as the source runs it: in place, on one shared heap
  // ---------------------------------------------------------------------------

  method BuildQueryFromTreeItem(heap: Heap, treeItem: TreeItem) returns (result: Completion)
    modifies heap
    ensures heap.cells == QueryBuilt(old(heap.cells), treeItem).cells
    ensures result == if QueryBuilt(old(heap.cells), treeItem).threw then TypeError
                      else Returned(Ref(|old(heap.cells)|))
  {
    var query := heap.New(InitialQuery);
    var threw := RecurseBuildQuery(heap, query, treeItem, "");
    result := if threw then TypeError else Returned(query);
  }

  method RecurseBuildQuery(heap: Heap, query: Value, treeItem: TreeItem, parentName: string) returns (threw: bool)
    modifies heap
    ensures Run(heap.cells, threw) == Visited(old(heap.cells), query, treeItem, parentName)
    decreases treeItem
  {
    threw := false;
    if Named(parentName) {
      threw := AddClause(heap, query, treeItem, parentName);
      if threw {
        return;
      }
    }
    ghost var h1 := heap.cells;
    assert Visited(old(heap.cells), query, treeItem, parentName)
        == KidsVisited(h1, query, treeItem, parentName, |treeItem.children|);
    if |treeItem.children| > 0 {
      var i := 0;
      while i < |treeItem.children|
        invariant 0 <= i <= |treeItem.children|
        invariant Run(heap.cells, false) == KidsVisited(h1, query, treeItem, parentName, i)
      {
        var target := query;
        if Named(parentName) {
          target := heap.Get(query, parentName);
        }
        assert target == ChildTarget(heap.cells, query, parentName);
        threw := RecurseBuildQuery(heap, target, treeItem.children[i], NameOf(treeItem));
        if threw {
          KidsStopAfterThrow(h1, query, treeItem, parentName, i + 1, |treeItem.children|);
          return;
        }
        i := i + 1;
      }
    }
  }

  method AddClause(heap: Heap, query: Value, treeItem: TreeItem, parentName: string) returns (threw: bool)
    modifies heap
    ensures Run(heap.cells, threw) == ClauseAdded(old(heap.cells), query, treeItem, parentName)
  {
    if !IsObject(heap.cells, query) {
      // writing a property of undefined, null or a primitive throws before any visible change
      return true;
    }
    threw := false;
    if parentName == "property" || parentName == "match" {
      AddPropertyMatchClause(heap, query, treeItem, parentName);
    } else if IsLeaf(treeItem) {
      heap.Set(query.addr, parentName, treeItem.value);
    } else {
      var current := heap.Get(query, parentName);
      if !IsObjectHasKeys(heap.cells, current) {
        var obj := heap.New(EmptyObject);
        heap.Set(query.addr, parentName, obj);
      }
    }
  }

  method AddPropertyMatchClause(heap: Heap, query: Value, treeItem: TreeItem, parentName: string)
    requires IsObject(heap.cells, query)
    modifies heap
    ensures heap.cells == PropertyMatchClauseAdded(old(heap.cells), query.addr, treeItem, parentName)
  {
    var current := heap.Get(query, parentName);
    if !IsArrayHasLength(heap.cells, current) {
      var arr := heap.New(EmptyArray);
      heap.Set(query.addr, parentName, arr);
    }
    var target := heap.Get(query, parentName);
    if IsLeaf(treeItem) {
      heap.Push(target.addr, treeItem.value);
    } else {
      var obj := heap.New(EmptyObject);
      heap.Push(target.addr, obj);
    }
  }
}
