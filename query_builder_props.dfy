/** Properties of the query builder.

    A leaf's value reaches the query in one of two ways: under "property" or
    "match" it is pushed as an array element, which the builder never reads
    back as a target; under any other named parent it is stored under a key,
    where a later non-leaf sibling can descend into it. When a value that is
    an object only ever takes the first way (`ObjectsPushed`), every reference
    the builder stores under a named key of one of its own cells points to a
    cell created after the cell holding it. Every target is then created after
    the target it was reached from, so a visit never writes below its own
    target. The per-parent promises follow from that: children of
    "property"/"match" append one element each, in order; under any other
    parent the last leaf child's value is what remains. */
module QueryBuilderProps {
  import opened Js
  import opened QueryBuilder
  import opened QueryBuilderFrames

  /** Named keys point within the heap, and those of the cells from `base`
      on point forward: never below `base`, never back to themselves. */
  predicate Forward(h: Cells, base: nat) {
    forall b, k :: 0 <= b < |h| && k in h[b].props && h[b].props[k].Ref? ==>
      h[b].props[k].addr < |h| && (base <= b ==> b < h[b].props[k].addr)
  }

  /** Visited under a parent named `p`, no leaf of the tree stores an object
      under a named key: a leaf whose value is an object sits under "property"
      or "match" (or under an unnamed parent, which writes nothing). */
  predicate ObjectsPushed(item: TreeItem, p: string) {
    && (Named(p) && !IsPropertyOrMatch(p) && IsLeaf(item) ==> !item.value.Ref?)
    && forall i :: 0 <= i < |item.children| ==> ObjectsPushed(item.children[i], NameOf(item))
  }

  /** The children of `node` satisfy `ObjectsPushed` and refer only to cells
      below `base`, the objects of the caller. */
  predicate KidsIn(node: TreeItem, base: nat) {
    forall i :: 0 <= i < |node.children| ==>
      ObjectsPushed(node.children[i], NameOf(node)) && TreeIn(node.children[i], base)
  }

  lemma SetPropForward(h: Cells, a: nat, k: string, v: Value, base: nat)
    requires a < |h| && Forward(h, base)
    requires v.Ref? ==> v.addr < |h| && (base <= a ==> a < v.addr)
    ensures Forward(SetProp(h, a, k, v), base)
  {
    var r := SetProp(h, a, k, v);
    forall b, k' | 0 <= b < |r| && k' in r[b].props && r[b].props[k'].Ref?
      ensures r[b].props[k'].addr < |r| && (base <= b ==> b < r[b].props[k'].addr)
    {
      if b != a {
        assert r[b] == h[b];
      }
    }
  }

  lemma PushForward(h: Cells, a: nat, v: Value, base: nat)
    requires a < |h| && Forward(h, base)
    ensures Forward(PushElem(h, a, v), base)
  {
    var r := PushElem(h, a, v);
    forall b, k | 0 <= b < |r| && k in r[b].props && r[b].props[k].Ref?
      ensures r[b].props[k].addr < |r| && (base <= b ==> b < r[b].props[k].addr)
    {
      assert r[b].props == h[b].props;
    }
  }

  lemma NewForward(h: Cells, o: Obj, base: nat)
    requires Forward(h, base) && o.props == map[]
    ensures Forward(h + [o], base)
  {
    var r := h + [o];
    forall b, k | 0 <= b < |r| && k in r[b].props && r[b].props[k].Ref?
      ensures r[b].props[k].addr < |r| && (base <= b ==> b < r[b].props[k].addr)
    {
      assert r[b] == h[b];
    }
  }

  /** One clause written under a target from `base` on keeps the heap forward,
      writes nothing below the target and leaves an object under `t[p]`
      whenever children will be visited there. */
  lemma ClauseForward(h: Cells, t: Value, item: TreeItem, p: string, base: nat)
    requires Forward(h, base) && IsObject(h, t) && base <= t.addr
    requires !IsPropertyOrMatch(p) && IsLeaf(item) ==> !item.value.Ref?
    ensures var r := ClauseAdded(h, t, item, p);
      && !r.threw && Forward(r.cells, base)
      && (forall b :: 0 <= b < t.addr ==> r.cells[b] == h[b])
      && r.cells[t.addr].elems == h[t.addr].elems
      && (IsPropertyOrMatch(p) || !IsLeaf(item) ==> IsObject(r.cells, Prop(r.cells, t, p)))
  {
    var a := t.addr;
    if IsPropertyOrMatch(p) {
      PropertyMatchForward(h, a, item, p, base);
    } else if IsLeaf(item) {
      SetPropForward(h, a, p, item.value, base);
    } else if !IsObjectHasKeys(h, Prop(h, t, p)) {
      NewForward(h, EmptyObject, base);
      SetPropForward(h + [EmptyObject], a, p, Ref(|h|), base);
    }
  }

  lemma PropertyMatchForward(h: Cells, a: nat, item: TreeItem, p: string, base: nat)
    requires Forward(h, base) && a < |h| && base <= a
    ensures var r := PropertyMatchClauseAdded(h, a, item, p);
      && Forward(r, base)
      && (forall b :: 0 <= b < a ==> r[b] == h[b])
      && r[a].elems == h[a].elems
  {
    var cur := Prop(h, Ref(a), p);
    var h1 := if IsArrayHasLength(h, cur) then h else SetProp(h + [EmptyArray], a, p, Ref(|h|));
    if !IsArrayHasLength(h, cur) {
      NewForward(h, EmptyArray, base);
      SetPropForward(h + [EmptyArray], a, p, Ref(|h|), base);
    }
    var arr := Prop(h1, Ref(a), p);
    assert a < arr.addr;
    if IsLeaf(item) {
      PushForward(h1, arr.addr, item.value, base);
    } else {
      NewForward(h1, EmptyObject, base);
      PushForward(h1 + [EmptyObject], arr.addr, Ref(|h1|), base);
    }
  }

  /** A visit from target `t` writes no cell below `t`, keeps `t`'s elements,
      and leaves `t` exactly as its own clause left it. */
  lemma {:induction false} VisitForward(h: Cells, t: Value, item: TreeItem, p: string, base: nat)
    requires Forward(h, base) && IsObject(h, t) && base <= t.addr && ObjectsPushed(item, p)
    ensures var r := Visited(h, t, item, p);
      && !r.threw && Forward(r.cells, base)
      && (forall b :: 0 <= b < t.addr ==> r.cells[b] == h[b])
      && r.cells[t.addr].elems == h[t.addr].elems
      && (Named(p) ==> r.cells[t.addr] == ClauseAdded(h, t, item, p).cells[t.addr])
    decreases item, 1, 0
  {
    if Named(p) {
      ClauseForward(h, t, item, p, base);
      var h1 := ClauseAdded(h, t, item, p).cells;
      if !IsLeaf(item) {
        var c := Prop(h1, t, p);
        assert t.addr < c.addr;
        KidsForward(h1, t, item, p, |item.children|, base);
      }
    } else {
      KidsForward(h, t, item, p, |item.children|, base);
    }
  }

  /** The children loop writes nothing below the children's target `c`, keeps
      `c`'s elements, and every child is visited with that same target. */
  lemma {:induction false} KidsForward(h: Cells, t: Value, node: TreeItem, p: string, n: nat, base: nat)
    requires n <= |node.children| && Forward(h, base)
    requires forall i :: 0 <= i < |node.children| ==> ObjectsPushed(node.children[i], NameOf(node))
    requires IsObject(h, ChildTarget(h, t, p)) && base <= ChildTarget(h, t, p).addr
    requires Named(p) ==> IsObject(h, t) && t.addr < ChildTarget(h, t, p).addr
    ensures var r := KidsVisited(h, t, node, p, n); var c := ChildTarget(h, t, p);
      && !r.threw && Forward(r.cells, base)
      && (forall b :: 0 <= b < c.addr ==> r.cells[b] == h[b])
      && r.cells[c.addr].elems == h[c.addr].elems
      && ChildTarget(r.cells, t, p) == c
    decreases node, 0, n
  {
    if n > 0 {
      KidsForward(h, t, node, p, n - 1, base);
      var h1 := KidsVisited(h, t, node, p, n - 1).cells;
      var c := ChildTarget(h, t, p);
      VisitForward(h1, c, node.children[n - 1], NameOf(node), base);
      var r := KidsVisited(h, t, node, p, n).cells;
      if Named(p) {
        assert r[t.addr] == h[t.addr];
      }
    }
  }

  /** When objects are only pushed, the builder never throws and writes no cell that
      existed before it ran: the objects of the caller are left as they were. */
  lemma BuildLeavesHeap(h: Cells, tree: TreeItem)
    requires Closed(h) && ObjectsPushed(tree, "")
    ensures !QueryBuilt(h, tree).threw
    ensures QueryBuilt(h, tree).cells[..|h|] == h
  {
    var h0 := h + [InitialQuery];
    assert Forward(h0, |h|) by {
      forall b, k | 0 <= b < |h0| && k in h0[b].props && h0[b].props[k].Ref?
        ensures h0[b].props[k].addr < |h0| && (|h| <= b ==> b < h0[b].props[k].addr)
      {
        if b < |h| {
          assert ObjIn(h[b], |h|);
        }
      }
    }
    VisitForward(h0, Ref(|h|), tree, "", |h|);
    var r := QueryBuilt(h, tree).cells;
    assert forall b :: 0 <= b < |h| ==> r[b] == h0[b];
  }

  /** The element a child of "property"/"match" appends: its value when it is
      a leaf, otherwise a reference to an empty object created by the visit. */
  predicate AppendedFor(h: Cells, r: Cells, kid: TreeItem, v: Value) {
    if IsLeaf(kid) then v == kid.value
    else v.Ref? && |h| <= v.addr < |r| && r[v.addr] == EmptyObject && NotTargetable(r, v.addr)
  }

  /** Under a parent named "property" or "match", each of the first `n`
      children appends exactly one element to `target[parent.name]`, in child
      order, after the elements a non-empty array there already had; the `{}`
      appended for a non-leaf child is never filled. */
  lemma {:induction false} KidsAppendInOrder(h: Cells, t: Value, node: TreeItem, p: string, n: nat, base: nat)
    requires 0 < n <= |node.children| && Forward(h, base) && IsPropertyOrMatch(NameOf(node))
    requires KidsIn(node, base)
    requires IsObject(h, ChildTarget(h, t, p)) && base <= ChildTarget(h, t, p).addr
    requires Named(p) ==> IsObject(h, t) && t.addr < ChildTarget(h, t, p).addr
    ensures AppendedAll(h, KidsVisited(h, t, node, p, n).cells, ChildTarget(h, t, p), NameOf(node),
                        node.children[..n], KeptElements(h, ChildTarget(h, t, p).addr, NameOf(node)))
    decreases n
  {
    if n == 1 {
      KidsAppendFirst(h, t, node, p, base);
    } else {
      KidsAppendInOrder(h, t, node, p, n - 1, base);
      KidsAppendNext(h, t, node, p, n, base);
    }
  }

  lemma KidsAppendFirst(h: Cells, t: Value, node: TreeItem, p: string, base: nat)
    requires 0 < |node.children| && Forward(h, base) && IsPropertyOrMatch(NameOf(node))
    requires KidsIn(node, base)
    requires IsObject(h, ChildTarget(h, t, p)) && base <= ChildTarget(h, t, p).addr
    requires Named(p) ==> IsObject(h, t) && t.addr < ChildTarget(h, t, p).addr
    ensures AppendedAll(h, KidsVisited(h, t, node, p, 1).cells, ChildTarget(h, t, p), NameOf(node),
                        node.children[..1], KeptElements(h, ChildTarget(h, t, p).addr, NameOf(node)))
  {
    KidsLast(h, t, node, p, 1, base);
    AppendFirst(h, ChildTarget(h, t, p), node.children[0], NameOf(node), base);
    assert node.children[..1] == [node.children[0]];
  }

  lemma KidsAppendNext(h: Cells, t: Value, node: TreeItem, p: string, n: nat, base: nat)
    requires 1 < n <= |node.children| && Forward(h, base) && IsPropertyOrMatch(NameOf(node))
    requires KidsIn(node, base)
    requires IsObject(h, ChildTarget(h, t, p)) && base <= ChildTarget(h, t, p).addr
    requires Named(p) ==> IsObject(h, t) && t.addr < ChildTarget(h, t, p).addr
    requires AppendedAll(h, KidsVisited(h, t, node, p, n - 1).cells, ChildTarget(h, t, p), NameOf(node),
                         node.children[..n - 1], KeptElements(h, ChildTarget(h, t, p).addr, NameOf(node)))
    ensures AppendedAll(h, KidsVisited(h, t, node, p, n).cells, ChildTarget(h, t, p), NameOf(node),
                        node.children[..n], KeptElements(h, ChildTarget(h, t, p).addr, NameOf(node)))
  {
    var c := ChildTarget(h, t, p);
    KidsLast(h, t, node, p, n, base);
    TakeLast(node.children, n);
    AppendStep(h, KidsVisited(h, t, node, p, n - 1).cells, c, node.children[..n - 1], node.children[n - 1],
               NameOf(node), KeptElements(h, c.addr, NameOf(node)), base);
  }

  /** The last of `n` iterations of the children loop, when none has thrown
      and the target read before each child stays the same. */
  lemma KidsLast(h: Cells, t: Value, node: TreeItem, p: string, n: nat, base: nat)
    requires 0 < n <= |node.children| && Forward(h, base)
    requires forall i :: 0 <= i < |node.children| ==> ObjectsPushed(node.children[i], NameOf(node))
    requires IsObject(h, ChildTarget(h, t, p)) && base <= ChildTarget(h, t, p).addr
    requires Named(p) ==> IsObject(h, t) && t.addr < ChildTarget(h, t, p).addr
    ensures var h1 := KidsVisited(h, t, node, p, n - 1).cells;
      && KidsVisited(h, t, node, p, n).cells == Visited(h1, ChildTarget(h, t, p), node.children[n - 1], NameOf(node)).cells
      && Forward(h1, base) && |h| <= |h1| && IsObject(h1, ChildTarget(h, t, p))
      && (n == 1 ==> h1 == h)
  {
    KidsForward(h, t, node, p, n - 1, base);
  }

  lemma TakeLast<T>(s: seq<T>, n: nat)
    requires 0 < n <= |s|
    ensures s[..n - 1] + [s[n - 1]] == s[..n]
  {
  }

  /** The elements of `target[name]` in `h1` are `kept` followed by one
      element for each of `kids`. */
  predicate AppendedAll(h: Cells, h1: Cells, c: Value, name: string, kids: seq<TreeItem>, kept: seq<Value>) {
    var arr := Prop(h1, c, name);
    && IsObject(h1, arr) && h1[arr.addr].isArray
    && |h1[arr.addr].elems| == |kept| + |kids|
    && h1[arr.addr].elems[..|kept|] == kept
    && forall i :: 0 <= i < |kids| ==> AppendedFor(h, h1, kids[i], h1[arr.addr].elems[|kept| + i])
  }

  lemma AppendFirst(h: Cells, c: Value, kid: TreeItem, name: string, base: nat)
    requires Forward(h, base) && IsObject(h, c) && base <= c.addr && IsPropertyOrMatch(name)
    requires ObjectsPushed(kid, name) && TreeIn(kid, base)
    ensures AppendedAll(h, Visited(h, c, kid, name).cells, c, name, [kid], KeptElements(h, c.addr, name))
  {
    VisitAppendsOne(h, c, kid, name, base);
  }

  /** A `{}` no named key refers to stays empty through a later visit whose
      values are objects created before it. */
  lemma EmptyStaysEmpty(h: Cells, c: Value, kid: TreeItem, name: string, e: nat, base: nat)
    requires e < |h| && h[e] == EmptyObject && NotTargetable(h, e) && TreeIn(kid, base) && base <= e
    requires IsObject(h, c) && name in h[c.addr].props
    ensures Visited(h, c, kid, name).cells[e] == EmptyObject
    ensures NotTargetable(Visited(h, c, kid, name).cells, e)
  {
    TreeInMono(kid, base, e);
    VisitLeavesCell(h, c, kid, name, e);
  }

  /** One more child of "property"/"match" extends what the earlier ones appended. */
  lemma {:induction false} AppendStep(h: Cells, h1: Cells, c: Value, kids: seq<TreeItem>, kid: TreeItem, name: string, kept: seq<Value>, base: nat)
    requires |h| <= |h1| && Forward(h1, base) && IsObject(h1, c) && base <= c.addr
    requires base <= |h| && ObjectsPushed(kid, name) && TreeIn(kid, base) && IsPropertyOrMatch(name) && |kids| > 0
    requires AppendedAll(h, h1, c, name, kids, kept)
    ensures AppendedAll(h, Visited(h1, c, kid, name).cells, c, name, kids + [kid], kept)
  {
    var r := Visited(h1, c, kid, name).cells;
    var arr := Prop(h1, c, name);
    assert IsArrayHasLength(h1, arr);
    VisitAppendsOne(h1, c, kid, name, base);
    assert Prop(r, c, name) == arr;
    var old1 := h1[arr.addr].elems;
    assert KeptElements(h1, c.addr, name) == old1;
    var all := kids + [kid];
    forall i | 0 <= i < |all|
      ensures AppendedFor(h, r, all[i], r[arr.addr].elems[|kept| + i])
    {
      if i < |kids| {
        assert r[arr.addr].elems[|kept| + i] == old1[|kept| + i];
        if !IsLeaf(kids[i]) {
          EmptyStaysEmpty(h1, c, kid, name, old1[|kept| + i].addr, base);
        }
      }
    }
    assert r[arr.addr].elems[..|kept|] == old1[..|kept|];
  }

  /** One child of "property"/"match" makes `target[name]` a non-empty array,
      keeping it when it already was one, and appends exactly one element. */
  lemma VisitAppendsOne(h: Cells, c: Value, kid: TreeItem, name: string, base: nat)
    requires Forward(h, base) && IsObject(h, c) && base <= c.addr && IsPropertyOrMatch(name)
    requires ObjectsPushed(kid, name) && TreeIn(kid, base)
    ensures var r := Visited(h, c, kid, name).cells;
      var arr := Prop(r, c, name);
      var kept := KeptElements(h, c.addr, name);
      && (IsArrayHasLength(h, Prop(h, c, name)) ==> arr == Prop(h, c, name))
      && IsObject(r, arr) && r[arr.addr].isArray
      && |r[arr.addr].elems| == |kept| + 1
      && r[arr.addr].elems[..|kept|] == kept
      && AppendedFor(h, r, kid, r[arr.addr].elems[|kept|])
  {
    var h2 := ClauseAdded(h, c, kid, name).cells;
    var r := Visited(h, c, kid, name).cells;
    ClauseForward(h, c, kid, name, base);
    VisitForward(h, c, kid, name, base);
    assert r[c.addr] == h2[c.addr];
    var arr := Prop(r, c, name);
    assert arr == Prop(h2, c, name);
    if !IsLeaf(kid) {
      // the kid's own children are visited with `arr` as target and keep its elements
      KidsForward(h2, c, kid, name, |kid.children|, base);
      var e := h2[arr.addr].elems[|KeptElements(h, c.addr, name)|].addr;
      ClauseTargetsFresh(h, c.addr, kid, name, base);
      TreeInMono(kid, base, e);
      KidsLeaveCell(h2, c, kid, name, |kid.children|, e);
    }
    assert r[arr.addr].elems == h2[arr.addr].elems;
  }

  /** The `{}` a non-leaf child of "property"/"match" pushes is referenced by
      no named key right after the push. */
  lemma ClauseTargetsFresh(h: Cells, a: nat, item: TreeItem, p: string, base: nat)
    requires a < |h| && Forward(h, base) && IsPropertyOrMatch(p) && !IsLeaf(item)
    ensures var r := ClauseAdded(h, Ref(a), item, p).cells;
      var e := r[Prop(r, Ref(a), p).addr].elems[|KeptElements(h, a, p)|].addr;
      NotTargetable(r, e)
  {
    var r := ClauseAdded(h, Ref(a), item, p).cells;
    var cur := Prop(h, Ref(a), p);
    var h1 := if IsArrayHasLength(h, cur) then h else SetProp(h + [EmptyArray], a, p, Ref(|h|));
    var e := |h1|;
    assert r == PushElem(h1 + [EmptyObject], Prop(h1, Ref(a), p).addr, Ref(e));
    forall b, k | 0 <= b < |r| && k in r[b].props
      ensures r[b].props[k] != Ref(e)
    {
      assert b < |h1|;
      assert r[b].props == h1[b].props;
      if b != a && b < |h| {
        assert h1[b] == h[b];
      }
    }
  }

  /** Under any other named parent, the value a leaf child leaves in
      `target[parent.name]` is what remains once that child is the last one. */
  lemma LastLeafWins(h: Cells, t: Value, node: TreeItem, p: string, n: nat, base: nat)
    requires 0 < n <= |node.children| && Forward(h, base)
    requires Named(NameOf(node)) && !IsPropertyOrMatch(NameOf(node)) && IsLeaf(node.children[n - 1])
    requires forall i :: 0 <= i < |node.children| ==> ObjectsPushed(node.children[i], NameOf(node))
    requires IsObject(h, ChildTarget(h, t, p)) && base <= ChildTarget(h, t, p).addr
    requires Named(p) ==> IsObject(h, t) && t.addr < ChildTarget(h, t, p).addr
    ensures var r := KidsVisited(h, t, node, p, n).cells;
      Prop(r, ChildTarget(h, t, p), NameOf(node)) == node.children[n - 1].value
  {
    KidsForward(h, t, node, p, n - 1, base);
    var h1 := KidsVisited(h, t, node, p, n - 1).cells;
    VisitForward(h1, ChildTarget(h, t, p), node.children[n - 1], NameOf(node), base);
  }

  /** The query object at the top level: with a named root, the clauses of the
      root's children all go under the root's name, so every other key of
      the query keeps its initial value, whatever the tree's values are. */
  lemma {:induction false} BuildWritesOnlyRootKey(h: Cells, tree: TreeItem)
    requires Closed(h) && TreeIn(tree, |h|) && Named(NameOf(tree))
    ensures var r := QueryBuilt(h, tree).cells;
      && r[|h|].isArray == InitialQuery.isArray
      && r[|h|].elems == InitialQuery.elems
      && r[|h|].props - {NameOf(tree)} == InitialQuery.props - {NameOf(tree)}
  {
    var q := |h|;
    var h0 := h + [InitialQuery];
    assert NotTargetable(h0, q) by {
      forall b, k | 0 <= b < |h0| && k in h0[b].props
        ensures h0[b].props[k] != Ref(q)
      {
        if b < |h| {
          assert ObjIn(h[b], |h|);
        }
      }
    }
    TopKids(h0, q, tree, |tree.children|);
  }

  lemma {:induction false} TopKids(h0: Cells, q: nat, tree: TreeItem, n: nat)
    requires q < |h0| && NotTargetable(h0, q) && TreeIn(tree, q) && Named(NameOf(tree))
    requires n <= |tree.children|
    ensures var r := KidsVisited(h0, Ref(q), tree, "", n).cells;
      && NotTargetable(r, q)
      && r[q].isArray == h0[q].isArray && r[q].elems == h0[q].elems
      && r[q].props - {NameOf(tree)} == h0[q].props - {NameOf(tree)}
  {
    if n > 0 {
      TopKids(h0, q, tree, n - 1);
      var run1 := KidsVisited(h0, Ref(q), tree, "", n - 1);
      if !run1.threw {
        var kid := tree.children[n - 1];
        var R := NameOf(tree);
        ClauseAtQuery(run1.cells, q, kid, R);
        var h2 := ClauseAdded(run1.cells, Ref(q), kid, R).cells;
        KidsLeaveCell(h2, Ref(q), kid, R, |kid.children|, q);
      }
    }
  }

  /** A clause written to a non-targetable cell changes only the given key of
      it, keeps its elements, and leaves it non-targetable. */
  lemma ClauseAtQuery(h: Cells, q: nat, item: TreeItem, p: string)
    requires q < |h| && NotTargetable(h, q) && ValueIn(item.value, q)
    ensures var r := ClauseAdded(h, Ref(q), item, p).cells;
      && NotTargetable(r, q)
      && r[q].isArray == h[q].isArray && r[q].elems == h[q].elems
      && r[q].props - {p} == h[q].props - {p}
  {
    var r := ClauseAdded(h, Ref(q), item, p).cells;
    if IsPropertyOrMatch(p) {
      var cur := Prop(h, Ref(q), p);
      var h1 := if IsArrayHasLength(h, cur) then h else SetProp(h + [EmptyArray], q, p, Ref(|h|));
      var arr := Prop(h1, Ref(q), p);
      assert arr != Ref(q);
      forall b, k | 0 <= b < |r| && k in r[b].props
        ensures r[b].props[k] != Ref(q)
      {
        if b < |h| && b != q && b != arr.addr {
          assert r[b] == h[b];
        }
        if b == arr.addr && b < |h| && b != q {
          assert r[b].props == h[b].props;
        }
      }
    } else {
      forall b, k | 0 <= b < |r| && k in r[b].props
        ensures r[b].props[k] != Ref(q)
      {
        if b < |h| && b != q {
          assert r[b] == h[b];
        }
      }
    }
  }

  /** The query keeps its name and description unless the root itself is
      called "name" or "description". */
  lemma BuildKeepsNameAndDescription(h: Cells, tree: TreeItem)
    requires Closed(h) && TreeIn(tree, |h|) && Named(NameOf(tree))
    requires NameOf(tree) != "name" && NameOf(tree) != "description"
    ensures var r := QueryBuilt(h, tree).cells;
      && Prop(r, Ref(|h|), "name") == Str(QueryName)
      && Prop(r, Ref(|h|), "description") == Str(QueryDescription)
  {
    BuildWritesOnlyRootKey(h, tree);
    var r := QueryBuilt(h, tree).cells;
    assert "name" in r[|h|].props - {NameOf(tree)};
    assert "description" in r[|h|].props - {NameOf(tree)};
  }

  /** The root's own value is never read. */
  lemma RootValueIgnored(h: Cells, tree: TreeItem, v: Value)
    ensures QueryBuilt(h, tree) == QueryBuilt(h, tree.(value := v))
  {
    var h0 := h + [InitialQuery];
    KidsIgnoreValue(h0, Ref(|h|), tree, tree.(value := v), "", |tree.children|);
  }

  lemma {:induction false} KidsIgnoreValue(h: Cells, t: Value, node: TreeItem, node': TreeItem, p: string, n: nat)
    requires node.children == node'.children && node.name == node'.name && n <= |node.children|
    ensures KidsVisited(h, t, node, p, n) == KidsVisited(h, t, node', p, n)
  {
    if n > 0 {
      KidsIgnoreValue(h, t, node, node', p, n - 1);
    }
  }
}
