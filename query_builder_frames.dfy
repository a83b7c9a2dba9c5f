/** Which cells a visit of the query builder can write.

    The builder writes only to its current target and to what it reaches by
    reading named keys from it (`query[parent.name]`). A cell that no object
    references through a named key, and that is not the target, is therefore
    never written. Two cells are in that position: the query object itself,
    which nothing ever stores, and each `{}` pushed for a non-leaf child of
    "property" or "match", which is only ever stored as an array element. */
module QueryBuilderFrames {
  import opened Js
  import opened QueryBuilder

  /** Every reference in the tree's values points below `n`. */
  predicate TreeIn(item: TreeItem, n: nat) {
    && ValueIn(item.value, n)
    && forall i :: 0 <= i < |item.children| ==> TreeIn(item.children[i], n)
  }

  lemma {:induction false} TreeInMono(item: TreeItem, n: nat, m: nat)
    requires TreeIn(item, n) && n <= m
    ensures TreeIn(item, m)
    decreases item
  {
    forall i | 0 <= i < |item.children|
      ensures TreeIn(item.children[i], m)
    {
      TreeInMono(item.children[i], n, m);
    }
  }

  /** No named key of any object holds a reference to cell `e`. */
  predicate NotTargetable(h: Cells, e: nat) {
    forall a, k :: 0 <= a < |h| && k in h[a].props ==> h[a].props[k] != Ref(e)
  }

  /** The target passed to the children avoids `e`. */
  lemma ChildTargetAvoids(h: Cells, t: Value, p: string, e: nat)
    requires NotTargetable(h, e)
    requires Named(p) || t != Ref(e)
    ensures ChildTarget(h, t, p) != Ref(e)
  {
  }

  lemma SetPropKeepsUntargetable(h: Cells, a: nat, k: string, v: Value, e: nat)
    requires a < |h| && NotTargetable(h, e) && v != Ref(e)
    ensures NotTargetable(SetProp(h, a, k, v), e)
  {
    var r := SetProp(h, a, k, v);
    forall b, k' | 0 <= b < |r| && k' in r[b].props
      ensures r[b].props[k'] != Ref(e)
    {
      if b != a {
        assert r[b] == h[b];
      }
    }
  }

  lemma PushKeepsUntargetable(h: Cells, a: nat, v: Value, e: nat)
    requires a < |h| && NotTargetable(h, e)
    ensures NotTargetable(PushElem(h, a, v), e)
  {
    var r := PushElem(h, a, v);
    forall b, k | 0 <= b < |r| && k in r[b].props
      ensures r[b].props[k] != Ref(e)
    {
      assert r[b].props == h[b].props;
    }
  }

  lemma NewKeepsUntargetable(h: Cells, o: Obj, e: nat)
    requires NotTargetable(h, e) && o.props == map[]
    ensures NotTargetable(h + [o], e)
  {
    var r := h + [o];
    forall b, k | 0 <= b < |r| && k in r[b].props
      ensures r[b].props[k] != Ref(e)
    {
      assert r[b] == h[b];
    }
  }

  /** One clause leaves a non-targetable cell other than the target untouched,
      and it stays non-targetable. */
  lemma ClauseLeavesCell(h: Cells, t: Value, item: TreeItem, p: string, e: nat)
    requires e < |h| && NotTargetable(h, e) && t != Ref(e) && ValueIn(item.value, e)
    ensures ClauseAdded(h, t, item, p).cells[e] == h[e]
    ensures NotTargetable(ClauseAdded(h, t, item, p).cells, e)
  {
    if IsObject(h, t) && IsPropertyOrMatch(p) {
      PropertyMatchLeavesCell(h, t.addr, item, p, e);
    } else if IsObject(h, t) && !IsLeaf(item) && !IsObjectHasKeys(h, Prop(h, t, p)) {
      NewKeepsUntargetable(h, EmptyObject, e);
      SetPropKeepsUntargetable(h + [EmptyObject], t.addr, p, Ref(|h|), e);
    } else if IsObject(h, t) && IsLeaf(item) {
      SetPropKeepsUntargetable(h, t.addr, p, item.value, e);
    }
  }

  lemma PropertyMatchLeavesCell(h: Cells, a: nat, item: TreeItem, p: string, e: nat)
    requires a < |h| && e < |h| && NotTargetable(h, e) && a != e && ValueIn(item.value, e)
    ensures PropertyMatchClauseAdded(h, a, item, p)[e] == h[e]
    ensures NotTargetable(PropertyMatchClauseAdded(h, a, item, p), e)
  {
    var cur := Prop(h, Ref(a), p);
    var h1 := if IsArrayHasLength(h, cur) then h else SetProp(h + [EmptyArray], a, p, Ref(|h|));
    if !IsArrayHasLength(h, cur) {
      NewKeepsUntargetable(h, EmptyArray, e);
      SetPropKeepsUntargetable(h + [EmptyArray], a, p, Ref(|h|), e);
    }
    var arr := Prop(h1, Ref(a), p);
    assert arr != Ref(e);
    if IsLeaf(item) {
      PushKeepsUntargetable(h1, arr.addr, item.value, e);
    } else {
      NewKeepsUntargetable(h1, EmptyObject, e);
      PushKeepsUntargetable(h1 + [EmptyObject], arr.addr, Ref(|h1|), e);
    }
  }

  lemma {:induction false} VisitLeavesCell(h: Cells, t: Value, item: TreeItem, p: string, e: nat)
    requires e < |h| && NotTargetable(h, e) && t != Ref(e) && TreeIn(item, e)
    ensures Visited(h, t, item, p).cells[e] == h[e]
    ensures NotTargetable(Visited(h, t, item, p).cells, e)
    decreases item, 1, 0
  {
    var r0 := if Named(p) then ClauseAdded(h, t, item, p) else Run(h, false);
    if Named(p) {
      ClauseLeavesCell(h, t, item, p, e);
    }
    if !r0.threw {
      KidsLeaveCell(r0.cells, t, item, p, |item.children|, e);
    }
  }

  lemma {:induction false} KidsLeaveCell(h: Cells, t: Value, node: TreeItem, p: string, n: nat, e: nat)
    requires n <= |node.children|
    requires e < |h| && NotTargetable(h, e) && (Named(p) || t != Ref(e))
    requires forall i :: 0 <= i < |node.children| ==> TreeIn(node.children[i], e)
    ensures KidsVisited(h, t, node, p, n).cells[e] == h[e]
    ensures NotTargetable(KidsVisited(h, t, node, p, n).cells, e)
    decreases node, 0, n
  {
    if n > 0 {
      KidsLeaveCell(h, t, node, p, n - 1, e);
      var r0 := KidsVisited(h, t, node, p, n - 1);
      if !r0.threw {
        ChildTargetAvoids(r0.cells, t, p, e);
        VisitLeavesCell(r0.cells, ChildTarget(r0.cells, t, p), node.children[n - 1], NameOf(node), e);
      }
    }
  }
}
