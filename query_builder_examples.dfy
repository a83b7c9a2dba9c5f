/** Concrete runs of the query builder.

    The first two show where the builder departs from "the input is only
    read" and from "the result keeps its name": a leaf whose value is an
    object, followed by a non-leaf sibling under the same parent, makes the
    sibling's children write into that object; a root called "name"
    overwrites the query's name. */
module QueryBuilderExamples {
  import opened Js
  import opened QueryBuilder
  import opened QueryBuilderFrames
  import opened QueryBuilderProps
  import opened Wrappers

  function Leaf(key: int, name: string, value: Value): TreeItem {
    TreeItem(key, Some(name), value, [])
  }

  /** A caller's object, referenced by a leaf value, is written by the builder. */
  lemma InputValueWritten()
    ensures var h := [Obj(false, map["k" := Str("v")], [])];
      var tree := TreeItem(0, Some("where"), Undefined,
                    [Leaf(1, "x", Ref(0)), TreeItem(2, Some("y"), Undefined, [Leaf(3, "z", Str("1"))])]);
      var r := QueryBuilt(h, tree);
      && !r.threw
      && r.cells[0] == Obj(false, map["k" := Str("v"), "y" := Str("1")], [])
      && r.cells[0] != h[0]
  {
    var h := [Obj(false, map["k" := Str("v")], [])];
    var z := Leaf(3, "z", Str("1"));
    var y := TreeItem(2, Some("y"), Undefined, [z]);
    var x := Leaf(1, "x", Ref(0));
    var tree := TreeItem(0, Some("where"), Undefined, [x, y]);
    var h0 := h + [InitialQuery];
    var q := Ref(1);
    // the leaf "x" stores the caller's object under `query.where`
    var h1 := SetProp(h0, 1, "where", Ref(0));
    assert Visited(h0, q, x, "where") == Run(h1, false);
    // the non-leaf "y" keeps it, since it already has a key
    assert ClauseAdded(h1, q, y, "where") == Run(h1, false);
    assert ChildTarget(h1, q, "where") == Ref(0);
    // and "y"'s leaf child is written into it
    var h2 := SetProp(h1, 0, "y", Str("1"));
    assert Visited(h1, Ref(0), z, "y") == Run(h2, false);
    assert KidsVisited(h1, q, y, "where", 1) == Run(h2, false);
    assert Visited(h1, q, y, "where") == Run(h2, false);
    assert KidsVisited(h0, q, tree, "", 1) == Run(h1, false);
    assert KidsVisited(h0, q, tree, "", 2) == Run(h2, false);
    assert QueryBuilt(h, tree) == Run(h2, false);
  }

  /** The tree above stores an object under a named key, which the per-parent
      promises of the builder exclude. */
  lemma AliasingTreeNotPushed()
    ensures !ObjectsPushed(TreeItem(0, Some("where"), Undefined,
                             [Leaf(1, "x", Ref(0)), TreeItem(2, Some("y"), Undefined, [Leaf(3, "z", Str("1"))])]), "")
  {
    var x := Leaf(1, "x", Ref(0));
    var tree := TreeItem(0, Some("where"), Undefined,
                  [x, TreeItem(2, Some("y"), Undefined, [Leaf(3, "z", Str("1"))])]);
    assert NameOf(tree) == "where" && tree.children[0] == x;
    assert !ObjectsPushed(x, "where");
  }

  /** A root called "name" replaces the query's name with its last leaf child's value. */
  lemma RootNamedNameOverwrites()
    ensures var tree := TreeItem(0, Some("name"), Undefined, [Leaf(1, "a", Str("x"))]);
      var r := QueryBuilt([], tree);
      && !r.threw
      && Prop(r.cells, Ref(0), "name") == Str("x")
      && Prop(r.cells, Ref(0), "name") != Str(QueryName)
  {
    var a := Leaf(1, "a", Str("x"));
    var tree := TreeItem(0, Some("name"), Undefined, [a]);
    var h0 := [InitialQuery];
    var h1 := SetProp(h0, 0, "name", Str("x"));
    assert Visited(h0, Ref(0), a, "name") == Run(h1, false);
    assert KidsVisited(h0, Ref(0), tree, "", 1) == Run(h1, false);
  }

  /** Without a root name the children's own names become top-level keys:
      a child called "description" replaces the description. */
  lemma UnnamedRootExposesChildren()
    ensures var tree := TreeItem(0, None, Undefined,
                          [TreeItem(1, Some("description"), Undefined, [Leaf(2, "a", Str("x"))])]);
      var r := QueryBuilt([], tree);
      && !r.threw
      && Prop(r.cells, Ref(0), "description") == Str("x")
  {
    var a := Leaf(2, "a", Str("x"));
    var d := TreeItem(1, Some("description"), Undefined, [a]);
    var tree := TreeItem(0, None, Undefined, [d]);
    var h0 := [InitialQuery];
    var h1 := SetProp(h0, 0, "description", Str("x"));
    assert Visited(h0, Ref(0), a, "description") == Run(h1, false);
    assert KidsVisited(h0, Ref(0), d, "", 1) == Run(h1, false);
    assert Visited(h0, Ref(0), d, "") == Run(h1, false);
    assert KidsVisited(h0, Ref(0), tree, "", 1) == Run(h1, false);
  }

  // The fixture tree of the query builder's component, with its object
  // values placed in cells 0 to 6 of the caller's heap.

  const SelectValue := Obj(false, map["name" := Str("select")], [])
  const PropertyValue := Obj(false, map["name" := Str("property")], [])
  const LabelValue := Obj(false, map["name" := Str("label"), "@id" := Str("http://www.w3.org/2000/01/rdf-schema#label")], [])
  const MatchValue := Obj(false, map["name" := Str("match")], [])
  const StatusInner := Obj(false, map["@id" := Str("isConcept")], [])
  const StatusValue := Obj(false, map["name" := Str("status"), "@id" := Str("http://endhealth.info/im#status"),
                                      "status" := Ref(5)], [])

  const FixtureCells: Cells := [SelectValue, PropertyValue, LabelValue, MatchValue, PropertyValue, StatusInner, StatusValue]

  const Unassigned := Leaf(1, "im:Unassigned", Str("im:Unassigned"))
  const IsConceptItem := TreeItem(1, Some("isConcept"), Str("isConcept"), [Unassigned])
  const StatusItem := TreeItem(1, Some("status"), Ref(6), [IsConceptItem])
  const InnerProperty := TreeItem(1, Some("property"), Ref(4), [StatusItem])
  const MatchItem := TreeItem(2, Some("match"), Ref(3), [InnerProperty])
  const LabelItem := Leaf(1, "label", Ref(2))
  const OuterProperty := TreeItem(1, Some("property"), Ref(1), [LabelItem])
  const TreeData := TreeItem(0, Some("select"), Ref(0), [OuterProperty, MatchItem])

  /** The fixture stays inside the per-parent promises of the builder: its one
      object-valued leaf ("label") sits under "property", and every value is
      an object of the fixture heap. */
  lemma FixtureObjectsPushed()
    ensures ObjectsPushed(TreeData, "") && TreeIn(TreeData, |FixtureCells|)
  {
    // bottom-up, from the deepest leaf to the root
    var n := |FixtureCells|;
    assert ObjectsPushed(Unassigned, "isConcept") && TreeIn(Unassigned, n);
    assert ObjectsPushed(IsConceptItem, "status") && TreeIn(IsConceptItem, n);
    assert ObjectsPushed(StatusItem, "property") && TreeIn(StatusItem, n);
    assert ObjectsPushed(InnerProperty, "match") && TreeIn(InnerProperty, n);
    assert ObjectsPushed(MatchItem, "select") && TreeIn(MatchItem, n);
    assert ObjectsPushed(OuterProperty, "select") && TreeIn(OuterProperty, n);
  }

  /** The query with its "select" clause at cell 8. */
  const SelectedQuery := InitialQuery.(props := InitialQuery.props["select" := Ref(8)])

  /** The heap once the fixture's first child, the outer "property", is done:
      `query.select = {property: [label]}`. */
  const AfterOuterProperty: Cells := FixtureCells + [
    /* 7 */ SelectedQuery,
    /* 8 */ Obj(false, map["property" := Ref(9)], []),
    /* 9 */ Obj(true, map[], [Ref(2)])
  ]

  /** The heap once the inner "property" has pushed its `{}` into `query.select.match`. */
  const AfterInnerClause: Cells := FixtureCells + [
    /* 7 */  SelectedQuery,
    /* 8 */  Obj(false, map["property" := Ref(9), "match" := Ref(10)], []),
    /* 9 */  Obj(true, map[], [Ref(2)]),
    /* 10 */ Obj(true, map[], [Ref(11)]),
    /* 11 */ EmptyObject
  ]

  /** The heap once "status" has pushed its `{}` into the array the match
      array holds under "property". */
  const AfterStatusClause: Cells := FixtureCells + [
    /* 7 */  SelectedQuery,
    /* 8 */  Obj(false, map["property" := Ref(9), "match" := Ref(10)], []),
    /* 9 */  Obj(true, map[], [Ref(2)]),
    /* 10 */ Obj(true, map["property" := Ref(12)], [Ref(11)]),
    /* 11 */ EmptyObject,
    /* 12 */ Obj(true, map[], [Ref(13)]),
    /* 13 */ EmptyObject
  ]

  /** The query built from the fixture: `select` holds `property` and `match`
      arrays; the `{}` pushed for the inner "property" stays empty while its
      "status" clause lands as a named key on the `match` array itself, and
      likewise one level further down. */
  const FixtureResult: Cells := FixtureCells + [
    /* 7, the query */  SelectedQuery,
    /* 8 */  Obj(false, map["property" := Ref(9), "match" := Ref(10)], []),
    /* 9 */  Obj(true, map[], [Ref(2)]),
    /* 10 */ Obj(true, map["property" := Ref(12)], [Ref(11)]),
    /* 11 */ EmptyObject,
    /* 12 */ Obj(true, map["status" := Ref(14)], [Ref(13)]),
    /* 13 */ EmptyObject,
    /* 14 */ Obj(false, map["isConcept" := Str("im:Unassigned")], [])
  ]

  lemma TreeDataQuery()
    ensures QueryBuilt(FixtureCells, TreeData) == Run(FixtureResult, false)
  {
    var h0 := FixtureCells + [InitialQuery];
    OuterPropertyVisit();
    MatchVisit();
    assert KidsVisited(h0, Ref(7), TreeData, "", 1) == Run(AfterOuterProperty, false);
    assert KidsVisited(h0, Ref(7), TreeData, "", 2) == Run(FixtureResult, false);
  }

  /** The query with `select` opened as `{}` at 8. */
  const AfterSelectClause: Cells := FixtureCells + [SelectedQuery, EmptyObject]

  /** "property" under "select": `query.select = {}` at 8, then the "label"
      leaf makes `query.select.property = [label]`. */
  lemma OuterPropertyVisit()
    ensures Visited(FixtureCells + [InitialQuery], Ref(7), OuterProperty, "select") == Run(AfterOuterProperty, false)
  {
    SelectClause();
    OneChildVisit(FixtureCells + [InitialQuery], Ref(7), OuterProperty, "select", AfterSelectClause);
    assert ChildTarget(AfterSelectClause, Ref(7), "select") == Ref(8) by {
      assert AfterSelectClause[7].props["select"] == Ref(8);
    }
    LabelVisit();
  }

  /** The outer "property" clause: `select` is missing, so a `{}` is opened. */
  lemma SelectClause()
    ensures ClauseAdded(FixtureCells + [InitialQuery], Ref(7), OuterProperty, "select") == Run(AfterSelectClause, false)
  {
    var h0 := FixtureCells + [InitialQuery];
    var h1 := SetProp(h0 + [EmptyObject], 7, "select", Ref(8));
    assert ClauseAdded(h0, Ref(7), OuterProperty, "select") == Run(h1, false);
    assert |h1| == |AfterSelectClause|;
    forall c | 0 <= c < |h1|
      ensures h1[c] == AfterSelectClause[c]
    {
    }
  }

  /** The "label" leaf under "property", on the new `{}` at 8. */
  lemma LabelVisit()
    ensures Visited(AfterSelectClause, Ref(8), LabelItem, "property") == Run(AfterOuterProperty, false)
  {
    var h2 := PushElem(SetProp(AfterSelectClause + [EmptyArray], 8, "property", Ref(9)), 9, Ref(2));
    assert ClauseAdded(AfterSelectClause, Ref(8), LabelItem, "property") == Run(h2, false);
    assert |h2| == |AfterOuterProperty|;
    forall c | 0 <= c < |h2|
      ensures h2[c] == AfterOuterProperty[c]
    {
    }
    LeafVisit(AfterSelectClause, Ref(8), LabelItem, "property", AfterOuterProperty);
  }

  /** "match" under "select" keeps `query.select`, which already has a key. */
  lemma MatchVisit()
    ensures Visited(AfterOuterProperty, Ref(7), MatchItem, "select") == Run(FixtureResult, false)
  {
    var h2 := AfterOuterProperty;
    MatchClauseKeepsSelect();
    OneChildVisit(h2, Ref(7), MatchItem, "select", h2);
    InnerPropertyVisit();
  }

  lemma MatchClauseKeepsSelect()
    ensures ClauseAdded(AfterOuterProperty, Ref(7), MatchItem, "select") == Run(AfterOuterProperty, false)
    ensures Prop(AfterOuterProperty, Ref(7), "select") == Ref(8)
  {
    var h2 := AfterOuterProperty;
    assert Prop(h2, Ref(7), "select") == Ref(8);
    assert "property" in h2[8].props;
  }

  /** The inner "property" under "match": `query.select.match = [{}]`; its
      "status" child is visited with the match array itself as target. */
  lemma InnerPropertyVisit()
    ensures Visited(AfterOuterProperty, Ref(8), InnerProperty, "match") == Run(FixtureResult, false)
  {
    InnerClause();
    OneChildVisit(AfterOuterProperty, Ref(8), InnerProperty, "match", AfterInnerClause);
    assert ChildTarget(AfterInnerClause, Ref(8), "match") == Ref(10) by {
      assert AfterInnerClause[8].props["match"] == Ref(10);
    }
    StatusVisit();
  }

  /** "status" under "property", on the match array: its clause becomes the
      array's "property" key, holding `[{}]`. */
  lemma StatusVisit()
    ensures Visited(AfterInnerClause, Ref(10), StatusItem, "property") == Run(FixtureResult, false)
  {
    StatusClause();
    OneChildVisit(AfterInnerClause, Ref(10), StatusItem, "property", AfterStatusClause);
    assert ChildTarget(AfterStatusClause, Ref(10), "property") == Ref(12) by {
      assert AfterStatusClause[10].props["property"] == Ref(12);
    }
    IsConceptVisit();
  }

  /** The heap once "isConcept" has opened `{}` at 14 under the "status" key
      of the array at 12. */
  const AfterIsConceptClause: Cells := FixtureCells + [
    /* 7 */  SelectedQuery,
    /* 8 */  Obj(false, map["property" := Ref(9), "match" := Ref(10)], []),
    /* 9 */  Obj(true, map[], [Ref(2)]),
    /* 10 */ Obj(true, map["property" := Ref(12)], [Ref(11)]),
    /* 11 */ EmptyObject,
    /* 12 */ Obj(true, map["status" := Ref(14)], [Ref(13)]),
    /* 13 */ EmptyObject,
    /* 14 */ EmptyObject
  ]

  /** "isConcept" under "status", on the array at 12, then its leaf child. */
  lemma IsConceptVisit()
    ensures Visited(AfterStatusClause, Ref(12), IsConceptItem, "status") == Run(FixtureResult, false)
  {
    IsConceptClause();
    OneChildVisit(AfterStatusClause, Ref(12), IsConceptItem, "status", AfterIsConceptClause);
    assert ChildTarget(AfterIsConceptClause, Ref(12), "status") == Ref(14) by {
      assert AfterIsConceptClause[12].props["status"] == Ref(14);
    }
    UnassignedVisit();
  }

  /** The "isConcept" clause: a non-leaf finds no object under "status" and
      opens one. */
  lemma IsConceptClause()
    ensures ClauseAdded(AfterStatusClause, Ref(12), IsConceptItem, "status") == Run(AfterIsConceptClause, false)
  {
    var h5 := SetProp(AfterStatusClause + [EmptyObject], 12, "status", Ref(14));
    assert ClauseAdded(AfterStatusClause, Ref(12), IsConceptItem, "status") == Run(h5, false);
    assert |h5| == |AfterIsConceptClause|;
    forall c | 0 <= c < |h5|
      ensures h5[c] == AfterIsConceptClause[c]
    {
    }
  }

  /** The leaf "im:Unassigned" writes its value under "isConcept". */
  lemma UnassignedVisit()
    ensures Visited(AfterIsConceptClause, Ref(14), Unassigned, "isConcept") == Run(FixtureResult, false)
  {
    var h6 := SetProp(AfterIsConceptClause, 14, "isConcept", Str("im:Unassigned"));
    assert Visited(AfterIsConceptClause, Ref(14), Unassigned, "isConcept") == Run(h6, false);
    assert |h6| == |FixtureResult|;
    forall c | 0 <= c < |h6|
      ensures h6[c] == FixtureResult[c]
    {
    }
  }

  /** A named node with one child: its clause, then the child's visit on the
      target the clause leaves. */
  lemma OneChildVisit(h: Cells, t: Value, item: TreeItem, p: string, h1: Cells)
    requires |item.children| == 1 && Named(p) && ClauseAdded(h, t, item, p) == Run(h1, false)
    ensures Visited(h, t, item, p) == Visited(h1, ChildTarget(h1, t, p), item.children[0], NameOf(item))
  {
    assert KidsVisited(h1, t, item, p, 0) == Run(h1, false);
  }

  /** A named leaf: its clause is the whole visit. */
  lemma LeafVisit(h: Cells, t: Value, item: TreeItem, p: string, h1: Cells)
    requires item.children == [] && Named(p) && ClauseAdded(h, t, item, p) == Run(h1, false)
    ensures Visited(h, t, item, p) == Run(h1, false)
  {
    assert KidsVisited(h1, t, item, p, 0) == Run(h1, false);
  }

  /** A non-leaf under "property"/"match" on an object without that key:
      a new array at the next address, holding a new `{}` after it. */
  lemma FreshArrayClause(h: Cells, a: nat, item: TreeItem, p: string)
    requires a < |h| && IsPropertyOrMatch(p) && !IsLeaf(item) && p !in h[a].props
    ensures ClauseAdded(h, Ref(a), item, p)
      == Run(PushElem(SetProp(h + [EmptyArray], a, p, Ref(|h|)) + [EmptyObject], |h|, Ref(|h| + 1)), false)
  {
    var h1 := SetProp(h + [EmptyArray], a, p, Ref(|h|));
    assert Prop(h1, Ref(a), p) == Ref(|h|);
  }

  /** The inner "property" clause: a new array at 10 under "match", holding
      a new `{}` at 11. */
  lemma InnerClause()
    ensures ClauseAdded(AfterOuterProperty, Ref(8), InnerProperty, "match") == Run(AfterInnerClause, false)
  {
    var h3 := PushElem(SetProp(AfterOuterProperty + [EmptyArray], 8, "match", Ref(10)) + [EmptyObject], 10, Ref(11));
    assert "match" !in AfterOuterProperty[8].props;
    FreshArrayClause(AfterOuterProperty, 8, InnerProperty, "match");
    assert |h3| == |AfterInnerClause|;
    forall c | 0 <= c < |h3|
      ensures h3[c] == AfterInnerClause[c]
    {
    }
  }

  /** The "status" clause: a new array at 12 under the match array's
      "property" key, holding a new `{}` at 13. */
  lemma StatusClause()
    ensures ClauseAdded(AfterInnerClause, Ref(10), StatusItem, "property") == Run(AfterStatusClause, false)
  {
    var h4 := PushElem(SetProp(AfterInnerClause + [EmptyArray], 10, "property", Ref(12)) + [EmptyObject], 12, Ref(13));
    assert "property" !in AfterInnerClause[10].props;
    FreshArrayClause(AfterInnerClause, 10, StatusItem, "property");
    assert |h4| == |AfterStatusClause|;
    forall c | 0 <= c < |h4|
      ensures h4[c] == AfterStatusClause[c]
    {
    }
  }
}
