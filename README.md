# IMDirectory front end: query builder, editor shape merging and Vuex stores

This project models three parts of the directory's front end in Dafny and
proves properties about them:

- **The query builder** (`src/components/query-builder/QueryBuilder.ts`). It walks a tree of
  `TreeItem`s and writes clauses into a fresh query object.
  - A child of a `property` or `match` node is appended to an array.
  - A leaf under any other named parent becomes that key's value.
  - A non-leaf under such a parent opens an object `{}` unless one is already there.

  JavaScript objects are modelled as a heap (`Js.Cells`, one cell per object; an address is an index).
  The builder's functions are methods on a `Js.Heap`. Each method is proved equal to a
  specification function on the cells. A TypeError from writing into a non-object is
  modelled as a `threw` flag.
- **The editor helpers** (`src/views/EditorMethods.ts`):
  - `processEntity`: rename `@id` to the IM id key, and drop the IM1 keys;
  - `processComponentType`: the steps group, or an error;
  - `addToShape`: append the groups of one shape to another and number them.
- **The two Vuex stores:**
  - the current one (`src/store/index.ts`, module `VuexStore`);
  - the older `front-end-vue` one (`front-end-vue/src/store/index.ts`, module `LegacyStore`).

  Each store is a class whose `state` field is a record. Local storage is a
  `map<string, string>` field. The stored recent-activity list is a separate field.
  The mutations are methods that replace one field of the state.
  The list helpers are shared in `StoreCommon` and `RecentActivity`:
  - the history filter;
  - the filter-entry stripping;
  - the recent-activity update, with its in-place sort.

Files:

- `wrappers.dfy`: `Option` and `Result`.
- `js.dfy`: the heap.
- `query_builder.dfy`: the builder.
- `query_builder_frames.dfy` and `query_builder_props.dfy`: what the builder leaves alone, and what it writes.
- `query_builder_examples.dfy`: worked trees, including the test fixture.
- `editor_methods.dfy`: the editor helpers.
- `store_common.dfy` and `recent_activity.dfy`: the shared list logic.
- `store.dfy` and `legacy_store.dfy`: the two stores.

The builder's callers would expect the input tree to be only read and the query to keep its name and description. The code departs from that in these ways, and the model follows the code:

- **The input tree can be changed.** A tree value that is an object can be written into by the builder.
  - How: a leaf object is stored under a key, then a non-leaf sibling under the same parent descends into it.
  - Shown by `QueryBuilderExamples.InputValueWritten`.
- **A root named `name` or `description` overwrites the query's own key.** Shown by `QueryBuilderExamples.RootNamedNameOverwrites`.
- **An unnamed root writes its children's clauses at the top level of the query.** Shown by `QueryBuilderExamples.UnnamedRootExposesChildren`.
- **Nothing descends into the last element of an array, and nothing wraps the result in a `query` key.**
  - A `property`/`match` child's own children are visited with the array itself as their target (`query[parent.name]`).
  - The builder returns the query object itself.

## Model

| member | source | states |
|---|---|---|
| QueryBuilder.BuildQueryFromTreeItem | src/components/query-builder/QueryBuilder.ts:7-13 | the heap after the call is the one the tree visit gives from a fresh query `{name, description}` at the next free address; the result is that query, or a TypeError when a clause targets a non-object |
| QueryBuilder.RecurseBuildQuery | src/components/query-builder/QueryBuilder.ts:15-27 | the heap and the thrown flag equal the visit: a clause for a named parent, then the children in order, each under `query[parent.name]` when the parent is named and under `query` otherwise, stopping at the first TypeError |
| QueryBuilder.AddClause | src/components/query-builder/QueryBuilder.ts:29-39 | equals `ClauseAdded` |
| QueryBuilder.ClauseAdded | src/components/query-builder/QueryBuilder.ts:29-39 | throws exactly when the target is not an object, and then changes nothing; a leaf's value replaces `target[parent]`; a non-leaf puts a fresh `{}` there unless an object with keys is already there; a `property`/`match` parent goes to the array clause |
| QueryBuilder.AddPropertyMatchClause | src/components/query-builder/QueryBuilder.ts:41-50 | equals `PropertyMatchClauseAdded` |
| QueryBuilder.PropertyMatchClauseAdded | src/components/query-builder/QueryBuilder.ts:41-50 | `target[parent]` keeps a non-empty array and otherwise becomes a fresh array; its old elements are kept (none when it was replaced) and one element is appended: the leaf's value, or a fresh `{}` for a non-leaf; no other key or cell changes |
| QueryBuilder.IsProperty | src/components/query-builder/QueryBuilder.ts:52-58 | true iff the value is a non-array object whose only key is `name` and the item has children |
| QueryBuilder.KidsStopAfterThrow | src/components/query-builder/QueryBuilder.ts:22-25 | once a child's visit throws, the later children change nothing |
| QueryBuilder.SingletonKeys | src/components/query-builder/QueryBuilder.ts:56-57 | a key set of length one that includes `k` is exactly `{k}` |
| QueryBuilderFrames.TreeInMono | src/components/query-builder/QueryBuilder.ts:15-27 | a tree whose values point below `n` also points below any larger bound |
| QueryBuilderFrames.ChildTargetAvoids | src/components/query-builder/QueryBuilder.ts:23-24 | the children's target is never a cell that no key refers to, other than the current target |
| QueryBuilderFrames.SetPropKeepsUntargetable | src/components/query-builder/QueryBuilder.ts:34-37 | writing a key whose value is not a reference to cell `e` keeps `e` unreferenced |
| QueryBuilderFrames.PushKeepsUntargetable | src/components/query-builder/QueryBuilder.ts:46-48 | pushing onto an array keeps every cell unreferenced by named keys |
| QueryBuilderFrames.NewKeepsUntargetable | src/components/query-builder/QueryBuilder.ts:37 | allocating an object with no keys keeps every cell unreferenced |
| QueryBuilderFrames.ClauseLeavesCell | src/components/query-builder/QueryBuilder.ts:29-39 | a clause changes no cell other than its target that no key refers to, and keeps it unreferenced |
| QueryBuilderFrames.PropertyMatchLeavesCell | src/components/query-builder/QueryBuilder.ts:41-50 | the array clause changes no such cell either |
| QueryBuilderFrames.VisitLeavesCell | src/components/query-builder/QueryBuilder.ts:15-27 | a whole visit changes no such cell |
| QueryBuilderFrames.KidsLeaveCell | src/components/query-builder/QueryBuilder.ts:21-26 | the children loop changes no such cell |
| QueryBuilderProps.SetPropForward | src/components/query-builder/QueryBuilder.ts:34-37 | writing a reference to a newer cell keeps every key pointing forward |
| QueryBuilderProps.PushForward | src/components/query-builder/QueryBuilder.ts:46-48 | pushing keeps every key pointing forward |
| QueryBuilderProps.NewForward | src/components/query-builder/QueryBuilder.ts:37 | allocating an empty object keeps every key pointing forward |
| QueryBuilderProps.ClauseForward | src/components/query-builder/QueryBuilder.ts:29-39 | a clause never throws and keeps every key pointing forward, when an object-valued leaf is not written under a named key other than `property`/`match` |
| QueryBuilderProps.PropertyMatchForward | src/components/query-builder/QueryBuilder.ts:41-50 | the array clause keeps every key pointing forward |
| QueryBuilderProps.VisitForward | src/components/query-builder/QueryBuilder.ts:15-27 | a visit never throws, writes no cell older than its target, and keeps keys pointing forward, when every object-valued leaf sits under `property`/`match` |
| QueryBuilderProps.KidsForward | src/components/query-builder/QueryBuilder.ts:21-26 | the same for the children loop, under the same condition on the children |
| QueryBuilderProps.BuildLeavesHeap | src/components/query-builder/QueryBuilder.ts:7-13 | the builder never throws and leaves every object that existed before it unchanged, when every object-valued leaf sits under `property`/`match` |
| QueryBuilderProps.KidsAppendInOrder | src/components/query-builder/QueryBuilder.ts:22-25 | under a `property`/`match` node, the first `n` children append exactly `n` elements in child order: each leaf's value, or a `{}` that stays empty; when every object-valued leaf sits under `property`/`match` and every tree value is an object of the caller |
| QueryBuilderProps.KidsAppendFirst | src/components/query-builder/QueryBuilder.ts:22-25 | the first child of a `property`/`match` node appends its element, under the condition of `KidsAppendInOrder` |
| QueryBuilderProps.KidsAppendNext | src/components/query-builder/QueryBuilder.ts:22-25 | each later child appends one more element after those of the earlier children, under the condition of `KidsAppendInOrder` |
| QueryBuilderProps.KidsLast | src/components/query-builder/QueryBuilder.ts:22-25 | the loop over `n` children is the loop over `n - 1` followed by one visit, and the target stays an object, when every object-valued leaf sits under `property`/`match` |
| QueryBuilderProps.TakeLast | src/components/query-builder/QueryBuilder.ts:22 | proof helper for unfolding the `forEach`: a prefix of length `n` is the prefix of length `n - 1` followed by element `n - 1` |
| QueryBuilderProps.AppendFirst | src/components/query-builder/QueryBuilder.ts:42-49 | one visit under `property`/`match` leaves the kept elements followed by the child's element, under the condition of `KidsAppendInOrder` |
| QueryBuilderProps.EmptyStaysEmpty | src/components/query-builder/QueryBuilder.ts:48 | a pushed `{}` that no key refers to stays empty through a later visit whose tree values are all objects older than it |
| QueryBuilderProps.AppendStep | src/components/query-builder/QueryBuilder.ts:22-25 | appending one more child's element extends what the earlier children appended, under the condition of `KidsAppendInOrder` |
| QueryBuilderProps.VisitAppendsOne | src/components/query-builder/QueryBuilder.ts:42-49 | a visit under `property`/`match` leaves a non-empty array whose last element is the child's, under the condition of `KidsAppendInOrder` |
| QueryBuilderProps.ClauseTargetsFresh | src/components/query-builder/QueryBuilder.ts:48 | the `{}` a non-leaf pushes is referenced by no named key |
| QueryBuilderProps.LastLeafWins | src/components/query-builder/QueryBuilder.ts:32-34 | under another named parent, the last leaf child's value is what `target[parent]` holds afterwards, when every object-valued leaf sits under `property`/`match` |
| QueryBuilderProps.BuildWritesOnlyRootKey | src/components/query-builder/QueryBuilder.ts:7-13 | with a named root, the top-level query gains at most the root's key |
| QueryBuilderProps.TopKids | src/components/query-builder/QueryBuilder.ts:21-26 | the root's children write into the query only under the root's name |
| QueryBuilderProps.ClauseAtQuery | src/components/query-builder/QueryBuilder.ts:29-39 | a clause aimed at the query changes only the parent's key there |
| QueryBuilderProps.BuildKeepsNameAndDescription | src/components/query-builder/QueryBuilder.ts:9 | the query keeps its name and description unless the root is named `name` or `description` |
| QueryBuilderProps.RootValueIgnored | src/components/query-builder/QueryBuilder.ts:7-13 | the root's own value never affects the result |
| QueryBuilderProps.KidsIgnoreValue | src/components/query-builder/QueryBuilder.ts:21-26 | the children loop does not depend on the parent's value |
| QueryBuilderExamples.InputValueWritten | src/components/query-builder/QueryBuilder.ts:34-37 | an object value taken from the input tree is written into by a later sibling's subtree |
| QueryBuilderExamples.AliasingTreeNotPushed | src/components/query-builder/QueryBuilder.ts:32-34 | the tree that writes into the input stores an object leaf under a named key, so the promises above do not cover it |
| QueryBuilderExamples.RootNamedNameOverwrites | src/components/query-builder/QueryBuilder.ts:9-10 | a root named `name` replaces the query's name |
| QueryBuilderExamples.UnnamedRootExposesChildren | src/components/query-builder/QueryBuilder.ts:18-24 | an unnamed root's children write their clauses at the top level of the query |
| QueryBuilderExamples.OneChildVisit | src/components/query-builder/QueryBuilder.ts:15-27 | a named node with one child is its clause followed by the child's visit on `query[parent.name]` |
| QueryBuilderExamples.LeafVisit | src/components/query-builder/QueryBuilder.ts:18-21 | a named leaf's visit is its clause alone |
| QueryBuilderExamples.FreshArrayClause | src/components/query-builder/QueryBuilder.ts:42-48 | a non-leaf under `property`/`match` on an object without that key creates an array at the next address holding a new `{}` |
| QueryBuilderExamples.TreeDataQuery | src/components/query-builder/TreeData.ts:1-79 | the fixture tree builds the exact query, without a TypeError |
| QueryBuilderExamples.FixtureObjectsPushed | src/components/query-builder/TreeData.ts:1-79 | the fixture tree meets the condition of `KidsAppendInOrder`: its one object-valued leaf sits under `property`, and every value is an object of the fixture heap |
| QueryBuilderExamples.OuterPropertyVisit | src/components/query-builder/QueryBuilder.ts:15-27 | one step of the fixture: the outer `property` subtree |
| QueryBuilderExamples.LabelVisit | src/components/query-builder/QueryBuilder.ts:41-46 | one step of the fixture: a leaf under `property`, whose value is pushed onto a new `query.select.property` array |
| QueryBuilderExamples.MatchVisit | src/components/query-builder/QueryBuilder.ts:15-27 | one step of the fixture: the `match` subtree |
| QueryBuilderExamples.MatchClauseKeepsSelect | src/components/query-builder/QueryBuilder.ts:35-37 | a non-leaf finds the object already under `select` and keeps it |
| QueryBuilderExamples.InnerPropertyVisit | src/components/query-builder/QueryBuilder.ts:41-50 | one step of the fixture: the inner `property` subtree |
| QueryBuilderExamples.StatusVisit | src/components/query-builder/QueryBuilder.ts:41-50 | one step of the fixture: the `status` subtree |
| QueryBuilderExamples.IsConceptVisit | src/components/query-builder/QueryBuilder.ts:32-37 | one step of the fixture: a new `{}` is opened under `status` on the match array, and the leaf's value is written under `isConcept` inside it |
| Js.Prop | src/components/query-builder/QueryBuilder.ts:34-35 | a property read gives the key's value on an object that has it, and `undefined` otherwise |
| Js.SetProp | src/components/query-builder/QueryBuilder.ts:34 | an assignment changes one key of one object and nothing else |
| Js.PushElem | src/components/query-builder/QueryBuilder.ts:46 | `push` appends one element to one array and changes nothing else |
| Js.GrowsTrans | src/components/query-builder/QueryBuilder.ts:15-27 | heaps that only grow keys and elements compose |
| Js.Heap.Get | src/components/query-builder/QueryBuilder.ts:35 | reads `Prop` |
| Js.Heap.Set | src/components/query-builder/QueryBuilder.ts:34 | performs `SetProp` |
| Js.Heap.Push | src/components/query-builder/QueryBuilder.ts:46 | performs `PushElem` |
| Js.Heap.New | src/components/query-builder/QueryBuilder.ts:37 | allocates the object at the next address |
| EditorMethods.ProcessEntity | src/views/EditorMethods.ts:111-120 | the result has no `@id` and no IM1 id or scheme; the IM id holds the old `@id` when there was one and keeps its own value otherwise; every other key is copied; no key is invented |
| EditorMethods.ProcessEntityIdempotent | src/views/EditorMethods.ts:111-120 | processing twice is processing once |
| EditorMethods.ProcessComponentType | src/views/EditorMethods.ts:72-79 | the steps group iff the type is the steps-group IRI; otherwise the error message followed by the IRI |
| EditorMethods.PushGroup | src/views/EditorMethods.ts:36-38 | one iteration's body for the array it pushes onto: a new arrow function, the group's `order` set to the old length plus one, the group appended; nothing else changes |
| EditorMethods.Step | src/views/EditorMethods.ts:36-38 | one iteration allocates the arrow function, sets the group's `order` to the old length plus one and appends the group; nothing else changes |
| EditorMethods.GroupsAdded | src/views/EditorMethods.ts:34-41 | the heap only grows |
| EditorMethods.AddToShape | src/views/EditorMethods.ts:34-41 | the heap and the thrown flag after the loop equal `GroupsAdded` over the groups to add |
| EditorMethods.StepKeepsReady | src/views/EditorMethods.ts:36-38 | after one iteration the shape still has its group array and the heap stays closed |
| EditorMethods.GroupsAddedUnfold | src/views/EditorMethods.ts:35-40 | the loop is one iteration followed by the loop over the rest |
| EditorMethods.LoopStep | src/views/EditorMethods.ts:35-39 | one iteration for an object group keeps the iterated array and the remaining outcome of the loop |
| EditorMethods.GuardNeverExcludes | src/views/EditorMethods.ts:36 | `includes` of the freshly made arrow function is always false, so the guard never skips a group |
| EditorMethods.GroupsAddedAppends | src/views/EditorMethods.ts:34-41 | when every group is an object, nothing throws, one function is allocated per group, and the shape's groups are the old groups followed by all the added ones, in order |
| EditorMethods.GroupsAddedFrame | src/views/EditorMethods.ts:34-41 | no object other than the group array and the added groups changes; the new cells are the arrow functions |
| EditorMethods.GroupsAddedKeepsKeys | src/views/EditorMethods.ts:34-41 | every object's keys other than the added groups' stay the same |
| EditorMethods.FirstGroupOrder | src/views/EditorMethods.ts:37 | the first group's `order` is the old group count plus one, unless it occurs again later |
| EditorMethods.GroupsAddedOrders | src/views/EditorMethods.ts:37 | the `k`-th added group's `order` is the old group count plus `k` plus one, counted at its last occurrence |
| EditorMethods.GroupsAddedThrows | src/views/EditorMethods.ts:37 | at the first group that is not an object the loop throws, after appending the groups before it |
| EditorMethods.GroupsAddedThrowsIff | src/views/EditorMethods.ts:37 | the loop throws iff some group to add is not an object |
| EditorMethods.FirstNonObject | src/views/EditorMethods.ts:37 | the index of the first group that is not an object |
| EditorMethods.MergeByName | src/views/EditorMethods.ts:34-41 | the corrected merge keeps the existing groups as a prefix |
| EditorMethods.MergeByNameKeepsNamesUnique | src/views/EditorMethods.ts:36 | the corrected merge keeps group names unique |
| EditorMethods.MergeByNameCovers | src/views/EditorMethods.ts:36 | after the corrected merge every added group's name is present, and only the added groups are new |
| EditorMethods.TwoShapesReady | src/views/EditorMethods.ts:34-41 | the two-shape example is a well-formed input |
| EditorMethods.AddToShapeDuplicatesNames | src/views/EditorMethods.ts:36 | adding a group whose name is already present appends a second group with that name, where the corrected merge does not |
| EditorMethods.Rebound | src/views/EditorMethods.ts:35-39 | once `shape` is `shapeToAdd`, each iteration pushes onto the iterated array, so after `k` more iterations the loop's position is still below its length; only that array and its groups change |
| EditorMethods.AddToEmptyShapeNeverEnds | src/views/EditorMethods.ts:26-39 | for `{}` and a shape with two groups, the guard fails for `{}`, and after any number of later iterations the loop has not ended and `{}` is unchanged |
| EditorMethods.WithGroupArray | src/views/EditorMethods.ts:26-39 | a shape with a `group` key is kept; otherwise it gains a new empty array under `group` and nothing else changes |
| EditorMethods.WithGroupArrayReady | src/views/EditorMethods.ts:36 | after that, the shape has its own group array, other than the iterated one, and the heap stays closed |
| EditorMethods.AddToShapeOrStart | src/views/EditorMethods.ts:34-41 | the corrected merge: the heap and thrown flag equal `GroupsAdded` after the shape is given its group array |
| EditorMethods.StartedShapeReady | src/views/EditorMethods.ts:36 | a shape without groups, given its array, is ready for the loop, with an empty group array at the next address |
| EditorMethods.EmptyGroupsTakeAll | src/views/EditorMethods.ts:35-38 | into an empty group array, object groups are added without a throw, exactly and in order, each numbered by its one-based position |
| EditorMethods.StartedShapeTakesGroups | src/views/EditorMethods.ts:26-41 | with the correction, a shape without groups ends holding exactly the other shape's groups, in order and numbered from one |
| StoreCommon.StoredItem | src/store/index.ts:17-21 | `getItem` gives the stored string iff the key is stored, and null otherwise |
| StoreCommon.WithoutConcept | src/store/index.ts:76-78 | filtering never lengthens the history |
| StoreCommon.HistoryWith | src/store/index.ts:75-80 | the new item comes first |
| StoreCommon.WithoutConceptMembers | src/store/index.ts:76-78 | the filtered history holds exactly the old entries of other concepts |
| StoreCommon.WithoutConceptAppend | src/store/index.ts:76-78 | filtering keeps order: it distributes over concatenation |
| StoreCommon.WithoutConceptIdempotent | src/store/index.ts:76-78 | filtering twice by one concept is filtering once |
| StoreCommon.HistoryWithTwice | src/store/index.ts:75-80 | the same update applied twice gives the history one update gives |
| StoreCommon.HistoryWithEntries | src/store/index.ts:75-80 | the new item is the only entry of its concept, every old entry of another concept stays, and nothing else appears |
| StoreCommon.WithoutConceptKeepsUnique | src/store/index.ts:76-78 | filtering keeps concepts unique |
| StoreCommon.HistoryWithKeepsUnique | src/store/index.ts:75-80 | a history with each concept once still has each concept once after an update |
| StoreCommon.Stripped | src/store/index.ts:82-89 | the entry loses `hasChildren` and `type` and keeps every other key with its value |
| StoreCommon.StrippedAll | src/store/index.ts:82-89 | every entry is stripped, in place and order |
| StoreCommon.StrippedAllIdempotent | src/store/index.ts:82-89 | stripping twice is stripping once |
| StoreCommon.StripEach | src/store/index.ts:82-85 | the `forEach` loop strips every entry |
| RecentActivity.FindIndex | src/store/index.ts:55 | -1 iff no entry has the item's IRI and app; otherwise the first such entry |
| RecentActivity.Insert | src/store/index.ts:58-66 | inserting makes the list one longer |
| RecentActivity.SortByTime | src/store/index.ts:58-66 | sorting keeps the length |
| RecentActivity.InsertPermutes | src/store/index.ts:58-66 | inserting adds exactly the one entry |
| RecentActivity.InsertSorted | src/store/index.ts:58-66 | inserting into a list sorted by time keeps it sorted |
| RecentActivity.SortByTimeSortsAndPermutes | src/store/index.ts:58-66 | sorting gives a list sorted by time holding the same entries |
| RecentActivity.InsertPosition | src/store/index.ts:58-66 | the inserted entry goes after the entries not later than it and before the later ones |
| RecentActivity.SplitLast | src/store/index.ts:58-66 | proof helper for the in-place insertion pass: splitting the last entry off commutes with inserting in the middle |
| RecentActivity.InsertLayout | src/store/index.ts:58-66 | an array laid out as one insertion pass leaves it is the insertion |
| RecentActivity.SortInPlace | src/store/index.ts:58-66 | the array after the sort is the list sorted by time |
| RecentActivity.InsertAt | src/store/index.ts:58-66 | one insertion pass leaves the prefix with one more entry inserted and the rest unchanged |
| RecentActivity.Appended | src/store/index.ts:67-70 | for a new entity: at most the four latest entries, then the visit |
| RecentActivity.RetimeAndSort | src/store/index.ts:56-66 | the found entry takes the visit's time and the list is sorted by time |
| RecentActivity.DropOldest | src/store/index.ts:68 | the `shift` loop keeps the last four entries, or all of them when there are at most four |
| RecentActivity.RevisitRetimes | src/store/index.ts:55-66 | revisiting a listed entity keeps the length, sorts by time, keeps the other entries, and holds the re-timed entry |
| VuexStore.InitialState | src/store/index.ts:10-48 | empty history, activity as stored, no user, signed out, tree not refreshed; the licence, editor IRI and saved entity are read from local storage |
| VuexStore.SavedEntityNotRestored | src/store/index.ts:21 | a saved entity stored by the store is not read back at start-up |
| VuexStore.RestoredStateReadsBack | src/store/index.ts:104-121 | with the corrected key, a new store reads back the licence, editor IRI and saved entity last written |
| VuexStore.FiltersStripped | src/store/index.ts:81-91 | schemes and sort options are kept; every type and status entry is stripped |
| VuexStore.Store.constructor | src/store/index.ts:10-48 | the initial state over the given storage |
| VuexStore.Store.UpdateRecentLocalActivity | src/store/index.ts:50-74 | the stored list becomes the visited list and the state holds the same list |
| VuexStore.Store.UpdateHistory | src/store/index.ts:75-80 | the history becomes the item followed by the old history without its concept |
| VuexStore.Store.UpdateFilterOptions | src/store/index.ts:81-91 | the filter options become the stripped filters |
| VuexStore.Store.UpdateQuickFiltersStatus | src/store/index.ts:92-94 | one key of the quick-filter map is set |
| VuexStore.Store.UpdateRefreshTree | src/store/index.ts:125-127 | the refresh flag is negated |
| VuexStore.Store.RefreshTreeTwice | src/store/index.ts:125-127 | two refreshes leave the state as it was |
| VuexStore.Store.UpdateHistoryTwice | src/store/index.ts:75-80 | two identical history updates equal one |
| VuexStore.Store.UpdateCurrentUser | src/store/index.ts:95-97 | sets the user |
| VuexStore.Store.UpdateIsLoggedIn | src/store/index.ts:98-100 | sets the signed-in flag |
| VuexStore.Store.UpdateSelectedFilters | src/store/index.ts:101-103 | sets the selected filters |
| VuexStore.Store.UpdateSnomedLicenseAccepted | src/store/index.ts:104-107 | sets the licence and stores it under its key |
| VuexStore.Store.UpdateEditorIri | src/store/index.ts:108-111 | sets the editor IRI and stores it under its key |
| VuexStore.Store.UpdateSnomedReturnUrl | src/store/index.ts:112-114 | sets the return URL |
| VuexStore.Store.UpdateAuthReturnUrl | src/store/index.ts:115-117 | sets the return URL |
| VuexStore.Store.UpdateEditorSavedEntity | src/store/index.ts:118-121 | sets the saved entity and stores it under `editorSavedEntity` |
| VuexStore.Store.UpdateFilterDefaults | src/store/index.ts:122-124 | sets the filter defaults |
| VuexStore.Store.UpdateCreatorInvalidEntity | src/store/index.ts:128-130 | sets the flag |
| VuexStore.Store.UpdateCreatorValidity | src/store/index.ts:131-133 | sets the validity list |
| VuexStore.Store.UpdateEditorInvalidEntity | src/store/index.ts:134-136 | sets the flag |
| VuexStore.Store.UpdateEditorValidity | src/store/index.ts:137-139 | sets the validity list |
| VuexStore.Store.LogoutCurrentUser | src/store/index.ts:142-154 | returns the service's response; on status 200 the user becomes null and the flag false, otherwise nothing changes |
| VuexStore.Store.AuthenticateCurrentUser | src/store/index.ts:177-196 | authenticated iff status 200 with a user, which is then stored and flagged as signed in; otherwise a logout follows, with its own outcome |
| LegacyStore.InitialState | front-end-vue/src/store/index.ts:11-30 | empty history and blocked IRIs, no user, signed out; licence, editor IRI and saved entity read from local storage |
| LegacyStore.FiltersStripped | front-end-vue/src/store/index.ts:41-51 | schemes kept; every type and status entry stripped |
| LegacyStore.SavedEntityNotRestored | front-end-vue/src/store/index.ts:17 | a saved entity stored by the store is not read back at start-up |
| LegacyStore.RestoredStateReadsBack | front-end-vue/src/store/index.ts:64-73 | with the corrected key, a new store reads back the licence, editor IRI and saved entity last written |
| LegacyStore.Store.constructor | front-end-vue/src/store/index.ts:11-30 | the initial state over the given storage |
| LegacyStore.Store.UpdateBlockedIris | front-end-vue/src/store/index.ts:32-34 | sets the blocked IRIs |
| LegacyStore.Store.UpdateHistory | front-end-vue/src/store/index.ts:35-40 | the history becomes the item followed by the old history without its concept |
| LegacyStore.Store.UpdateFilterOptions | front-end-vue/src/store/index.ts:41-51 | the filter options become the stripped filters |
| LegacyStore.Store.UpdateSelectedFilters | front-end-vue/src/store/index.ts:52-54 | sets the selected filters |
| LegacyStore.Store.UpdateQuickFiltersStatus | front-end-vue/src/store/index.ts:55-57 | one key of the quick-filter map is set |
| LegacyStore.Store.UpdateCurrentUser | front-end-vue/src/store/index.ts:58-60 | sets the user |
| LegacyStore.Store.UpdateIsLoggedIn | front-end-vue/src/store/index.ts:61-63 | sets the signed-in flag |
| LegacyStore.Store.UpdateSnomedLicenseAccepted | front-end-vue/src/store/index.ts:64-67 | sets the licence and stores it |
| LegacyStore.Store.UpdateEditorIri | front-end-vue/src/store/index.ts:68-70 | stores the IRI; the state does not change |
| LegacyStore.Store.UpdateEditorSavedEntity | front-end-vue/src/store/index.ts:71-73 | stores the entity; the state does not change |
| LegacyStore.Store.LogoutCurrentUser | front-end-vue/src/store/index.ts:80-92 | returns the service's response; on status 200 the user becomes null and the flag false, otherwise nothing changes |
| LegacyStore.Store.AuthenticateCurrentUser | front-end-vue/src/store/index.ts:93-112 | authenticated iff status 200 with a user, which is then stored and flagged; otherwise a logout follows, with its own outcome |

## Left out

- **Numbers:** JavaScript numbers are modelled as unbounded integers. Floating point and `NaN` are not modelled.
- **The object model:**
  - arrays have no `length` or index keys among their named keys;
  - prototypes and getters are not modelled.
- **Closed heaps:** a heap is assumed closed (every reference points to an existing object). An object from outside the heap cannot arise in the model.
- **Logging:** `console.log` and the logger service calls are not modelled. They change no state.
- **Serialisation:**
  - JSON parsing and serialisation, `Date` objects and the string encoding of local storage are not modelled;
  - the stored recent activity is kept as a decoded list in its own field;
  - times are integers (milliseconds).
- **Asynchrony:**
  - the authentication service's replies are parameters;
  - the forced logout inside `authenticateCurrentUser` is not awaited in the source, so its effect is modelled as if it completed before the action returns.
- **Value-typed data:**
  - `VuexStore.Store.UpdateFilterOptions` and `LegacyStore.Store.UpdateFilterOptions` model the filter entries as values, so the in-place deletes on the caller's objects and any aliasing between them are not captured;
  - `editorSavedEntity`, selected filters and filter defaults are plain values;
  - the saved entity is a string.
- **Constant state fields:** `tagSeverityMatches`, `textDefinitionStartExpanded` and `arrayObjectNameListboxWithLabelStartExpanded` have no mutation and are not modelled.
- **Actions not modelled:** `fetchFilterSettings` and `fetchBlockedIris` call remote services. They only commit mutations that are modelled.
- **EditorMethods.AddToShape:** requires the shape to have its own `group` array, other than `shapeToAdd.group`, which must be an array. The other cases are these:
  - a shape without `group`: the first iteration only rebinds the local `shape` to `shapeToAdd`, so the caller's shape is never changed. Every later iteration pushes onto `shapeToAdd.group`, the array being iterated, so with two or more groups the loop never ends (`EditorMethods.AddToEmptyShapeNeverEnds`). This is the only case `getShapesCombined` produces, since it always passes `{}`; see Findings;
  - a shape whose `group` is the array being iterated: the same endless loop;
  - a `group` that is not an array: the source throws at the `for ... of` or at `push`, and the model does not cover that.
- **QueryBuilderProps.KidsAppendInOrder:** proved only when every object-valued leaf sits under `property`/`match` (`ObjectsPushed`) and every tree value is an object of the caller. If a leaf object is stored under another key, later siblings can descend into it and write there (`QueryBuilderExamples.InputValueWritten`). One input object reached from two places could then lead to the same array twice. The fixture tree meets the condition (`QueryBuilderExamples.FixtureObjectsPushed`).
- **QueryBuilderProps.KidsAppendFirst:** a step of `KidsAppendInOrder`, with the same condition.
- **QueryBuilderProps.KidsAppendNext:** a step of `KidsAppendInOrder`, with the same condition.
- **QueryBuilderProps.AppendFirst:** a step of `KidsAppendInOrder`, with the same condition.
- **QueryBuilderProps.AppendStep:** a step of `KidsAppendInOrder`, with the same condition.
- **QueryBuilderProps.VisitAppendsOne:** a step of `KidsAppendInOrder`, with the same condition.
- **QueryBuilderProps.EmptyStaysEmpty:** proved for trees whose values are all objects older than the pushed `{}`. That always holds for the caller's objects.
- **QueryBuilderProps.LastLeafWins:** proved only under `ObjectsPushed`, which excludes the trees that write into the input.
- **QueryBuilderProps.KidsLast:** proved only under `ObjectsPushed`, which excludes the trees that write into the input.
- **QueryBuilderProps.KidsForward:** proved only under `ObjectsPushed`, which excludes the trees that write into the input.
- **QueryBuilderProps.VisitForward:** proved only under `ObjectsPushed`, which excludes the trees that write into the input.
- **QueryBuilderProps.BuildLeavesHeap:** proved only under `ObjectsPushed`, which excludes the trees that write into the input.
- **QueryBuilderProps.ClauseForward:** proved only when an object-valued leaf is not written under a named key, the clause-level form of `ObjectsPushed`.
- **EditorMethods.ProcessComponentType:** the steps-group IRI is taken as `http://endhealth.info/im#stepsGroup`. The constant's definition is not part of this model.
- **RecentActivity.SortByTime:** the engine's sort is only known to be stable. The reference is the stable insertion sort, so any stable sort gives the same list.
- **Other EditorMethods.ts functions:** `getShape`, `getShapesCombined`, `processShape`, `setSteps` and `fetchEntity` call the entity service or Vue reactivity and are not modelled.

## Findings

| source | as written | input that shows it | evidently intended | confidence | as-written member | corrected member |
|---|---|---|---|---|---|---|
| src/views/EditorMethods.ts:36 | `shape.group.includes(arrowFunction)` compares the groups with a function object that was just created, so it is always false and every group is appended | a shape whose groups hold one named `n`, merged with a shape holding another group named `n` | skip a group whose name is already present (`some` instead of `includes`) | not executed | EditorMethods.AddToShapeDuplicatesNames | EditorMethods.MergeByName |
| src/store/index.ts:21 | the initial state reads the saved entity from `editorUpdatedEntity`, but `updateEditorSavedEntity` writes it to `editorSavedEntity` (line 120) | save an entity, then start a new store over the same storage | read back the key that is written | not executed | VuexStore.SavedEntityNotRestored | VuexStore.RestoredStateReadsBack |
| front-end-vue/src/store/index.ts:17 | the older store has the same mismatch: it reads the saved entity from `editorUpdatedEntity`, but `updateEditorSavedEntity` writes it to `editorSavedEntity` (line 72) | save an entity, then start a new store over the same storage | read back the key that is written | not executed | LegacyStore.SavedEntityNotRestored | LegacyStore.RestoredStateReadsBack |
| src/views/EditorMethods.ts:39 | on a shape without `group`, `shape = shapeToAdd` only rebinds the local variable; every later iteration then pushes onto the array it iterates. `getShapesCombined` (lines 26-29) always passes `{}`, so it never merges anything, and it never ends on a type shape with two or more groups | `addToShape({}, s)` where `s.group` holds two groups | give the empty shape a group array and append the groups to it | not executed | EditorMethods.AddToEmptyShapeNeverEnds | EditorMethods.AddToShapeOrStart |
