/** Values and list operations shared by the two Vuex stores: the browsing
    history, the filter entries whose tree-only fields are stripped, the
    signed-in user and the responses of the authentication service. */
module StoreCommon {
  import opened Wrappers

  /** A JSON value, for the fields the stores hold without looking inside. */
  datatype Json =
    | JNull
    | JBool(b: bool)
    | JNum(n: int)
    | JStr(s: string)
    | JArr(elems: seq<Json>)
    | JObj(fields: map<string, Json>)

  /** A visited page of the history. */
  datatype HistoryItem = HistoryItem(url: string, conceptName: string, view: string)

  /** A user as the authentication service describes one. */
  datatype User = User(username: string, firstName: string, lastName: string, email: string, password: string, avatar: string)

  /** `state.currentUser`: `{}` before anyone signs in, `null` after a sign-out. */
  datatype CurrentUser = NoUserYet | SignedOut | SignedIn(user: User)

  /** The alert the authentication service resolves with; `user` is absent
      (undefined or null) unless a user is signed in. */
  datatype AuthResponse = AuthResponse(status: int, message: string, user: Option<User>)

  /** An entry of the creator's or the editor's validity list. */
  datatype Validity = Validity(key: string, valid: bool)

  /** `localStorage.getItem(key)`: the stored string, or null. */
  function StoredItem(storage: map<string, string>, key: string): (r: Option<string>)
    ensures r.Some? <==> key in storage
    ensures r.Some? ==> r.value == storage[key]
  {
    if key in storage then Some(storage[key]) else None
  }

  /** An entry of a filter list (a status, a scheme or a type), as an object's
      own keys. */
  type Entry = map<string, Json>

  // ---------------------------------------------------------------------------
  // updateHistory
  // ---------------------------------------------------------------------------

  /** `history.filter(el => el.conceptName !== name)`. */
  function WithoutConcept(history: seq<HistoryItem>, name: string): (r: seq<HistoryItem>)
    ensures |r| <= |history|
  {
    if history == [] then []
    else (if history[0].conceptName != name then [history[0]] else []) + WithoutConcept(history[1..], name)
  }

  /** The history after `updateHistory(item)`: the item first, then the old
      history without the entries of the item's concept. */
  function HistoryWith(history: seq<HistoryItem>, item: HistoryItem): (r: seq<HistoryItem>)
    ensures |r| >= 1 && r[0] == item
  {
    [item] + WithoutConcept(history, item.conceptName)
  }

  /** Filtering keeps exactly the entries of other concepts. */
  lemma {:induction false} WithoutConceptMembers(history: seq<HistoryItem>, name: string)
    ensures forall x :: x in WithoutConcept(history, name) <==> x in history && x.conceptName != name
  {
    if history != [] {
      WithoutConceptMembers(history[1..], name);
      assert history == [history[0]] + history[1..];
    }
  }

  /** Filtering keeps the order of what it keeps: it distributes over
      concatenation. */
  lemma {:induction false} WithoutConceptAppend(a: seq<HistoryItem>, b: seq<HistoryItem>, name: string)
    ensures WithoutConcept(a + b, name) == WithoutConcept(a, name) + WithoutConcept(b, name)
  {
    if a != [] {
      assert (a + b)[0] == a[0] && (a + b)[1..] == a[1..] + b;
      WithoutConceptAppend(a[1..], b, name);
    } else {
      assert a + b == b;
    }
  }

  /** Filtering twice by the same concept is filtering once. */
  lemma {:induction false} WithoutConceptIdempotent(history: seq<HistoryItem>, name: string)
    ensures WithoutConcept(WithoutConcept(history, name), name) == WithoutConcept(history, name)
  {
    if history != [] {
      var rest := WithoutConcept(history[1..], name);
      WithoutConceptIdempotent(history[1..], name);
      if history[0].conceptName != name {
        WithoutConceptAppend([history[0]], rest, name);
        assert [history[0]][1..] == [];
      } else {
        assert WithoutConcept(history, name) == rest;
      }
    }
  }

  /** Updating the history twice with the same item leaves one entry for its
      concept, as updating once does. */
  lemma HistoryWithTwice(history: seq<HistoryItem>, item: HistoryItem)
    ensures HistoryWith(HistoryWith(history, item), item) == HistoryWith(history, item)
  {
    var once := HistoryWith(history, item);
    assert once[1..] == WithoutConcept(history, item.conceptName);
    assert WithoutConcept(once, item.conceptName) == WithoutConcept(once[1..], item.conceptName);
    WithoutConceptIdempotent(history, item.conceptName);
  }

  /** The new item is the only entry of its concept, and every other entry
      of the old history is still there. */
  lemma HistoryWithEntries(history: seq<HistoryItem>, item: HistoryItem)
    ensures var r := HistoryWith(history, item);
      && (forall i :: 1 <= i < |r| ==> r[i].conceptName != item.conceptName)
      && (forall x :: x in history && x.conceptName != item.conceptName ==> x in r)
      && (forall x :: x in r ==> x == item || x in history)
  {
    var r := HistoryWith(history, item);
    WithoutConceptMembers(history, item.conceptName);
    forall i | 1 <= i < |r|
      ensures r[i].conceptName != item.conceptName
    {
      assert r[i] == r[1..][i - 1];
    }
  }

  /** Every concept occurs at most once. */
  predicate ConceptsUnique(history: seq<HistoryItem>) {
    forall i, j :: 0 <= i < j < |history| ==> history[i].conceptName != history[j].conceptName
  }

  /** Filtering keeps concepts unique. */
  lemma {:induction false} WithoutConceptKeepsUnique(history: seq<HistoryItem>, name: string)
    requires ConceptsUnique(history)
    ensures ConceptsUnique(WithoutConcept(history, name))
  {
    if history != [] {
      var rest := WithoutConcept(history[1..], name);
      assert ConceptsUnique(history[1..]) by {
        forall i, j | 0 <= i < j < |history[1..]|
          ensures history[1..][i].conceptName != history[1..][j].conceptName
        {
          assert history[1..][i] == history[i + 1] && history[1..][j] == history[j + 1];
        }
      }
      WithoutConceptKeepsUnique(history[1..], name);
      WithoutConceptMembers(history[1..], name);
      if history[0].conceptName != name {
        var r := [history[0]] + rest;
        forall i, j | 0 <= i < j < |r|
          ensures r[i].conceptName != r[j].conceptName
        {
          if i == 0 {
            assert r[j] == rest[j - 1] && r[j] in history[1..];
            var k :| 0 <= k < |history[1..]| && history[1..][k] == r[j];
            assert history[k + 1] == r[j];
          } else {
            assert r[i] == rest[i - 1] && r[j] == rest[j - 1];
          }
        }
      }
    }
  }

  /** A history that holds each concept once still does after an update. */
  lemma HistoryWithKeepsUnique(history: seq<HistoryItem>, item: HistoryItem)
    requires ConceptsUnique(history)
    ensures ConceptsUnique(HistoryWith(history, item))
  {
    var r := HistoryWith(history, item);
    WithoutConceptKeepsUnique(history, item.conceptName);
    HistoryWithEntries(history, item);
    forall i, j | 0 <= i < j < |r|
      ensures r[i].conceptName != r[j].conceptName
    {
      if i > 0 {
        assert r[i] == r[1..][i - 1] && r[j] == r[1..][j - 1];
      }
    }
  }

  // ---------------------------------------------------------------------------
  // updateFilterOptions
  // ---------------------------------------------------------------------------

  /** The entry after `delete entry.hasChildren; delete entry.type`. */
  function Stripped(entry: Entry): (r: Entry)
    ensures "hasChildren" !in r && "type" !in r
    ensures forall k :: k in entry && k != "hasChildren" && k != "type" ==> k in r && r[k] == entry[k]
    ensures forall k :: k in r ==> k in entry
  {
    entry - {"hasChildren", "type"}
  }

  function StrippedAll(entries: seq<Entry>): (r: seq<Entry>)
    ensures |r| == |entries|
    ensures forall i :: 0 <= i < |r| ==> r[i] == Stripped(entries[i])
  {
    seq(|entries|, i requires 0 <= i < |entries| => Stripped(entries[i]))
  }

  /** Stripping an entry a second time changes nothing. */
  lemma StrippedAllIdempotent(entries: seq<Entry>)
    ensures StrippedAll(StrippedAll(entries)) == StrippedAll(entries)
  {
    var once := StrippedAll(entries);
    forall i | 0 <= i < |once|
      ensures Stripped(once[i]) == once[i]
    {
      assert forall k :: k in Stripped(once[i]) <==> k in once[i];
    }
  }

  /** The `forEach` loop that strips every entry of a filter list. */
  method StripEach(entries: seq<Entry>) returns (stripped: seq<Entry>)
    ensures stripped == StrippedAll(entries)
  {
    stripped := [];
    for i := 0 to |entries|
      invariant stripped == StrippedAll(entries[..i])
    {
      stripped := stripped + [Stripped(entries[i])];
    }
    assert entries[..|entries|] == entries;
  }
}
