/** The list of recently visited entities kept in local storage, and the
    update `updateRecentLocalActivity` makes to it: a visit to an entity
    already in the list moves its time stamp and re-sorts the list by time;
    a visit to a new entity drops the oldest entries so that the list keeps
    at most five. */
module RecentActivity {

  /** A visit: the entity, the application it was visited in, what was done
      and when, as milliseconds since the epoch. */
  datatype ActivityItem = ActivityItem(iri: string, app: string, action: string, dateTime: int)

  /** The number of entries `updateRecentLocalActivity` keeps before it
      appends a new one. */
  const KeptBeforeAppend := 4

  /** `activityItem.iri === item.iri && activityItem.app === item.app`. */
  predicate SameEntity(a: ActivityItem, item: ActivityItem) {
    a.iri == item.iri && a.app == item.app
  }

  /** `activity.findIndex(...)` for the entry of the same entity. */
  function FindIndex(activity: seq<ActivityItem>, item: ActivityItem): (r: int)
    ensures -1 <= r < |activity|
    ensures r == -1 <==> forall i :: 0 <= i < |activity| ==> !SameEntity(activity[i], item)
    ensures r != -1 ==> SameEntity(activity[r], item) && forall i :: 0 <= i < r ==> !SameEntity(activity[i], item)
  {
    if activity == [] then -1
    else if SameEntity(activity[0], item) then 0
    else
      var r := FindIndex(activity[1..], item);
      assert forall i :: 1 <= i < |activity| ==> activity[i] == activity[1..][i - 1];
      if r == -1 then -1 else r + 1
  }

  // ---------------------------------------------------------------------------
  // Sorting by time
  // ---------------------------------------------------------------------------

  predicate SortedByTime(s: seq<ActivityItem>) {
    forall i, j :: 0 <= i < j < |s| ==> s[i].dateTime <= s[j].dateTime
  }

  /** `x` inserted into `s` after every entry that is not later than it. */
  function Insert(x: ActivityItem, s: seq<ActivityItem>): (r: seq<ActivityItem>)
    ensures |r| == |s| + 1
  {
    if s == [] then [x]
    else if s[|s| - 1].dateTime > x.dateTime then Insert(x, s[..|s| - 1]) + [s[|s| - 1]]
    else s + [x]
  }

  /** The list sorted by `dateTime` with the comparator of
      `updateRecentLocalActivity`, keeping entries of equal time in their
      order (`Array.prototype.sort` is stable). */
  function SortByTime(s: seq<ActivityItem>): (r: seq<ActivityItem>)
    ensures |r| == |s|
  {
    if s == [] then [] else Insert(s[|s| - 1], SortByTime(s[..|s| - 1]))
  }

  lemma {:induction false} InsertPermutes(x: ActivityItem, s: seq<ActivityItem>)
    ensures multiset(Insert(x, s)) == multiset(s) + multiset{x}
  {
    if s != [] && s[|s| - 1].dateTime > x.dateTime {
      InsertPermutes(x, s[..|s| - 1]);
      assert s == s[..|s| - 1] + [s[|s| - 1]];
    }
  }

  lemma {:induction false} InsertSorted(x: ActivityItem, s: seq<ActivityItem>)
    requires SortedByTime(s)
    ensures SortedByTime(Insert(x, s))
  {
    if s != [] && s[|s| - 1].dateTime > x.dateTime {
      var init := s[..|s| - 1];
      var last := s[|s| - 1];
      InsertSorted(x, init);
      InsertPermutes(x, init);
      var r := Insert(x, init);
      forall i | 0 <= i < |r|
        ensures r[i].dateTime <= last.dateTime
      {
        assert r[i] in multiset(r);
        if r[i] != x {
          assert r[i] in multiset(init);
          var k :| 0 <= k < |init| && init[k] == r[i];
          assert s[k] == r[i];
        }
      }
    }
  }

  /** Sorting gives a list sorted by time that holds the same entries. */
  lemma {:induction false} SortByTimeSortsAndPermutes(s: seq<ActivityItem>)
    ensures SortedByTime(SortByTime(s))
    ensures multiset(SortByTime(s)) == multiset(s)
  {
    if s != [] {
      SortByTimeSortsAndPermutes(s[..|s| - 1]);
      InsertSorted(s[|s| - 1], SortByTime(s[..|s| - 1]));
      InsertPermutes(s[|s| - 1], SortByTime(s[..|s| - 1]));
      assert s == s[..|s| - 1] + [s[|s| - 1]];
    }
  }

  /** `x` goes after the entries that are not later than it and before the
      later ones that end the list. */
  lemma {:induction false} InsertPosition(x: ActivityItem, s: seq<ActivityItem>, j: nat)
    requires j <= |s| && (j > 0 ==> s[j - 1].dateTime <= x.dateTime)
    requires forall k :: j <= k < |s| ==> s[k].dateTime > x.dateTime
    ensures Insert(x, s) == s[..j] + [x] + s[j..]
    decreases |s|
  {
    if j < |s| {
      var init := s[..|s| - 1];
      var last := s[|s| - 1];
      assert forall k :: j <= k < |init| ==> init[k] == s[k];
      assert j > 0 ==> init[j - 1] == s[j - 1];
      InsertPosition(x, init, j);
      assert Insert(x, s) == Insert(x, init) + [last];
      SplitLast(s, j);
    } else {
      assert s[..j] == s;
    }
  }

  lemma SplitLast(s: seq<ActivityItem>, j: nat)
    requires j < |s|
    ensures forall x :: s[..|s| - 1][..j] + [x] + s[..|s| - 1][j..] + [s[|s| - 1]] == s[..j] + [x] + s[j..]
  {
    forall x
      ensures s[..|s| - 1][..j] + [x] + s[..|s| - 1][j..] + [s[|s| - 1]] == s[..j] + [x] + s[j..]
    {
      assert s[..|s| - 1][..j] == s[..j];
      assert s[..|s| - 1][j..] + [s[|s| - 1]] == s[j..];
    }
  }

  /** A sequence laid out as the insertion sort leaves the array is the
      insertion. */
  lemma InsertLayout(x: ActivityItem, s: seq<ActivityItem>, j: nat, r: seq<ActivityItem>)
    requires j <= |s| && (j > 0 ==> s[j - 1].dateTime <= x.dateTime)
    requires forall k :: j <= k < |s| ==> s[k].dateTime > x.dateTime
    requires |r| == |s| + 1 && r[j] == x
    requires forall k :: 0 <= k < j ==> r[k] == s[k]
    requires forall k :: j < k < |r| ==> r[k] == s[k - 1]
    ensures r == Insert(x, s)
  {
    InsertPosition(x, s, j);
    var inserted := Insert(x, s);
    forall k | 0 <= k < |r|
      ensures r[k] == inserted[k]
    {
      if k > j {
        assert inserted[k] == s[j..][k - j - 1];
      }
    }
  }

  /** `activity.sort(...)`, in place, as an insertion sort. */
  method SortInPlace(a: array<ActivityItem>)
    modifies a
    ensures a[..] == SortByTime(old(a[..]))
  {
    for i := 0 to a.Length
      invariant a[..i] == SortByTime(old(a[..])[..i])
      invariant a[i..] == old(a[..])[i..]
    {
      ghost var before := a[..];
      InsertAt(a, i);
      assert old(a[..])[..i + 1] == old(a[..])[..i] + [before[i]];
      assert a[i + 1..] == before[i + 1..];
    }
    assert a[..a.Length] == a[..] && old(a[..])[..a.Length] == old(a[..]);
  }

  /** One pass of the insertion sort: `a[i]` moves left past the entries of
      `a[..i]` that are later than it. */
  method InsertAt(a: array<ActivityItem>, i: nat)
    requires i < a.Length
    modifies a
    ensures a[..i + 1] == Insert(old(a[i]), old(a[..i]))
    ensures a[i + 1..] == old(a[i + 1..])
  {
    var key := a[i];
    ghost var sorted := a[..i];
    var j := i;
    while j > 0 && a[j - 1].dateTime > key.dateTime
      invariant 0 <= j <= i
      invariant forall k :: 0 <= k < j ==> a[k] == sorted[k]
      invariant forall k :: j < k <= i ==> a[k] == sorted[k - 1]
      invariant forall k :: i < k < a.Length ==> a[k] == old(a[k])
      invariant forall k :: j <= k < i ==> sorted[k].dateTime > key.dateTime
    {
      a[j] := a[j - 1];
      j := j - 1;
    }
    a[j] := key;
    InsertLayout(key, sorted, j, a[..i + 1]);
    assert a[i + 1..] == old(a[i + 1..]);
  }

  // ---------------------------------------------------------------------------
  // updateRecentLocalActivity
  // ---------------------------------------------------------------------------

  /** The stored list after a visit to an entity it does not hold: at most
      the four latest entries, then the visit. */
  function Appended(activity: seq<ActivityItem>, item: ActivityItem): (r: seq<ActivityItem>)
    ensures |r| - 1 == (if |activity| > KeptBeforeAppend then KeptBeforeAppend else |activity|)
    ensures r[|r| - 1] == item
    ensures r[..|r| - 1] == activity[|activity| - (|r| - 1)..]
  {
    var kept := if |activity| > KeptBeforeAppend then activity[|activity| - KeptBeforeAppend..] else activity;
    assert (kept + [item])[..|kept|] == kept;
    kept + [item]
  }

  /** The revisit branch of `updateRecentLocalActivity`: the entry at
      `found` takes the new time, then the list is sorted in place. */
  method RetimeAndSort(activity: seq<ActivityItem>, found: nat, dateTime: int) returns (r: seq<ActivityItem>)
    requires found < |activity|
    ensures r == SortByTime(activity[found := activity[found].(dateTime := dateTime)])
  {
    var a := new ActivityItem[|activity|](i requires 0 <= i < |activity| => activity[i]);
    a[found] := a[found].(dateTime := dateTime);
    assert a[..] == activity[found := activity[found].(dateTime := dateTime)];
    SortInPlace(a);
    r := a[..];
  }

  /** `while (activity.length > 4) activity.shift()`. */
  method DropOldest(activity: seq<ActivityItem>) returns (kept: seq<ActivityItem>)
    ensures kept == if |activity| > KeptBeforeAppend then activity[|activity| - KeptBeforeAppend..] else activity
  {
    kept := activity;
    while |kept| > KeptBeforeAppend
      invariant |kept| <= |activity| && kept == activity[|activity| - |kept|..]
      invariant |activity| > KeptBeforeAppend ==> |kept| >= KeptBeforeAppend
      invariant |activity| <= KeptBeforeAppend ==> kept == activity
      decreases |kept|
    {
      kept := kept[1..];
    }
  }

  /** The stored list after a visit. */
  function Visited(activity: seq<ActivityItem>, item: ActivityItem): seq<ActivityItem> {
    var found := FindIndex(activity, item);
    if found != -1 then SortByTime(activity[found := activity[found].(dateTime := item.dateTime)])
    else Appended(activity, item)
  }

  /** A visit to an entity already listed keeps the length, moves that
      entry's time stamp to the visit's, and leaves the list sorted by time. */
  lemma RevisitRetimes(activity: seq<ActivityItem>, item: ActivityItem)
    requires FindIndex(activity, item) != -1
    ensures var found := FindIndex(activity, item); var r := Visited(activity, item);
      && |r| == |activity|
      && SortedByTime(r)
      && multiset(r) == multiset(activity[found := activity[found].(dateTime := item.dateTime)])
      && activity[found].(dateTime := item.dateTime) in r
  {
    var found := FindIndex(activity, item);
    var retimed := activity[found := activity[found].(dateTime := item.dateTime)];
    SortByTimeSortsAndPermutes(retimed);
    assert retimed[found] in multiset(retimed);
  }
}
