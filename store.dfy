/** The application's Vuex store: its state record, the mutations that
    update it in place, and the state effects of the sign-out and
    authentication actions. Local storage is a field of the store; the
    recently visited list is kept there already decoded. */
module VuexStore {
  import opened Wrappers
  import opened StoreCommon
  import opened RecentActivity

  /** `state.filterOptions`. */
  datatype FilterOptions = FilterOptions(
    status: seq<Entry>,
    schemes: seq<Entry>,
    types: seq<Entry>,
    sortFields: seq<Entry>,
    sortDirections: seq<Entry>)

  /** The fields of `state` the mutations write. */
  datatype State = State(
    history: seq<HistoryItem>,
    recentLocalActivity: seq<ActivityItem>,
    currentUser: CurrentUser,
    filterDefaults: Json,
    isLoggedIn: bool,
    snomedLicenseAccepted: Option<string>,
    editorIri: Option<string>,
    snomedReturnUrl: string,
    authReturnUrl: string,
    editorSavedEntity: Option<string>,
    filterOptions: FilterOptions,
    selectedFilters: Json,
    quickFiltersStatus: map<string, bool>,
    creatorInvalidEntity: bool,
    creatorValidity: seq<Validity>,
    editorInvalidEntity: bool,
    editorValidity: seq<Validity>,
    refreshTree: bool)

  /** The local storage keys the store reads and writes. */
  const LicenseKey := "snomedLicenseAccepted"
  const EditorIriKey := "editorSelectedIri"
  const SavedEntityKey := "editorSavedEntity"
  const SavedEntityReadKey := "editorUpdatedEntity"

  const NoFilterOptions := FilterOptions([], [], [], [], [])

  const NoSelectedFilters := JObj(map[
    "status" := JArr([]), "schemes" := JArr([]), "types" := JArr([]),
    "sortField" := JStr(""), "sortDirection" := JStr("")])

  /** The state the store starts with, reading three of its fields from
      local storage. The saved entity is read from a key that no mutation
      writes. */
  function InitialState(storage: map<string, string>, activity: seq<ActivityItem>): (r: State)
    ensures r.history == [] && r.recentLocalActivity == activity
    ensures r.currentUser == NoUserYet && !r.isLoggedIn && !r.refreshTree
    ensures r.snomedLicenseAccepted == StoredItem(storage, LicenseKey)
    ensures r.editorIri == StoredItem(storage, EditorIriKey)
    ensures r.editorSavedEntity == StoredItem(storage, SavedEntityReadKey)
  {
    State(
      history := [],
      recentLocalActivity := activity,
      currentUser := NoUserYet,
      filterDefaults := JObj(map[]),
      isLoggedIn := false,
      snomedLicenseAccepted := StoredItem(storage, LicenseKey),
      editorIri := StoredItem(storage, EditorIriKey),
      snomedReturnUrl := "",
      authReturnUrl := "",
      editorSavedEntity := StoredItem(storage, SavedEntityReadKey),
      filterOptions := NoFilterOptions,
      selectedFilters := NoSelectedFilters,
      quickFiltersStatus := map[],
      creatorInvalidEntity := false,
      creatorValidity := [],
      editorInvalidEntity := false,
      editorValidity := [],
      refreshTree := false)
  }

  /** The saved entity written by `updateEditorSavedEntity` is not what a
      fresh store reads back: from empty storage, the store starts with no
      saved entity. */
  lemma SavedEntityNotRestored(entity: string, activity: seq<ActivityItem>)
    ensures InitialState(map[SavedEntityKey := entity], activity).editorSavedEntity == None
  {
  }

  /** The state the store evidently means to start with: the saved entity is
      read from the key `updateEditorSavedEntity` writes. */
  function RestoredState(storage: map<string, string>, activity: seq<ActivityItem>): State {
    InitialState(storage, activity).(editorSavedEntity := StoredItem(storage, SavedEntityKey))
  }

  /** Each of the three persisted settings that a mutation writes is read
      back by a fresh store. */
  lemma RestoredStateReadsBack(storage: map<string, string>, activity: seq<ActivityItem>, license: string, iri: string, entity: string)
    ensures var written := storage[LicenseKey := license][EditorIriKey := iri][SavedEntityKey := entity];
      var r := RestoredState(written, activity);
      && r.snomedLicenseAccepted == Some(license)
      && r.editorIri == Some(iri)
      && r.editorSavedEntity == Some(entity)
  {
  }

  /** `filters` after `updateFilterOptions` has stripped its types and its
      statuses. */
  function FiltersStripped(filters: FilterOptions): (r: FilterOptions)
    ensures r.schemes == filters.schemes && r.sortFields == filters.sortFields && r.sortDirections == filters.sortDirections
    ensures |r.types| == |filters.types| && |r.status| == |filters.status|
    ensures forall i :: 0 <= i < |r.types| ==> r.types[i] == Stripped(filters.types[i])
    ensures forall i :: 0 <= i < |r.status| ==> r.status[i] == Stripped(filters.status[i])
  {
    filters.(types := StrippedAll(filters.types), status := StrippedAll(filters.status))
  }

  class Store {
    var state: State
    /** Local storage, for the keys that hold strings. */
    var storage: map<string, string>
    /** Local storage's "recentLocalActivity", decoded; an absent key reads
        as the empty list. */
    var storedActivity: seq<ActivityItem>

    constructor(storage0: map<string, string>, activity0: seq<ActivityItem>)
      ensures state == InitialState(storage0, activity0)
      ensures storage == storage0 && storedActivity == activity0
    {
      state := InitialState(storage0, activity0);
      storage := storage0;
      storedActivity := activity0;
    }

    /** `updateRecentLocalActivity`: reads the stored list, revisits or
        appends, and writes the list back to storage and to the state. */
    method UpdateRecentLocalActivity(item: ActivityItem)
      modifies this
      ensures storedActivity == Visited(old(storedActivity), item)
      ensures state == old(state).(recentLocalActivity := storedActivity)
      ensures storage == old(storage)
    {
      var activity := storedActivity;
      var found := FindIndex(activity, item);
      if found != -1 {
        activity := RetimeAndSort(activity, found, item.dateTime);
      } else {
        activity := DropOldest(activity);
        activity := activity + [item];
      }
      storedActivity := activity;
      state := state.(recentLocalActivity := activity);
    }

    /** `updateHistory`. */
    method UpdateHistory(item: HistoryItem)
      modifies this
      ensures state == old(state).(history := HistoryWith(old(state.history), item))
      ensures storage == old(storage) && storedActivity == old(storedActivity)
    {
      var kept := WithoutConcept(state.history, item.conceptName);
      state := state.(history := [item] + kept);
    }

    /** `updateFilterOptions`: strips every type and every status, then
        stores the filters. */
    method UpdateFilterOptions(filters: FilterOptions)
      modifies this
      ensures state == old(state).(filterOptions := FiltersStripped(filters))
      ensures storage == old(storage) && storedActivity == old(storedActivity)
    {
      var types := StripEach(filters.types);
      var status := StripEach(filters.status);
      state := state.(filterOptions := filters.(types := types, status := status));
    }

    /** `updateQuickFiltersStatus`: `Map.set(key, value)`. */
    method UpdateQuickFiltersStatus(key: string, value: bool)
      modifies this
      ensures state == old(state).(quickFiltersStatus := old(state.quickFiltersStatus)[key := value])
      ensures storage == old(storage) && storedActivity == old(storedActivity)
    {
      state := state.(quickFiltersStatus := state.quickFiltersStatus[key := value]);
    }

    /** `updateRefreshTree`. */
    method UpdateRefreshTree()
      modifies this
      ensures state == old(state).(refreshTree := !old(state.refreshTree))
      ensures storage == old(storage) && storedActivity == old(storedActivity)
    {
      state := state.(refreshTree := !state.refreshTree);
    }

    method UpdateCurrentUser(user: CurrentUser)
      modifies this
      ensures state == old(state).(currentUser := user)
      ensures storage == old(storage) && storedActivity == old(storedActivity)
    {
      state := state.(currentUser := user);
    }

    method UpdateIsLoggedIn(status: bool)
      modifies this
      ensures state == old(state).(isLoggedIn := status)
      ensures storage == old(storage) && storedActivity == old(storedActivity)
    {
      state := state.(isLoggedIn := status);
    }

    method UpdateSelectedFilters(filters: Json)
      modifies this
      ensures state == old(state).(selectedFilters := filters)
      ensures storage == old(storage) && storedActivity == old(storedActivity)
    {
      state := state.(selectedFilters := filters);
    }

    /** `updateSnomedLicenseAccepted`: the state and local storage. */
    method UpdateSnomedLicenseAccepted(status: string)
      modifies this
      ensures state == old(state).(snomedLicenseAccepted := Some(status))
      ensures storage == old(storage)[LicenseKey := status] && storedActivity == old(storedActivity)
    {
      state := state.(snomedLicenseAccepted := Some(status));
      storage := storage[LicenseKey := status];
    }

    /** `updateEditorIri`: the state and local storage. */
    method UpdateEditorIri(iri: string)
      modifies this
      ensures state == old(state).(editorIri := Some(iri))
      ensures storage == old(storage)[EditorIriKey := iri] && storedActivity == old(storedActivity)
    {
      state := state.(editorIri := Some(iri));
      storage := storage[EditorIriKey := iri];
    }

    method UpdateSnomedReturnUrl(url: string)
      modifies this
      ensures state == old(state).(snomedReturnUrl := url)
      ensures storage == old(storage) && storedActivity == old(storedActivity)
    {
      state := state.(snomedReturnUrl := url);
    }

    method UpdateAuthReturnUrl(url: string)
      modifies this
      ensures state == old(state).(authReturnUrl := url)
      ensures storage == old(storage) && storedActivity == old(storedActivity)
    {
      state := state.(authReturnUrl := url);
    }

    /** `updateEditorSavedEntity`: the state and local storage, under a key
        other than the one the initial state is read from. */
    method UpdateEditorSavedEntity(entity: string)
      modifies this
      ensures state == old(state).(editorSavedEntity := Some(entity))
      ensures storage == old(storage)[SavedEntityKey := entity] && storedActivity == old(storedActivity)
    {
      state := state.(editorSavedEntity := Some(entity));
      storage := storage[SavedEntityKey := entity];
    }

    method UpdateFilterDefaults(defaults: Json)
      modifies this
      ensures state == old(state).(filterDefaults := defaults)
      ensures storage == old(storage) && storedActivity == old(storedActivity)
    {
      state := state.(filterDefaults := defaults);
    }

    method UpdateCreatorInvalidEntity(invalid: bool)
      modifies this
      ensures state == old(state).(creatorInvalidEntity := invalid)
      ensures storage == old(storage) && storedActivity == old(storedActivity)
    {
      state := state.(creatorInvalidEntity := invalid);
    }

    method UpdateCreatorValidity(data: seq<Validity>)
      modifies this
      ensures state == old(state).(creatorValidity := data)
      ensures storage == old(storage) && storedActivity == old(storedActivity)
    {
      state := state.(creatorValidity := data);
    }

    method UpdateEditorInvalidEntity(invalid: bool)
      modifies this
      ensures state == old(state).(editorInvalidEntity := invalid)
      ensures storage == old(storage) && storedActivity == old(storedActivity)
    {
      state := state.(editorInvalidEntity := invalid);
    }

    method UpdateEditorValidity(data: seq<Validity>)
      modifies this
      ensures state == old(state).(editorValidity := data)
      ensures storage == old(storage) && storedActivity == old(storedActivity)
    {
      state := state.(editorValidity := data);
    }

    /** Toggling the tree twice restores the state. */
    method RefreshTreeTwice()
      modifies this
      ensures state == old(state) && storage == old(storage) && storedActivity == old(storedActivity)
    {
      UpdateRefreshTree();
      UpdateRefreshTree();
    }

    /** Committing the same history item twice leaves the history as
        committing it once does. */
    method UpdateHistoryTwice(item: HistoryItem)
      modifies this
      ensures state == old(state).(history := HistoryWith(old(state.history), item))
      ensures storage == old(storage) && storedActivity == old(storedActivity)
    {
      UpdateHistory(item);
      UpdateHistory(item);
      HistoryWithTwice(old(state.history), item);
    }

    /** `logoutCurrentUser`, once the sign-out request has resolved with
        `res`: on status 200 the user is signed out; the action resolves with
        `res` whatever its status. */
    method LogoutCurrentUser(res: AuthResponse) returns (result: AuthResponse)
      modifies this
      ensures result == res
      ensures res.status == 200 ==> state == old(state).(currentUser := SignedOut, isLoggedIn := false)
      ensures res.status != 200 ==> state == old(state)
      ensures storage == old(storage) && storedActivity == old(storedActivity)
    {
      if res.status == 200 {
        UpdateCurrentUser(SignedOut);
        UpdateIsLoggedIn(false);
        result := res;
      } else {
        result := res;
      }
    }

    /** `authenticateCurrentUser`, once the request for the signed-in user
        has resolved with `res`; `signOut` is what the sign-out request of
        the forced logout resolves with. */
    method AuthenticateCurrentUser(res: AuthResponse, signOut: AuthResponse) returns (authenticated: bool)
      modifies this
      ensures authenticated <==> res.status == 200 && res.user.Some?
      ensures authenticated ==> state == old(state).(isLoggedIn := true, currentUser := SignedIn(res.user.value))
      ensures !authenticated && signOut.status == 200 ==> state == old(state).(currentUser := SignedOut, isLoggedIn := false)
      ensures !authenticated && signOut.status != 200 ==> state == old(state)
      ensures storage == old(storage) && storedActivity == old(storedActivity)
    {
      authenticated := false;
      if res.status == 200 && res.user.Some? {
        UpdateIsLoggedIn(true);
        UpdateCurrentUser(SignedIn(res.user.value));
        authenticated := true;
      } else {
        var _ := LogoutCurrentUser(signOut);
      }
    }
  }
}
