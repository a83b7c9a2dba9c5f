/** The older front end's Vuex store: a smaller state record with the list
    of blocked IRIs, and mutations that update it in place. Its
    `updateEditorIri` and `updateEditorSavedEntity` write only local
    storage. */
module LegacyStore {
  import opened Wrappers
  import opened StoreCommon

  /** `state.filterOptions`. */
  datatype FilterOptions = FilterOptions(status: seq<Entry>, schemes: seq<Entry>, types: seq<Entry>)

  /** The state record. */
  datatype State = State(
    history: seq<HistoryItem>,
    currentUser: CurrentUser,
    isLoggedIn: bool,
    snomedLicenseAccepted: Option<string>,
    editorIri: Option<string>,
    editorSavedEntity: Option<string>,
    blockedIris: seq<string>,
    filterOptions: FilterOptions,
    selectedFilters: FilterOptions,
    quickFiltersStatus: map<string, bool>)

  const LicenseKey := "snomedLicenseAccepted"
  const EditorIriKey := "editorSelectedIri"
  const SavedEntityKey := "editorSavedEntity"
  const SavedEntityReadKey := "editorUpdatedEntity"

  /** The state the store starts with, reading three of its fields from
      local storage. */
  function InitialState(storage: map<string, string>): (r: State)
    ensures r.history == [] && r.blockedIris == [] && r.currentUser == NoUserYet && !r.isLoggedIn
    ensures r.snomedLicenseAccepted == StoredItem(storage, LicenseKey)
    ensures r.editorIri == StoredItem(storage, EditorIriKey)
    ensures r.editorSavedEntity == StoredItem(storage, SavedEntityReadKey)
  {
    State(
      history := [],
      currentUser := NoUserYet,
      isLoggedIn := false,
      snomedLicenseAccepted := StoredItem(storage, LicenseKey),
      editorIri := StoredItem(storage, EditorIriKey),
      editorSavedEntity := StoredItem(storage, SavedEntityReadKey),
      blockedIris := [],
      filterOptions := FilterOptions([], [], []),
      selectedFilters := FilterOptions([], [], []),
      quickFiltersStatus := map[])
  }

  /** The saved entity written by `updateEditorSavedEntity` is not what a
      fresh store reads back: from storage holding only that key, the store
      starts with no saved entity. */
  lemma SavedEntityNotRestored(entity: string)
    ensures InitialState(map[SavedEntityKey := entity]).editorSavedEntity == None
  {
  }

  /** The state the store evidently means to start with: the saved entity is
      read from the key `updateEditorSavedEntity` writes. */
  function RestoredState(storage: map<string, string>): State {
    InitialState(storage).(editorSavedEntity := StoredItem(storage, SavedEntityKey))
  }

  /** Each of the three persisted settings that a mutation writes is read
      back by a fresh store. */
  lemma RestoredStateReadsBack(storage: map<string, string>, license: string, iri: string, entity: string)
    ensures var written := storage[LicenseKey := license][EditorIriKey := iri][SavedEntityKey := entity];
      var r := RestoredState(written);
      && r.snomedLicenseAccepted == Some(license)
      && r.editorIri == Some(iri)
      && r.editorSavedEntity == Some(entity)
  {
  }

  /** `filters` after `updateFilterOptions` has stripped its types and its
      statuses. */
  function FiltersStripped(filters: FilterOptions): (r: FilterOptions)
    ensures r.schemes == filters.schemes
    ensures |r.types| == |filters.types| && |r.status| == |filters.status|
    ensures forall i :: 0 <= i < |r.types| ==> r.types[i] == Stripped(filters.types[i])
    ensures forall i :: 0 <= i < |r.status| ==> r.status[i] == Stripped(filters.status[i])
  {
    filters.(types := StrippedAll(filters.types), status := StrippedAll(filters.status))
  }

  class Store {
    var state: State
    /** Local storage. */
    var storage: map<string, string>

    constructor(storage0: map<string, string>)
      ensures state == InitialState(storage0) && storage == storage0
    {
      state := InitialState(storage0);
      storage := storage0;
    }

    /** `updateBlockedIris`. */
    method UpdateBlockedIris(blockedIris: seq<string>)
      modifies this
      ensures state == old(state).(blockedIris := blockedIris) && storage == old(storage)
    {
      state := state.(blockedIris := blockedIris);
    }

    /** `updateHistory`. */
    method UpdateHistory(item: HistoryItem)
      modifies this
      ensures state == old(state).(history := HistoryWith(old(state.history), item)) && storage == old(storage)
    {
      var kept := WithoutConcept(state.history, item.conceptName);
      state := state.(history := [item] + kept);
    }

    /** `updateFilterOptions`: strips every type and every status, then
        stores the filters. */
    method UpdateFilterOptions(filters: FilterOptions)
      modifies this
      ensures state == old(state).(filterOptions := FiltersStripped(filters)) && storage == old(storage)
    {
      var types := StripEach(filters.types);
      var status := StripEach(filters.status);
      state := state.(filterOptions := filters.(types := types, status := status));
    }

    method UpdateSelectedFilters(filters: FilterOptions)
      modifies this
      ensures state == old(state).(selectedFilters := filters) && storage == old(storage)
    {
      state := state.(selectedFilters := filters);
    }

    /** `updateQuickFiltersStatus`: `Map.set(key, value)`. */
    method UpdateQuickFiltersStatus(key: string, value: bool)
      modifies this
      ensures state == old(state).(quickFiltersStatus := old(state.quickFiltersStatus)[key := value])
      ensures storage == old(storage)
    {
      state := state.(quickFiltersStatus := state.quickFiltersStatus[key := value]);
    }

    method UpdateCurrentUser(user: CurrentUser)
      modifies this
      ensures state == old(state).(currentUser := user) && storage == old(storage)
    {
      state := state.(currentUser := user);
    }

    method UpdateIsLoggedIn(status: bool)
      modifies this
      ensures state == old(state).(isLoggedIn := status) && storage == old(storage)
    {
      state := state.(isLoggedIn := status);
    }

    /** `updateSnomedLicenseAccepted`: the state and local storage. */
    method UpdateSnomedLicenseAccepted(status: string)
      modifies this
      ensures state == old(state).(snomedLicenseAccepted := Some(status))
      ensures storage == old(storage)[LicenseKey := status]
    {
      state := state.(snomedLicenseAccepted := Some(status));
      storage := storage[LicenseKey := status];
    }

    /** `updateEditorIri`: local storage only; `state.editorIri` keeps the
        value read when the store was created. */
    method UpdateEditorIri(iri: string)
      modifies this
      ensures state == old(state)
      ensures storage == old(storage)[EditorIriKey := iri]
    {
      storage := storage[EditorIriKey := iri];
    }

    /** `updateEditorSavedEntity`: local storage only. */
    method UpdateEditorSavedEntity(entity: string)
      modifies this
      ensures state == old(state)
      ensures storage == old(storage)[SavedEntityKey := entity]
    {
      storage := storage[SavedEntityKey := entity];
    }

    /** `logoutCurrentUser`, once the sign-out request has resolved with
        `res`. */
    method LogoutCurrentUser(res: AuthResponse) returns (result: AuthResponse)
      modifies this
      ensures result == res
      ensures res.status == 200 ==> state == old(state).(currentUser := SignedOut, isLoggedIn := false)
      ensures res.status != 200 ==> state == old(state)
      ensures storage == old(storage)
    {
      if res.status == 200 {
        UpdateCurrentUser(SignedOut);
        UpdateIsLoggedIn(false);
        result := res;
      } else {
        result := res;
      }
    }

    /** `authenticateCurrentUser`, once the request for the signed-in user
        has resolved with `res`; `signOut` is what the sign-out request of
        the forced logout resolves with. */
    method AuthenticateCurrentUser(res: AuthResponse, signOut: AuthResponse) returns (authenticated: bool)
      modifies this
      ensures authenticated <==> res.status == 200 && res.user.Some?
      ensures authenticated ==> state == old(state).(isLoggedIn := true, currentUser := SignedIn(res.user.value))
      ensures !authenticated && signOut.status == 200 ==> state == old(state).(currentUser := SignedOut, isLoggedIn := false)
      ensures !authenticated && signOut.status != 200 ==> state == old(state)
      ensures storage == old(storage)
    {
      authenticated := false;
      if res.status == 200 && res.user.Some? {
        UpdateIsLoggedIn(true);
        UpdateCurrentUser(SignedIn(res.user.value));
        authenticated := true;
      } else {
        var _ := LogoutCurrentUser(signOut);
      }
    }
  }
}
