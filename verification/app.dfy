/**
 The application shell (App.tsx): the state it holds, the handlers that
 change it, the mapping between dishes and rows of the `scans` table, and the
 saved-list toggle. Database calls, authentication and timestamps are inputs:
 a handler receives what the call returned.
 */
module App {
  import opened Types

  // ---------------------------------------------------------------------
  // Rows of the scans table
  // ---------------------------------------------------------------------

  /** A row of the `scans` table as it is read back. */
  datatype ScanRow = ScanRow(
    id: string,
    name: string,
    originalName: string,
    description: string,
    imageUrl: Option<string>,
    tags: Option<seq<string>>,
    allergens: Option<seq<string>>,
    spiceLevel: SpiceLevel,
    category: string,
    boundingBox: Option<Box>,
    isMenu: Option<bool>,
    isSaved: bool,
    savedAt: Option<string>,
    createdAt: string
  )

  /** The row the app inserts for a freshly scanned dish. */
  datatype NewScan = NewScan(
    userId: string,
    name: string,
    originalName: string,
    description: string,
    imageUrl: Option<string>,
    tags: seq<string>,
    allergens: seq<string>,
    spiceLevel: SpiceLevel,
    category: string,
    boundingBox: Option<Box>,
    isMenu: Option<bool>,
    isSaved: bool
  )

  /** The insert payload for a dish: every displayed field, not yet saved. */
  function ToNewScan(d: Dish, userId: string): (r: NewScan)
    ensures !r.isSaved && r.userId == userId
    ensures r.name == d.name && r.originalName == d.originalName && r.description == d.description
    ensures r.imageUrl == d.image && r.tags == d.tags && r.allergens == d.allergens
    ensures r.spiceLevel == d.spiceLevel && r.category == d.category
    ensures r.boundingBox == d.boundingBox && r.isMenu == d.isMenu
  {
    NewScan(userId, d.name, d.originalName, d.description, d.image, d.tags, d.allergens,
            d.spiceLevel, d.category, d.boundingBox, d.isMenu, false)
  }

  /** What the database hands back for an inserted row: the columns as sent,
      with the id and creation time it assigns and no save time. */
  function Stored(n: NewScan, id: string, createdAt: string): ScanRow {
    ScanRow(id, n.name, n.originalName, n.description, n.imageUrl, Some(n.tags), Some(n.allergens),
            n.spiceLevel, n.category, n.boundingBox, n.isMenu, n.isSaved, None, createdAt)
  }

  /** A row read back as a dish; missing tag and allergen lists become empty. */
  function RowToDish(row: ScanRow): (d: Dish)
    ensures d.id == row.id && d.image == row.imageUrl
    ensures d.tags == row.tags.GetOr([]) && d.allergens == row.allergens.GetOr([])
    ensures d.isOcrRefined.None? && d.isMenu == row.isMenu
  {
    Dish(row.id, row.name, row.originalName, row.description, row.imageUrl,
         row.tags.GetOr([]), row.allergens.GetOr([]), row.spiceLevel, row.category,
         row.boundingBox, None, row.isMenu)
  }

  /** A dish written and read back is the same dish, except that it carries the
      database's id and has lost its OCR-refined mark, which is not stored. */
  lemma DishRowRoundTrip(d: Dish, userId: string, id: string, createdAt: string)
    ensures RowToDish(Stored(ToNewScan(d, userId), id, createdAt)) == d.(id := id, isOcrRefined := None)
  {
  }

  /** The scan history: every fetched row as a dish, in fetched order. */
  function HistoryFromRows(rows: seq<ScanRow>): (r: seq<Dish>)
    ensures |r| == |rows|
    ensures forall k :: 0 <= k < |rows| ==> r[k] == RowToDish(rows[k])
  {
    seq(|rows|, k requires 0 <= k < |rows| => RowToDish(rows[k]))
  }

  /** `saved_at || created_at`. */
  function SavedAtOf(row: ScanRow): string {
    if row.savedAt.Some? && row.savedAt.value != "" then row.savedAt.value else row.createdAt
  }

  /** The saved list built from the fetched rows: exactly the rows marked saved,
      in fetched order. */
  function SavedFromRows(rows: seq<ScanRow>): (r: seq<SavedItem>)
    ensures |r| <= |rows|
    ensures (forall k :: 0 <= k < |rows| ==> !rows[k].isSaved) ==> r == []
    ensures forall x :: x in r ==>
      exists k :: 0 <= k < |rows| && rows[k].isSaved && x == SavedItem(RowToDish(rows[k]), SavedAtOf(rows[k]))
    ensures forall k :: 0 <= k < |rows| && rows[k].isSaved ==>
      SavedItem(RowToDish(rows[k]), SavedAtOf(rows[k])) in r
    decreases |rows|
  {
    if |rows| == 0 then []
    else
      var rest := SavedFromRows(rows[1..]);
      assert forall k :: 1 <= k < |rows| ==> rows[k] == rows[1..][k - 1];
      assert forall x :: x in rest ==>
        exists k :: 1 <= k < |rows| && rows[k].isSaved && x == SavedItem(RowToDish(rows[k]), SavedAtOf(rows[k]));
      if rows[0].isSaved then [SavedItem(RowToDish(rows[0]), SavedAtOf(rows[0]))] + rest else rest
  }

  /** A single row gives its saved item when it is marked saved, and nothing
      otherwise; with `SavedFromRowsConcat` this pins down the whole list. */
  lemma SavedFromRowsSingle(row: ScanRow)
    ensures SavedFromRows([row]) == if row.isSaved then [SavedItem(RowToDish(row), SavedAtOf(row))] else []
  {
    assert [row][1..] == [];
  }

  /** Building the saved list distributes over concatenation of the rows, so it
      keeps the rows' relative order. */
  lemma {:induction false} SavedFromRowsConcat(a: seq<ScanRow>, b: seq<ScanRow>)
    ensures SavedFromRows(a + b) == SavedFromRows(a) + SavedFromRows(b)
    decreases |a|
  {
    if |a| > 0 {
      assert (a + b)[1..] == a[1..] + b;
      SavedFromRowsConcat(a[1..], b);
    } else {
      assert a + b == b;
    }
  }

  // ---------------------------------------------------------------------
  // The saved-list toggle
  // ---------------------------------------------------------------------

  /** Some saved item has this id. */
  predicate IsSaved(saved: seq<SavedItem>, id: string) {
    exists k :: 0 <= k < |saved| && saved[k].dish.id == id
  }

  /** Ids of the saved items are pairwise distinct. */
  predicate UniqueIds(saved: seq<SavedItem>) {
    forall i, j :: 0 <= i < j < |saved| ==> saved[i].dish.id != saved[j].dish.id
  }

  /** `filter(item => item.id !== id)`. */
  function Unsave(saved: seq<SavedItem>, id: string): (r: seq<SavedItem>)
    ensures !IsSaved(r, id)
    ensures forall x :: x in r ==> x in saved
    ensures forall k :: 0 <= k < |saved| && saved[k].dish.id != id ==> saved[k] in r
    ensures !IsSaved(saved, id) ==> r == saved
    decreases |saved|
  {
    if |saved| == 0 then []
    else
      var rest := Unsave(saved[1..], id);
      assert forall k :: 1 <= k < |saved| ==> saved[k] == saved[1..][k - 1];
      if saved[0].dish.id == id then rest else [saved[0]] + rest
  }

  /** Removal distributes over concatenation: the remaining items keep their order. */
  lemma {:induction false} UnsaveConcat(a: seq<SavedItem>, b: seq<SavedItem>, id: string)
    ensures Unsave(a + b, id) == Unsave(a, id) + Unsave(b, id)
    decreases |a|
  {
    if |a| > 0 {
      assert (a + b)[1..] == a[1..] + b;
      UnsaveConcat(a[1..], b, id);
    } else {
      assert a + b == b;
    }
  }

  /** `find(d => d.id === id)`: the first dish with the id. */
  function FindById(ds: seq<Dish>, id: string): (r: Option<Dish>)
    ensures r.None? <==> forall k :: 0 <= k < |ds| ==> ds[k].id != id
    ensures r.Some? ==> r.value.id == id
    ensures r.Some? ==>
      exists k :: 0 <= k < |ds| && ds[k] == r.value && (forall j :: 0 <= j < k ==> ds[j].id != id)
    decreases |ds|
  {
    if |ds| == 0 then None
    else if ds[0].id == id then Some(ds[0])
    else
      var r := FindById(ds[1..], id);
      assert forall k :: 1 <= k < |ds| ==> ds[k] == ds[1..][k - 1];
      r
  }

  /** The dish to save: looked up in the current results first, then in history. */
  function LookUp(results: seq<Dish>, history: seq<Dish>, id: string): (r: Option<Dish>)
    ensures FindById(results, id).Some? ==> r == FindById(results, id)
    ensures FindById(results, id).None? ==> r == FindById(history, id)
    ensures r.Some? ==> r.value.id == id
    ensures r.None? <==>
      (forall k :: 0 <= k < |results| ==> results[k].id != id) &&
      (forall k :: 0 <= k < |history| ==> history[k].id != id)
  {
    var found := FindById(results, id);
    if found.Some? then found else FindById(history, id)
  }

  /** Saving toggles: a saved id is removed everywhere in the list; an unsaved
      id is saved at the front with `now` when the dish can be found, and the
      list is unchanged when it cannot. */
  function ToggleSave(saved: seq<SavedItem>, results: seq<Dish>, history: seq<Dish>,
                      id: string, now: string): (r: seq<SavedItem>)
    ensures IsSaved(saved, id) ==> !IsSaved(r, id) && r == Unsave(saved, id)
    ensures IsSaved(saved, id) ==>
      forall k :: 0 <= k < |saved| && saved[k].dish.id != id ==> saved[k] in r
    ensures !IsSaved(saved, id) ==> (IsSaved(r, id) <==> LookUp(results, history, id).Some?)
    ensures !IsSaved(saved, id) && LookUp(results, history, id).Some? ==>
      |r| == |saved| + 1 && r[0] == SavedItem(LookUp(results, history, id).value, now) && r[1..] == saved
    ensures !IsSaved(saved, id) && LookUp(results, history, id).None? ==> r == saved
  {
    if IsSaved(saved, id) then Unsave(saved, id)
    else
      var found := LookUp(results, history, id);
      if found.Some? then
        var r := [SavedItem(found.value, now)] + saved;
        assert r[0].dish.id == id;
        r
      else saved
  }

  /** Saving and then unsaving a dish gives back the original list. */
  lemma ToggleTwiceRestores(saved: seq<SavedItem>, results: seq<Dish>, history: seq<Dish>,
                            id: string, now: string, later: string)
    requires !IsSaved(saved, id)
    ensures ToggleSave(ToggleSave(saved, results, history, id, now), results, history, id, later) == saved
  {
    var once := ToggleSave(saved, results, history, id, now);
    if LookUp(results, history, id).Some? {
      var head := [once[0]];
      assert once == head + saved;
      UnsaveConcat(head, saved, id);
      assert Unsave(head, id) == Unsave(head[1..], id);
    }
  }

  /** The toggle never introduces a second item with the same id. */
  lemma ToggleKeepsIdsUnique(saved: seq<SavedItem>, results: seq<Dish>, history: seq<Dish>,
                             id: string, now: string)
    requires UniqueIds(saved)
    ensures UniqueIds(ToggleSave(saved, results, history, id, now))
  {
    var r := ToggleSave(saved, results, history, id, now);
    if IsSaved(saved, id) {
      UnsaveKeepsUnique(saved, id);
    } else if LookUp(results, history, id).Some? {
      forall i, j | 0 <= i < j < |r| ensures r[i].dish.id != r[j].dish.id {
        if i == 0 {
          assert r[j] == saved[j - 1];
        } else {
          assert r[i] == saved[i - 1] && r[j] == saved[j - 1];
        }
      }
    }
  }

  /** Removing items keeps the others' ids distinct. */
  lemma {:induction false} UnsaveKeepsUnique(saved: seq<SavedItem>, id: string)
    requires UniqueIds(saved)
    ensures UniqueIds(Unsave(saved, id))
    decreases |saved|
  {
    if |saved| > 0 {
      var tail := saved[1..];
      UniqueIdsTail(saved);
      UnsaveKeepsUnique(tail, id);
      if saved[0].dish.id != id {
        var rest := Unsave(tail, id);
        forall x | x in rest ensures x.dish.id != saved[0].dish.id {
          var k :| 0 <= k < |tail| && tail[k] == x;
          assert saved[k + 1] == x;
        }
        ConsUnique(saved[0], rest);
      }
    }
  }

  /** Dropping the first item keeps the ids distinct. */
  lemma UniqueIdsTail(saved: seq<SavedItem>)
    requires |saved| > 0 && UniqueIds(saved)
    ensures UniqueIds(saved[1..])
  {
    var tail := saved[1..];
    forall i, j | 0 <= i < j < |tail| ensures tail[i].dish.id != tail[j].dish.id {
      assert tail[i] == saved[i + 1] && tail[j] == saved[j + 1];
    }
  }

  // ---------------------------------------------------------------------
  // The profile as the app holds it
  // ---------------------------------------------------------------------

  /** `{...prev, ...updates}`: every field present in the update replaces the
      held one; the others are kept (none are held before the first fetch). */
  function Merge(prev: Option<UserProfile>, updates: UserProfile): (r: UserProfile)
    ensures updates.fullName.Some? ==> r.fullName == updates.fullName
    ensures updates.fullName.None? ==> r.fullName == (if prev.Some? then prev.value.fullName else None)
    ensures updates.defaultLanguage.Some? ==> r.defaultLanguage == updates.defaultLanguage
    ensures updates.defaultLanguage.None? ==>
      r.defaultLanguage == (if prev.Some? then prev.value.defaultLanguage else None)
    ensures updates.allergens.Some? ==> r.allergens == updates.allergens
    ensures updates.allergens.None? ==> r.allergens == (if prev.Some? then prev.value.allergens else None)
    ensures updates.dietaryNotes.Some? ==> r.dietaryNotes == updates.dietaryNotes
    ensures updates.dietaryNotes.None? ==>
      r.dietaryNotes == (if prev.Some? then prev.value.dietaryNotes else None)
    ensures updates.avatarUrl.Some? ==> r.avatarUrl == updates.avatarUrl
    ensures updates.avatarUrl.None? ==> r.avatarUrl == (if prev.Some? then prev.value.avatarUrl else None)
    ensures updates.id.Some? ==> r.id == updates.id
    ensures updates.id.None? ==> r.id == (if prev.Some? then prev.value.id else None)
    ensures updates.updatedAt.Some? ==> r.updatedAt == updates.updatedAt
    ensures updates.updatedAt.None? ==> r.updatedAt == (if prev.Some? then prev.value.updatedAt else None)
    ensures updates.chefCardLanguage.Some? ==> r.chefCardLanguage == updates.chefCardLanguage
    ensures updates.chefCardLanguage.None? ==>
      r.chefCardLanguage == (if prev.Some? then prev.value.chefCardLanguage else None)
    ensures prev.None? ==> r == updates
  {
    var p := prev.GetOr(NoProfileFields);
    UserProfile(
      Over(p.id, updates.id), Over(p.updatedAt, updates.updatedAt),
      Over(p.fullName, updates.fullName), Over(p.avatarUrl, updates.avatarUrl),
      Over(p.defaultLanguage, updates.defaultLanguage),
      Over(p.chefCardLanguage, updates.chefCardLanguage),
      Over(p.allergens, updates.allergens), Over(p.dietaryNotes, updates.dietaryNotes))
  }

  /** One field of `{...prev, ...updates}`: a present update wins. */
  function Over<T>(prev: Option<T>, update: Option<T>): Option<T> {
    if update.Some? then update else prev
  }

  /** Applying the same update twice is applying it once. */
  lemma MergeIdempotent(prev: Option<UserProfile>, updates: UserProfile)
    ensures Merge(Some(Merge(prev, updates)), updates) == Merge(prev, updates)
  {
  }

  /** An empty update leaves a held profile as it was. */
  lemma MergeNothing(p: UserProfile)
    ensures Merge(Some(p), NoProfileFields) == p
  {
  }

  // ---------------------------------------------------------------------
  // Application state and handlers
  // ---------------------------------------------------------------------

  /** Which tab of the history screen is open. */
  datatype HistoryTab = ScansTab | SavedTab

  datatype AppState = AppState(
    screen: Screen,
    uploadedImage: Option<string>,
    scanType: ScanType,
    defaultLanguage: Language,
    targetLanguage: Language,
    results: seq<Dish>,
    history: seq<Dish>,
    saved: seq<SavedItem>,
    profile: Option<UserProfile>,
    historyTab: HistoryTab
  )

  /** The state the app starts in. */
  const Initial: AppState :=
    AppState(Home, None, DishScan, English, English, [], [], [], None, ScansTab)

  /** Nothing of a signed-in user is held and the home screen shows. */
  predicate SignedOutClean(s: AppState) {
    s.screen == Home && s.uploadedImage.None? && s.results == [] && s.history == []
      && s.saved == [] && s.profile.None?
  }

  /** The bottom navigation is hidden only while scanning. */
  function ShowsBottomNav(screen: Screen): (r: bool)
    ensures r <==> screen != Scanning
  {
    screen != Scanning
  }

  /** A photograph was picked: it is shown while scanning with the chosen kind. */
  function SelectImage(s: AppState, url: string, kind: ScanType): (r: AppState)
    ensures r.screen == Scanning && r.uploadedImage == Some(url) && r.scanType == kind
    ensures !ShowsBottomNav(r.screen)
    ensures r.(uploadedImage := s.uploadedImage, scanType := s.scanType, screen := s.screen) == s
  {
    s.(uploadedImage := Some(url), scanType := kind, screen := Scanning)
  }

  /** The scan was cancelled (or failed): back home, photograph dropped. */
  function CancelScan(s: AppState): (r: AppState)
    ensures r.screen == Home && r.uploadedImage.None?
    ensures r.(screen := s.screen, uploadedImage := s.uploadedImage) == s
  {
    s.(screen := Home, uploadedImage := None)
  }

  /** The scan finished: its dishes are shown, and the rows the database
      returned for them (`None` without a user or without data) go in front of
      the history. */
  function ScanComplete(s: AppState, results: seq<Dish>, inserted: Option<seq<ScanRow>>): (r: AppState)
    ensures r.screen == Results && r.results == results
    ensures inserted.None? ==> r.history == s.history
    ensures inserted.Some? ==>
      |r.history| == |inserted.value| + |s.history| &&
      r.history[|inserted.value|..] == s.history &&
      forall k :: 0 <= k < |inserted.value| ==> r.history[k] == RowToDish(inserted.value[k])
    ensures r.(results := s.results, screen := s.screen, history := s.history) == s
  {
    var s1 := s.(results := results, screen := Results);
    match inserted
    case None => s1
    case Some(rows) =>
      var h := HistoryFromRows(rows) + s.history;
      assert h[|rows|..] == s.history;
      s1.(history := h)
  }

  /** The toggle applied to the app's own lists. */
  function ToggleSaveIn(s: AppState, id: string, now: string): (r: AppState)
    ensures IsSaved(s.saved, id) ==> !IsSaved(r.saved, id)
    ensures !IsSaved(s.saved, id) ==> (IsSaved(r.saved, id) <==> LookUp(s.results, s.history, id).Some?)
    ensures r.(saved := s.saved) == s
  {
    s.(saved := ToggleSave(s.saved, s.results, s.history, id, now))
  }

  /** Signing out, or the session ending: every piece of user data is dropped
      and the home screen shows. Sign-out failing changes nothing here, as the
      clean-up runs in any case. */
  function SignedOut(s: AppState): (r: AppState)
    ensures SignedOutClean(r)
    ensures r.defaultLanguage == s.defaultLanguage && r.targetLanguage == s.targetLanguage
    ensures r.(history := s.history, saved := s.saved, profile := s.profile, results := s.results,
               uploadedImage := s.uploadedImage, screen := s.screen) == s
  {
    s.(history := [], saved := [], profile := None, results := [], uploadedImage := None, screen := Home)
  }

  /** Signing out twice is signing out once. */
  lemma SignedOutIdempotent(s: AppState)
    ensures SignedOut(SignedOut(s)) == SignedOut(s)
  {
  }

  /** A profile field set to only the default language. */
  function LanguageUpdate(lang: Language): (u: UserProfile)
    ensures u.defaultLanguage == Some(lang)
    ensures u.(defaultLanguage := None) == NoProfileFields
  {
    NoProfileFields.(defaultLanguage := Some(lang))
  }

  /** Changing the default language changes the scan language with it, and,
      for a signed-in user, the held profile's default language. */
  function ChangeLanguage(s: AppState, lang: Language, signedIn: bool): (r: AppState)
    ensures r.defaultLanguage == lang && r.targetLanguage == lang
    ensures signedIn ==> r.profile.Some? && r.profile.value.defaultLanguage == Some(lang)
    ensures !signedIn ==> r.profile == s.profile
    ensures signedIn ==> r.profile == Some(Merge(s.profile, LanguageUpdate(lang)))
    ensures r.(defaultLanguage := s.defaultLanguage, targetLanguage := s.targetLanguage, profile := s.profile) == s
  {
    var s1 := s.(defaultLanguage := lang, targetLanguage := lang);
    if signedIn then s1.(profile := Some(Merge(s.profile, LanguageUpdate(lang)))) else s1
  }

  /** `updateProfile`: the update is merged into the held profile only for a
      signed-in user and only when the database reported no error. */
  function UpdateProfile(s: AppState, updates: UserProfile, signedIn: bool, failed: bool): (r: AppState)
    ensures !signedIn || failed ==> r == s
    ensures signedIn && !failed ==> r.profile == Some(Merge(s.profile, updates))
    ensures r.(profile := s.profile) == s
  {
    if signedIn && !failed then s.(profile := Some(Merge(s.profile, updates))) else s
  }

  /** The fetched profile is held; when it names a default language, both
      languages take it. */
  function ProfileFetched(s: AppState, profile: UserProfile): (r: AppState)
    ensures r.profile == Some(profile)
    ensures profile.defaultLanguage.Some? ==>
      r.defaultLanguage == profile.defaultLanguage.value && r.targetLanguage == profile.defaultLanguage.value
    ensures profile.defaultLanguage.None? ==>
      r.defaultLanguage == s.defaultLanguage && r.targetLanguage == s.targetLanguage
    ensures r.(profile := s.profile, defaultLanguage := s.defaultLanguage, targetLanguage := s.targetLanguage) == s
  {
    var s1 := s.(profile := Some(profile));
    match profile.defaultLanguage
    case Some(l) => s1.(defaultLanguage := l, targetLanguage := l)
    case None => s1
  }

  /** The fetched scans (newest first) become the history, and the saved ones the saved list. */
  function ScansFetched(s: AppState, rows: seq<ScanRow>): (r: AppState)
    ensures |r.history| == |rows|
    ensures forall k :: 0 <= k < |rows| ==> r.history[k].id == rows[k].id
    ensures forall x :: x in r.saved ==> exists k :: 0 <= k < |rows| && rows[k].isSaved && x.dish == r.history[k]
    ensures r.history == HistoryFromRows(rows) && r.saved == SavedFromRows(rows)
    ensures r.(history := s.history, saved := s.saved) == s
  {
    var h := HistoryFromRows(rows);
    s.(history := h, saved := SavedFromRows(rows))
  }

  /** Opening a history tab from the profile screen. */
  function OpenHistory(s: AppState, tab: HistoryTab): (r: AppState)
    ensures r.screen == History && r.historyTab == tab
    ensures ShowsBottomNav(r.screen)
    ensures r.(screen := s.screen, historyTab := s.historyTab) == s
  {
    s.(historyTab := tab, screen := History)
  }

  /** The back button of the results and history screens: home, with the
      photograph and every list kept. */
  function GoHome(s: AppState): (r: AppState)
    ensures r.screen == Home && ShowsBottomNav(r.screen)
    ensures r.uploadedImage == s.uploadedImage
    ensures r.(screen := s.screen) == s
  {
    s.(screen := Home)
  }

  /** The bottom navigation: it sets the screen to the chosen one and nothing else. */
  function Navigate(s: AppState, target: Screen): (r: AppState)
    ensures r.screen == target
    ensures r.(screen := s.screen) == s
  {
    s.(screen := target)
  }

  /** Switching tabs on the history screen. */
  function ChangeHistoryTab(s: AppState, tab: HistoryTab): (r: AppState)
    ensures r.historyTab == tab
    ensures r.(historyTab := s.historyTab) == s
  {
    s.(historyTab := tab)
  }

  /** The home screen's language picker sets the scan language only, so the
      scan language may differ from the default one until the default changes. */
  function PickTargetLanguage(s: AppState, lang: Language): (r: AppState)
    ensures r.targetLanguage == lang && r.defaultLanguage == s.defaultLanguage
    ensures r.(targetLanguage := s.targetLanguage) == s
  {
    s.(targetLanguage := lang)
  }

  /** A default-language change overrides any scan language picked before it. */
  lemma DefaultLanguageOverridesPick(s: AppState, picked: Language, lang: Language, signedIn: bool)
    ensures ChangeLanguage(PickTargetLanguage(s, picked), lang, signedIn).targetLanguage == lang
    ensures ChangeLanguage(PickTargetLanguage(s, picked), lang, signedIn) == ChangeLanguage(s, lang, signedIn)
  {
  }

  // ---------------------------------------------------------------------
  // Reachable states
  // ---------------------------------------------------------------------

  /** Everything that can happen to the app: user actions, the scan screen's
      completion and cancellation, and the results of the database calls. */
  datatype Event =
    | Picked(url: string, kind: ScanType)
    | Cancelled
    | Completed(results: seq<Dish>, inserted: Option<seq<ScanRow>>)
    | SaveToggled(id: string, now: string)
    | LoggedOut
    | DefaultLanguageChosen(lang: Language, signedIn: bool)
    | ProfileUpdated(updates: UserProfile, signedIn: bool, failed: bool)
    | ProfileLoaded(profile: UserProfile)
    | ScansLoaded(rows: seq<ScanRow>)
    | HistoryOpened(tab: HistoryTab)
    | Navigated(target: Screen)
    | BackPressed
    | TabChanged(tab: HistoryTab)
    | TargetChosen(lang: Language)

  /** The handler each event runs. */
  function Step(s: AppState, e: Event): AppState {
    match e
    case Picked(url, kind) => SelectImage(s, url, kind)
    case Cancelled => CancelScan(s)
    case Completed(results, inserted) => ScanComplete(s, results, inserted)
    case SaveToggled(id, now) => ToggleSaveIn(s, id, now)
    case LoggedOut => SignedOut(s)
    case DefaultLanguageChosen(lang, signedIn) => ChangeLanguage(s, lang, signedIn)
    case ProfileUpdated(updates, signedIn, failed) => UpdateProfile(s, updates, signedIn, failed)
    case ProfileLoaded(profile) => ProfileFetched(s, profile)
    case ScansLoaded(rows) => ScansFetched(s, rows)
    case HistoryOpened(tab) => OpenHistory(s, tab)
    case Navigated(target) => Navigate(s, target)
    case BackPressed => GoHome(s)
    case TabChanged(tab) => ChangeHistoryTab(s, tab)
    case TargetChosen(lang) => PickTargetLanguage(s, lang)
  }

  /** The state after a run of events from the start. */
  function Run(events: seq<Event>): AppState
    decreases |events|
  {
    if |events| == 0 then Initial else Step(Run(events[..|events| - 1]), events[|events| - 1])
  }

  /** Rows of the scans table have distinct ids (it is the table's key). */
  predicate DistinctRowIds(rows: seq<ScanRow>) {
    forall i, j :: 0 <= i < j < |rows| ==> rows[i].id != rows[j].id
  }

  /** What the environment guarantees of an event: fetched rows come from the
      keyed table, and the bottom navigation never leads to the scanning screen,
      which is entered only by picking a photograph. */
  predicate Allowed(e: Event) {
    && (e.ScansLoaded? ==> DistinctRowIds(e.rows))
    && (e.Navigated? ==> e.target != Scanning)
  }

  /** The app's invariant: the scanning screen always has a photograph to scan,
      and no dish is saved twice. */
  predicate Coherent(s: AppState) {
    (s.screen == Scanning ==> s.uploadedImage.Some?) && UniqueIds(s.saved)
  }

  /** Rows with distinct ids give saved items with distinct ids. */
  lemma {:induction false} SavedFromRowsUnique(rows: seq<ScanRow>)
    requires DistinctRowIds(rows)
    ensures UniqueIds(SavedFromRows(rows))
    decreases |rows|
  {
    if |rows| > 0 {
      DistinctRowIdsTail(rows);
      SavedFromRowsUnique(rows[1..]);
      if rows[0].isSaved {
        var rest := SavedFromRows(rows[1..]);
        forall x | x in rest ensures x.dish.id != rows[0].id {
          var k :| 0 <= k < |rows[1..]| && rows[1..][k].isSaved &&
            x == SavedItem(RowToDish(rows[1..][k]), SavedAtOf(rows[1..][k]));
          assert rows[1..][k] == rows[k + 1];
        }
        ConsUnique(SavedItem(RowToDish(rows[0]), SavedAtOf(rows[0])), rest);
      }
    }
  }

  /** Dropping the first row keeps the ids distinct. */
  lemma DistinctRowIdsTail(rows: seq<ScanRow>)
    requires |rows| > 0 && DistinctRowIds(rows)
    ensures DistinctRowIds(rows[1..])
  {
    var tail := rows[1..];
    forall i, j | 0 <= i < j < |tail| ensures tail[i].id != tail[j].id {
      assert tail[i] == rows[i + 1] && tail[j] == rows[j + 1];
    }
  }

  /** An item whose id no other item has can go in front of a list with distinct ids. */
  lemma ConsUnique(item: SavedItem, rest: seq<SavedItem>)
    requires UniqueIds(rest)
    requires forall x :: x in rest ==> x.dish.id != item.dish.id
    ensures UniqueIds([item] + rest)
  {
    var r := [item] + rest;
    forall i, j | 0 <= i < j < |r| ensures r[i].dish.id != r[j].dish.id {
      assert r[j] == rest[j - 1];
      if i > 0 {
        assert r[i] == rest[i - 1];
      }
    }
  }

  /** Every handler keeps the invariant for the events the environment allows. */
  lemma StepKeepsCoherent(s: AppState, e: Event)
    requires Coherent(s) && Allowed(e)
    ensures Coherent(Step(s, e))
  {
    match e
    case SaveToggled(id, now) => ToggleKeepsIdsUnique(s.saved, s.results, s.history, id, now);
    case ScansLoaded(rows) => SavedFromRowsUnique(rows);
    case _ =>
  }

  /** Every state the app reaches from its start keeps the invariant. */
  lemma {:induction false} ReachableIsCoherent(events: seq<Event>)
    requires forall i :: 0 <= i < |events| ==> Allowed(events[i])
    ensures Coherent(Run(events))
    decreases |events|
  {
    if |events| > 0 {
      ReachableIsCoherent(events[..|events| - 1]);
      StepKeepsCoherent(Run(events[..|events| - 1]), events[|events| - 1]);
    }
  }
}
