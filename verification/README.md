# Snap-and-eat menu reader, modelled in Dafny

The application is a single-page app for reading food. A user photographs a
dish or a printed menu. A multimodal model names the dishes, translates them
and guesses tags, allergens and a spice level. An OCR pass then moves each
dish's box onto the line of menu text that carries its original name. The
results screen shows the dishes, and signed-in users get a scan history,
saved dishes and a profile with an allergen "chef card".

This project models the decision logic of that core as pure Dafny functions
and proves what it promises:

- `Types`: the shared records and enumerations (`types.ts`).
- `Text`: the JavaScript string primitives the code relies on. These are
  the `\s` class, ASCII `toLowerCase`, `includes`, `startsWith`/`endsWith`,
  `trim()` and the decimal rendering of a number.
- `Matcher` and `MatcherProperties`: the OCR text localiser of the scan
  screen, with its normalisation, scoring, best-line choice and box
  conversion, plus worked examples of accepted and rejected lines.
- `Uri`: `encodeURIComponent` and its inverse. They are needed to show that
  an image-search address gives back its query.
- `Scanning`: the rest of the scan screen. That is reply cleaning, search
  queries and image addresses, dish ids, error classification, and the whole
  scan pipeline as one function of its inputs.
- `Progress`: the scan progress bar.
- `App`: the application shell (`App.tsx`). It covers the database
  row/dish mapping, the save toggle, profile merging, every handler of the
  shell, and an invariant kept by all of them.
- `ProfileScreen`: the profile screen. It covers allergen editing, name
  saving, syncing from the held profile and the chef card's texts.
- `ResultsScreen`: the results screen. It covers icons, thumbnail focus, the
  spotlight rectangle, layout, header texts and image choice.
- `ViteConfig`: the `manualChunks` bundle classifier.

Effects are not modelled as effects. The model calls, the OCR engine,
`JSON.parse`, file reading, `Date.now()` and the database are inputs of the
functions that use their results. A thrown error is an `Attempt.Thrown`
value.

## Model

| member | source | states |
|---|---|---|
| Types.ParseSpice | types.ts:28 | a stored spice string is read back as a level exactly when it is one of the four names, and reading a level's name gives that level |
| Text.LowerChar | components/Scanning.tsx:167 | lower-casing leaves no upper-case ASCII letter, keeps every other character, and never turns a non-space into a space or back |
| Text.DropSpaces | components/Scanning.tsx:167 | after deleting whitespace the text is no longer than before and holds no whitespace at all |
| Text.TrimSpec | components/Scanning.tsx:217 | `trim()` returns a contiguous piece of its input with no whitespace at either end, everything cut away on either side is whitespace, and it is empty exactly when the input was all whitespace |
| Text.TrimIdempotent | components/Profile.tsx:117-118 | trimming an already trimmed text changes nothing |
| Text.NatToString | components/Scanning.tsx:231 | a number renders as one or more decimal digits without a leading zero |
| Text.NatToStringInjective | components/Scanning.tsx:231 | two numbers with the same decimal rendering are equal |
| Text.ContainsExtended | vite.config.ts:24-37 | a substring found in a path is still found when text is added on either side |
| Matcher.Normalize | components/Scanning.tsx:167 | the normalised name holds no whitespace and no upper-case ASCII letter and is never longer than the name |
| Matcher.Score | components/Scanning.tsx:177-183 | a match scores the shorter length over the longer one, plus 0.2 exactly when the lengths differ by fewer than 3; it stays within 0..1.2 and reaches 1.2 only at equal length; two empty texts give NaN (no score) |
| Matcher.LineScore | components/Scanning.tsx:173-189 | a line gets a score only when its normalised text contains the name or is contained in it |
| Matcher.BestLine | components/Scanning.tsx:170-190 | the scan picks no line when no line scores above 0; otherwise it picks the first line with the greatest score and reports that score |
| Matcher.FirstBestIsPicked | components/Scanning.tsx:185-188 | whichever line is the first to reach the greatest positive score is the one picked |
| Matcher.TieKeepsEarliest | components/Scanning.tsx:185 | of two lines with equal scores the later one is never picked, because replacement needs a strictly greater score |
| Matcher.ScaleInRange | components/Scanning.tsx:198-203 | a pixel coordinate inside the image lands inside 0..1000, and order is kept |
| Matcher.ToNormalized | components/Scanning.tsx:198-203 | each box side is the pixel coordinate divided by the image side times 1000, and a pixel box inside the image gives an ordered box inside the 0..1000 square |
| Matcher.Refine | components/Scanning.tsx:192-207 | a dish with a line scoring above 0.4 changes only by `isOcrRefined = true` and the first best line's normalised box; any other dish comes back unchanged |
| Matcher.RefineAll | components/Scanning.tsx:158-209 | without OCR lines every dish is kept as inferred; with them each dish is refined on its own and the order is kept |
| MatcherProperties.NormalizeIdempotent | components/Scanning.tsx:167 | normalising twice is normalising once |
| MatcherProperties.NormalizeIgnoresSpace | components/Scanning.tsx:167 | inserting whitespace anywhere in a name does not change its normalised form |
| MatcherProperties.NormalizeIgnoresCase | components/Scanning.tsx:167 | changing the case of an ASCII letter anywhere does not change the normalised form |
| MatcherProperties.NormalizeConcat | components/Scanning.tsx:167 | normalisation works piece by piece: the form of a concatenation is the concatenation of the forms |
| MatcherProperties.KungPaoExample | components/Scanning.tsx:167 | "Kung Pao Chicken" and "kungpaochicken" normalise to the same text |
| MatcherProperties.PricedLineIsAccepted | components/Scanning.tsx:177-204 | a dish name found inside a longer priced menu line scores 4/7, above the 0.4 threshold, and takes that line's box |
| MatcherProperties.UnrelatedLineIsRejected | components/Scanning.tsx:177-207 | a line that neither contains nor is contained in the name leaves the dish's box untouched |
| MatcherProperties.TieTakesFirstLine | components/Scanning.tsx:185-188 | with two lines scoring the same, the dish takes the first line's box |
| MatcherProperties.WholeLineBonusDecides | components/Scanning.tsx:177-204 | a one-character name on its three-character line scores 1/3, below 0.4 on its own, and is accepted only because of the whole-line bonus |
| Uri.Utf8 | components/Scanning.tsx:223 | a character encodes as one to four bytes, and as one byte exactly when it is ASCII |
| Uri.Encode | components/Scanning.tsx:223 | an encoded query contains only unreserved characters, `%` and hex digits, so never `&`, `=`, `#` or a space |
| Uri.Utf8RoundTrip | components/Scanning.tsx:223 | decoding a character's UTF-8 bytes gives the character back, and the first byte announces the sequence length |
| Uri.DecodeEncode | components/Scanning.tsx:223 | decoding an encoded text gives the text back |
| Scanning.CleanReply | components/Scanning.tsx:146-149 | a reply that does not start with a fence is parsed as it is; the cleaned text is always a contiguous piece of the reply |
| Scanning.ReplyText | components/Scanning.tsx:146 | the reply text is never empty before fence stripping, and a non-empty reply is passed on unchanged |
| Scanning.BareFenceIsCleanedAway | components/Scanning.tsx:146-153 | a reply that is only a fence is non-empty before cleaning but reaches the parser as the empty text |
| Scanning.TrailingFenceRoundTrip | components/Scanning.tsx:148 | a closing fence at the very end is removed and nothing else is |
| Scanning.FencedReplyRoundTrip | components/Scanning.tsx:147-148 | a body not starting with a backtick, wrapped as "```json" or "```" plus one whitespace character and closed by a fence at the very end, comes back unwrapped |
| Scanning.TrailingNewlineKeepsClosingFence | components/Scanning.tsx:148 | a closing fence followed by a newline is not at the end of the text, so it survives cleaning and is handed to the parser |
| Scanning.SearchQueryShape | components/Scanning.tsx:217 | a search query always ends in "food dish" and starts with the dish's original name when that does not begin with whitespace |
| Scanning.ThumbnailUrl | components/Scanning.tsx:223 | an image-search address has the fixed prefix and size suffix; the query decodes back from between them, and that stretch has no `&` or `#` to add or override a parameter |
| Scanning.PayloadOf | components/Scanning.tsx:31 | there is a payload exactly when the text has a comma; the payload holds no comma and is a piece of the text |
| Scanning.PayloadRoundTrip | components/Scanning.tsx:31 | splitting "prefix,payload" at the comma gives the payload back when neither part contains a comma |
| Scanning.DataUrlRoundTrip | components/Scanning.tsx:31 | the payload of the data URL built for a dish photo reads back out of it |
| Scanning.DishId | components/Scanning.tsx:231 | a dish id consists of decimal digits only |
| Scanning.DishIdInjective | components/Scanning.tsx:231 | two ids built from clock readings of equal digit count are equal only for the same reading and index |
| Scanning.Finish | components/Scanning.tsx:229-234 | a finished dish keeps every field the inference gave and gains the id, the image and the reply's menu flag |
| Scanning.FinishAll | components/Scanning.tsx:213-235 | every dish is finished in order, the one at index i with the clock reading taken for it |
| Scanning.Classify | components/Scanning.tsx:264-270 | a rate-limit error shows the quota text and cancels after 5 s; any other error shows the generic text and cancels after 3 s |
| Scanning.Mentioning429IsQuota | components/Scanning.tsx:264 | any message mentioning 429 is classed as a rate-limit error |
| Scanning.ExhaustedIsQuota | components/Scanning.tsx:264 | a RESOURCE_EXHAUSTED status is a rate-limit error whatever the message |
| Scanning.Analyze | components/Scanning.tsx:43-275 | no image means no scan; an unmounted screen abandons the result; the scan completes exactly when the photo read, the model call and the parse all succeed; otherwise it fails with the first thrown error, classified |
| Scanning.CompletedDishesFollowInference | components/Scanning.tsx:213-235 | each shown dish keeps what inference said about it and carries the id built from its clock reading and index |
| Scanning.NoOcrKeepsInferredBoxes | components/Scanning.tsx:158 | when OCR fails every dish keeps the box the model gave |
| Scanning.RefinedBoxesInRange | components/Scanning.tsx:192-207 | with OCR lines inside the image every box is either the model's own or an OCR box inside the 0..1000 square marked as refined |
| Scanning.MenuImagesAreSearches | components/Scanning.tsx:217-223 | in a menu scan every image is a search thumbnail whose query decodes back to the dish's trimmed search text |
| Scanning.DishImagesArePhoto | components/Scanning.tsx:226 | in a dish scan every image is the uploaded photograph, and its payload reads back |
| Scanning.MenuChoiceWins | components/Scanning.tsx:222 | a scan the user started as a menu scan is treated as a menu whatever the model says |
| Scanning.CompletedIdsDistinct | components/Scanning.tsx:231 | the dishes of one scan get pairwise distinct ids when the clock readings have equally many digits |
| Progress.Tick | components/Scanning.tsx:49-56 | a timer step never lowers the bar, moves it up while it is below 80, leaves it alone from 80 on, and never reaches 80.3 from below |
| Progress.TicksFromStart | components/Scanning.tsx:49-58 | however long the scan runs, the timer keeps the bar between 10 and 80.3 and never moves it back |
| Progress.TicksMonotone | components/Scanning.tsx:49-56 | more timer steps never give a lower value |
| Progress.Apply | components/Scanning.tsx:254 | success sets the bar to 100, failure to 0, and a timer step never lowers it |
| Progress.BelowCeilingWithoutSuccess | components/Scanning.tsx:49-58 | without a success the bar stays within 0 and 80.3 |
| Progress.FullOnlyAfterSuccess | components/Scanning.tsx:254 | the bar shows 100 only after the scan succeeded |
| Progress.FailureEmpties | components/Scanning.tsx:271 | a failure as the last event leaves the bar empty |
| Progress.Displayed | components/Scanning.tsx:322 | the label is the value rounded half up and capped at 100, and it is never negative for a non-negative value |
| Progress.DisplayedMonotone | components/Scanning.tsx:322 | a higher value never shows a lower percentage |
| App.ToNewScan | App.tsx:159-172 | the insert payload carries every displayed field of the dish and starts unsaved |
| App.RowToDish | App.tsx:177-189 | a row read back becomes a dish with the row's id, image and menu flag and no OCR flag; missing tag and allergen lists become empty ones |
| App.DishRowRoundTrip | App.tsx:159-189 | a dish inserted and read back is the same dish under its database id, except that the OCR flag is lost |
| App.HistoryFromRows | App.tsx:92-106 | the history holds every fetched row as a dish, in fetched order |
| App.SavedFromRows | App.tsx:109-123 | the saved list holds an item for every row marked saved and for no other row, each stamped with its save time or else its creation time |
| App.SavedFromRowsSingle | App.tsx:109-123 | one row gives its saved item exactly when it is marked saved; with the piece-by-piece law below, this makes the list the saved rows in fetched order |
| App.SavedFromRowsConcat | App.tsx:109 | filtering the saved rows works piece by piece over the fetched rows |
| App.Unsave | App.tsx:200 | removal leaves no item with the id, keeps every other item, and changes nothing when the id is not saved |
| App.UnsaveConcat | App.tsx:200 | removal works piece by piece, so the remaining items keep their order |
| App.FindById | App.tsx:202 | the search finds nothing exactly when no dish has the id, and otherwise the first dish with it |
| App.LookUp | App.tsx:202 | the dish to save is the first match in the current results, and only when the results lack the id the first match in the history |
| App.ToggleSave | App.tsx:195-208 | saving flips whether the id is saved; unsaving is exactly the removal filter, so nothing is added and the rest keep their order; a newly saved dish goes in front; an id found nowhere leaves the list as it was |
| App.ToggleTwiceRestores | App.tsx:195-208 | saving and then unsaving a dish gives back the original list |
| App.ToggleKeepsIdsUnique | App.tsx:195-208 | the toggle never creates a second saved item with the same id |
| App.UnsaveKeepsUnique | App.tsx:200 | removing an id keeps the saved ids pairwise distinct |
| App.Merge | App.tsx:243 | each of the eight profile fields is taken from the update when present there and kept from the held profile otherwise; with nothing held the update is the profile |
| App.MergeIdempotent | App.tsx:243 | applying the same update twice is applying it once |
| App.MergeNothing | App.tsx:243 | an empty update leaves the held profile as it was |
| App.SelectImage | App.tsx:141-146 | picking a photo opens the scanning screen with that photo and kind, hides the bottom navigation, and changes nothing else |
| App.CancelScan | App.tsx:148-151 | cancelling returns home and drops the photo, and changes nothing else |
| App.ScanComplete | App.tsx:153-193 | a finished scan shows its dishes on the results screen and puts the inserted rows, read back, in front of the unchanged history; nothing else changes |
| App.ToggleSaveIn | App.tsx:195-219 | the save toggle changes the saved list and nothing else in the app |
| App.SignedOut | App.tsx:221-237 | signing out, even when it throws, drops history, saved items, profile, results and photo and returns home; the languages, scan kind and history tab are kept |
| App.SignedOutIdempotent | App.tsx:50-57 | the clean-up when the session ends is the sign-out clean-up, and doing it twice is doing it once |
| App.ChangeLanguage | App.tsx:132-139 | the default language change also sets the scan language, and for a signed-in user merges the language into the held profile; nothing else changes |
| App.UpdateProfile | App.tsx:239-246 | a profile update is merged only for a signed-in user and only when the database reported no error; nothing else changes |
| App.ProfileFetched | App.tsx:74-82 | the fetched profile is held, and when it names a default language both languages take it; lists, screen and photo are kept |
| App.ScansFetched | App.tsx:91-124 | the fetched scans become the history row by row and the saved list is built from the rows marked saved; nothing else changes |
| App.OpenHistory | App.tsx:252-255 | opening a history tab from the profile shows the history screen on that tab, with the bottom navigation, and changes nothing else |
| App.GoHome | App.tsx:289 | the back button of the results and history screens goes home and keeps the photo and every list |
| App.Navigate | App.tsx:338-342 | the bottom navigation sets the screen to the chosen one and changes nothing else |
| App.ChangeHistoryTab | App.tsx:298-299 | a tab change on the history screen switches the tab and changes nothing else |
| App.PickTargetLanguage | App.tsx:266-270 | the home screen picker sets the scan language alone, so it may differ from the default |
| App.DefaultLanguageOverridesPick | App.tsx:132-139 | a later default-language change overrides a picked scan language: the result is as if nothing had been picked |
| App.SavedFromRowsUnique | App.tsx:109-123 | rows with distinct ids give saved items with distinct ids |
| App.StepKeepsCoherent | App.tsx:141-342 | every handler keeps the invariant: the scanning screen always has a photo, and no dish is saved twice |
| App.ReachableIsCoherent | App.tsx:15-36 | every state reached from the start state by any run of handlers keeps that invariant |
| ProfileScreen.Without | components/Profile.tsx:93 | removal keeps exactly the other allergens and keeps the list free of duplicates |
| ProfileScreen.WithoutConcat | components/Profile.tsx:93 | removal works piece by piece, so the remaining allergens keep their order |
| ProfileScreen.Toggle | components/Profile.tsx:90-96 | toggling flips the allergen's membership, leaves every other allergen alone, appends a new one at the end and keeps the list free of duplicates |
| ProfileScreen.ToggleTwiceRestores | components/Profile.tsx:90-96 | adding an allergen and removing it again gives back the original list |
| ProfileScreen.ToggleAllergen | components/Profile.tsx:90-99 | a chip click shows the toggled list and sends exactly that list as the allergen update, changing no other field |
| ProfileScreen.AddCustom | components/Profile.tsx:116-126 | a custom allergen is appended trimmed, and the input is cleared and closed, only when it is non-blank and new; otherwise nothing happens; the name, editing flag, notes and avatar are never touched |
| ProfileScreen.AddCustomTwice | components/Profile.tsx:116-126 | adding the same custom text twice adds it once |
| ProfileScreen.SelectChange | components/Profile.tsx:101-114 | "custom" opens the custom field, another value toggles that allergen and resets the select, and the placeholder only resets it; no other field changes |
| ProfileScreen.NameSave | components/Profile.tsx:83-88 | leaving the name field always ends editing, and the app is told the name exactly when it differs from the stored one |
| ProfileScreen.NameSaveSettles | components/Profile.tsx:83-88 | once the app holds the name, saving it again sends nothing |
| ProfileScreen.Sync | components/Profile.tsx:53-60 | a held profile overwrites a local text field only when its value is non-empty, overwrites the allergens whenever they are present, and touches nothing else |
| ProfileScreen.SyncIdempotent | components/Profile.tsx:53-60 | syncing the same profile again changes nothing |
| ProfileScreen.SaveNotes | components/Profile.tsx:128-131 | saving the notes closes the dialog, sends exactly the notes as typed, and changes nothing else |
| ProfileScreen.SavedNotesSyncBack | components/Profile.tsx:53-60 | once the app has merged the sent notes, copying its profile back gives the screen the same notes, whatever profile was held |
| ProfileScreen.ToggledAllergensSyncBack | components/Profile.tsx:53-60 | the same for an allergen edit: the list shown is the list the merged profile hands back |
| ProfileScreen.CardNotesNeverBlank | components/Profile.tsx:133-169 | notes with any non-whitespace never leave the card's note empty, whatever the translation did |
| ProfileScreen.ChefLabel | components/Profile.tsx:548 | an allergen is labelled with the table's entry when that is non-empty, else as typed, so a non-empty allergen never gets an empty label |
| ProfileScreen.EnglishCardsAgree | components/Profile.tsx:505 | with the English table keyed by exactly the common allergens, the English card and the translated card label every allergen alike: a common one by its entry, a custom one as typed |
| ProfileScreen.ChefLabels | components/Profile.tsx:545-548 | every allergen on the card gets its label, in order |
| ResultsScreen.SpiceIcons | components/Results.tsx:45-59 | "None" and the empty string render nothing; the icon count is at most 3 and is positive exactly for the three spicy level names; any other string renders zero icons |
| ResultsScreen.SpiceIconsRankLevels | components/Results.tsx:45-59 | the badge shows exactly when the icons render, the four levels render four different ways, and hotter levels get more icons |
| ResultsScreen.AllergenIcons | components/Results.tsx:61-75 | an empty list renders nothing; otherwise the first three allergens show in order as their first character, with a "+" exactly when there are more |
| ResultsScreen.AllergenIconsIgnoreTail | components/Results.tsx:61-75 | once a list has more than three allergens, appending more never changes its icon row |
| ResultsScreen.ThumbnailStyle | components/Results.tsx:77-93 | menu dishes are only covered; other dishes with a box are focused on the box centre in percent, which lies within 0..100 for a box in the 0..1000 square |
| ResultsScreen.Spotlight | components/Results.tsx:185-193 | the spotlight is drawn only for a non-menu dish with a box; its edges are the box's edges in percent, so for a box in the 0..1000 square it stays within the photo |
| ResultsScreen.FocusIsSpotlightCentre | components/Results.tsx:77-93 | the focus helper and the spotlight helper apply under the same condition, and the focus is the spotlight's centre (the list draws the one and the single card the other) |
| ResultsScreen.CountAgreesWithLayout | components/Results.tsx:301-318 | the count line says "Item" without an "s" exactly when the single big card shows, and the list always comes with a plural count |
| ResultsScreen.TitleFollowsFirstDish | components/Results.tsx:14 | the title depends on the first dish only: it reads "Menu Translation" exactly when that dish is marked as a menu, whatever follows it |
| ResultsScreen.CountLabel | components/Results.tsx:301 | the count line ends in "s" exactly when the count is not 1 |
| ResultsScreen.CountLabelInjective | components/Results.tsx:301 | different counts give different count lines |
| ResultsScreen.CardImage | components/Results.tsx:170 | a menu dish's card shows its own image; another dish's card shows the uploaded photo when there is a non-empty one, else its own image |
| ResultsScreen.OpenModeFollowsSwitch | components/Results.tsx:333 | a dish opens on its own image exactly when the detail view offers the switch to the photo |
| ResultsScreen.CompletedScanDisplay | components/Scanning.tsx:233 | after a completed scan the title and the focus and spotlight helpers follow the model's menu verdict, not the scan kind the user picked |
| ViteConfig.ManualChunks | vite.config.ts:23-39 | app sources get no chunk; a third-party path goes to the React chunk when it mentions react, else Supabase, else Google/genai, else the general vendor chunk |
| ViteConfig.ReactDomIsReact | vite.config.ts:26 | the react-dom test never decides anything, because a path mentioning react-dom mentions react |
| ViteConfig.ChunkSurvivesLongerPaths | vite.config.ts:24-28 | a third-party path stays third-party, and a React path stays in the React chunk, when the path grows on either side |
| ViteConfig.SupabaseClientChunk | vite.config.ts:30-32 | the Supabase client goes to the Supabase chunk |
| ViteConfig.GenaiClientChunk | vite.config.ts:33-35 | the Gemini client goes to the Google chunk |
| ViteConfig.ReactDomChunk | vite.config.ts:26-28 | React DOM goes to the React chunk |
| ViteConfig.PreactJoinsReactChunk | vite.config.ts:26-28 | Preact lands in the React chunk, because the test is a plain substring test |
| ViteConfig.AppSourceUnchunked | vite.config.ts:24 | the application's own sources get no manual chunk |

## Left out

- Floating-point arithmetic: scores, progress and box coordinates are exact `real`s. The NaN of `0/0` is an absent score.
- `toLowerCase` is modelled for ASCII letters only, and string lengths count code points rather than UTF-16 units.
- A bounding box is a four-field record. Arrays of any other length are not modelled.
- The image's width and height are taken to be positive. The source waits on `onload` forever if the image never loads, and that hang is not modelled.
- The model call, OCR, `JSON.parse`, `FileReader`, `URL.createObjectURL` and `Date.now()` are inputs. The prompt and schema texts are not modelled.
- Concurrency is not modelled. That covers the two parallel calls, the 100 ms timer and the 300 ms completion delay. It also covers the 3 s image-preload race, which only delays completion.
- `isMounted` is a single flag for the whole scan. The cleanup can unmount between any two awaits; only "mounted at the end" or "not" is modelled.
- Status texts other than the failure messages are not modelled ("Analyzing image & text...", "Refining locations...").
- The Supabase calls are not modelled as effects: the insert, the profile and scan updates, and sign-out. Their results are inputs: the inserted rows, the update's error flag, and the fact that sign-out's failure is ignored.
- The `user_id` and `created_at` columns and extra reply fields such as `price` are not carried in `Dish`.
- The `COMMON_ALLERGENS` and `CHEF_CARD_DATA` tables are not part of this model. They are parameters of the label functions.
- The avatar upload and the modal and portal UI are not modelled: they only set a local field or toggle visibility.
- The body-scroll effect and every piece of styling are left out.
- components/History.tsx is pure rendering and is not part of this model.
- App.SignedOutIdempotent: session loss and logout run the same clean-up; the model has one function for both.
- Scanning.DishIdInjective: distinct ids are proved only for clock readings with equally many digits. `"1"+"23"` and `"12"+"3"` collide in the source, and the proof shows they do only then.
- Matcher.ToNormalized: the source would give Infinity or NaN for a zero image side; the model requires positive sides.
- ResultsScreen.SpiceIcons: `Dish.spiceLevel` is one of the four names in the model, so the zero-icon branch is reachable only through the string function itself.
- App.StepKeepsCoherent: components/BottomNav.tsx is not part of this model, so which screens it offers is unknown; the invariant is proved for navigation to any screen but the scanning one, and for fetched rows with distinct ids, as the table's key guarantees.
- Scanning.PayloadOf: the scan takes the photo's base64 payload as an input, so the case where `split(',')[1]` is undefined never reaches the data URL; the function and its round trips stand alone.
- Scanning.Analyze: `parse` is taken to return records of the schema's shape. A reply missing `originalName` would throw at components/Scanning.tsx:167 whenever OCR returned a result, even one with no lines, and that throw is not modelled.
