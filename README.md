# Sports results board — a verified model of its logic

The board records the results of three competing groups (Green, Red and
Blue) and shows them two ways: as a leaderboard of group totals and as a
results table that can be filtered. This project models the logic behind
those views. It covers:

- the leaderboard's score computation, which sums points per group and sorts the groups;
- the results-table filter: group, event type and a free-text search;
- the local ("demo") data service, which keeps the result list and a login flag in browser storage;
- the admin form's state updates;
- the application shell's view switching and its admin gate.

Everything is written in Dafny, and every stated property is proved.

Module by module:

- `Types` (`types.ts`) holds the closed enumerations, the stored `Result`
  record and the constant tables `GROUPS`, `EVENT_TYPES`, `POSITIONS` and
  `POINTS_MAP`. A stored record keeps `group`, `eventType` and `position` as
  strings, because the store returns whatever was written. `ParseGroup` maps a
  string back to a group, when it names one.
- `Leaderboard` (`components/Leaderboard.tsx`) has two parts. `ComputeScores`
  is the bucket loop over a `map<string, int>`, like the source's
  `scoresMap`. The group rows are then sorted by a stable insertion sort,
  highest total first. `Scores` is the function that specifies the whole
  computation, and the lemmas state what it promises.
- `ResultList` (`components/ResultList.tsx`) is the filter predicate and
  `filteredResults`. `Selected` is an independent reading of the filter,
  written with substrings instead of `includes`.
- `DataService` (`services/dataService.ts`, local mode only) is the class
  `LocalStore`. Its two fields are the two storage keys, and `None` stands
  for a missing key. It also has the specification functions that give the
  list after an add (`Prepended`) and after a delete (`WithoutId`).
- `AdminPanel` (`components/AdminPanel.tsx`) is the class `AdminForm`,
  holding the form state and its handlers. `HandleSubmit` and
  `HandleDelete` write through a `LocalStore`.
- `App` (`App.tsx`) is the class `AppState`, holding the view, the user, the
  results and the loading flag, with the shell's handlers and callbacks.
- `JsString` and `JsArray` model the JavaScript built-ins the core calls:
  `toLowerCase` (ASCII), `includes`, `parseInt` (base 10), `String(n)`
  and `Array.prototype.filter`.

Clock readings (`Date.now()`) are parameters. So are the user's answer to
the delete confirmation and whether storage accepts a write.

Where one might expect otherwise, the model follows the code:

- Stored points are not required to be non-negative. The points box accepts
  any integer, and `parseInt("-3")` is `-3`.
- Ids are not assumed to be unique. An id is the decimal text of a clock
  reading, and a delete removes every entry with that id.
- Ties on the leaderboard do not use a second sort key. They are left to the
  stable sort over `GROUPS` order, which gives the same outcome:
  `Leaderboard.SortRanked`.
- The tip in `App.tsx:118` says that any email and password work in demo
  mode. `loginAdmin` accepts only the one demo pair, and the model follows
  `loginAdmin`.

## Model

| member | source | states |
|---|---|---|
| `Types.PointsMap` | types.ts:27-32 | 1st is worth 5, 2nd 3, 3rd 1 and Participated 0, each value identifying its position; every value is at least 0 |
| `Types.PointsNonIncreasingAlongPositions` | types.ts:24-32 | along POSITIONS the default points never increase |
| `Types.GroupsEnumerated` | types.ts:22 | GROUPS is exactly Green, Red, Blue, has no duplicates and contains every group |
| `Types.EventTypesEnumerated` | types.ts:23 | EVENT_TYPES is exactly Athletics, Games, has no duplicates and contains every event type |
| `Types.PositionsEnumerated` | types.ts:24 | POSITIONS has four entries and lists every position exactly once |
| `Types.ParseGroup` | types.ts:1 | a stored group string yields a group exactly when it is that group's name; otherwise no group has that name |
| `Types.GroupNameRoundTrip` | types.ts:1 | the inverse law of `ParseGroup`: reading back a group's name gives that group |
| `Types.GroupIndex` | types.ts:22 | a group's index is its place in GROUPS, the declared order |
| `Leaderboard.GroupTotal` | components/Leaderboard.tsx:17-21 | defines a group's total: the sum of the stored points of the results whose group string is that group's name, taken in list order |
| `Leaderboard.RankGroups` | components/Leaderboard.tsx:23-26 | defines the rows `GROUPS.map` builds from the bucket map, in GROUPS order, then sorted by `SortByPointsDesc` |
| `Leaderboard.Scores` | components/Leaderboard.tsx:10-27 | defines the leaderboard of a result list: the bucket totals of `TotalsMap`, ranked by `RankGroups` |
| `Leaderboard.TotalsMap` | components/Leaderboard.tsx:11-21 | the bucket map has exactly the keys Green, Red and Blue, and each holds its group's total |
| `Leaderboard.ComputeScores` | components/Leaderboard.tsx:10-27 | the bucket loop followed by the sorted `GROUPS.map` returns exactly `Scores(results)` |
| `Leaderboard.InsertByPoints` | components/Leaderboard.tsx:26 | inserting into the sorted rows adds exactly the one row and loses none |
| `Leaderboard.SortByPointsDesc` | components/Leaderboard.tsx:26 | the sort is a permutation of its input |
| `Leaderboard.SortRanked` | components/Leaderboard.tsx:22-26 | rows listed in declared order come out sorted by total, highest first, with tied groups kept in declared order |
| `Leaderboard.SortKeepsSum` | components/Leaderboard.tsx:26 | sorting does not change the sum of the totals |
| `Leaderboard.ScoresCharacterised` | components/Leaderboard.tsx:23-26 | three entries with each group exactly once; each total is the sum of that group's stored points; non-increasing totals; ties in declared order |
| `Leaderboard.ScoresOfNoResults` | components/Leaderboard.tsx:11-26 | no results give Green 0, Red 0, Blue 0 in declared order |
| `Leaderboard.GroupTotalConcat` | components/Leaderboard.tsx:17-21 | a group's total over two concatenated lists is the sum of the two totals |
| `Leaderboard.GroupTotalPermutation` | components/Leaderboard.tsx:17-21 | any reordering of the results leaves every group's total unchanged |
| `Leaderboard.ScoresPermutationInvariant` | components/Leaderboard.tsx:17-26 | any reordering of the results leaves the whole leaderboard unchanged |
| `Leaderboard.BucketsCoverAllPoints` | components/Leaderboard.tsx:17-21 | when every result names Green, Red or Blue, the three bucket totals add up to all points |
| `Leaderboard.ScoresSumToAllPoints` | components/Leaderboard.tsx:17-26 | when every result names a known group, the leaderboard's totals add up to all points |
| `Leaderboard.UnknownGroupIgnored` | components/Leaderboard.tsx:18 | a result whose group is not Green, Red or Blue, wherever it sits, leaves the leaderboard unchanged |
| `Leaderboard.ScenarioMixedGroups` | components/Leaderboard.tsx:10-27 | Green 5 and 1, Red 3 and no Blue give Green 6, Red 3, Blue 0 |
| `Leaderboard.ScenarioTieKeepsDeclaredOrder` | components/Leaderboard.tsx:22-26 | Green 10, Red 10, Blue 5 come out as Green, Red, Blue, not Red, Green, Blue |
| `Leaderboard.ScenarioStoredPointsCount` | components/Leaderboard.tsx:19 | a 1st place stored with 99 points adds 99, not the position's default |
| `JsArray.Filter` | components/ResultList.tsx:15 | keeps exactly the elements satisfying the predicate, each as often as in the input, and is never longer |
| `JsArray.FilterIsSubsequence` | components/ResultList.tsx:15 | the kept elements keep their relative order |
| `JsArray.FilterIdempotent` | components/ResultList.tsx:15 | filtering the output again with the same predicate changes nothing |
| `JsString.Includes` | components/ResultList.tsx:19-21 | defines `includes` by scanning the text from each start position for the term |
| `JsString.ParseInt` | components/AdminPanel.tsx:162 | defines base-10 `parseInt`: skip leading space, tab, line feed, vertical tab, form feed and carriage return; read one optional sign, then the longest run of digits; no digits give NaN (None) |
| `JsString.DecimalString` | services/dataService.ts:48 | the text `Date.now().toString()` gives a clock reading, the id of a new record: never empty and made of decimal digits only |
| `JsString.DecimalStringValue` | services/dataService.ts:48 | the digits written for a natural number denote that number |
| `JsString.IntString` | components/AdminPanel.tsx:161 | defines the text the points box shows for `value={formData.points}`: a minus sign before the digits of a negative number, the digits alone otherwise |
| `JsString.ParseIntString` | components/AdminPanel.tsx:161-162 | `parseInt` reads back the text written for any integer and gives that integer |
| `JsString.ToLower` | components/ResultList.tsx:19-21 | lower-casing keeps the length and lowers each character |
| `JsString.ToLowerIdempotent` | components/ResultList.tsx:19-21 | lower-casing twice is lower-casing once |
| `JsString.IncludesIsSubstring` | components/ResultList.tsx:19-21 | `includes` holds exactly when the term occurs in the text at some position |
| `JsString.IncludesEmpty` | components/ResultList.tsx:19-21 | the empty term is in every text |
| `ResultList.Matches` | components/ResultList.tsx:16-23 | defines the filter predicate: group condition and event condition and the lower-cased search in the name, event name or register number |
| `ResultList.FilterResults` | components/ResultList.tsx:14-25 | defines `filteredResults`: the results kept by `Matches`, as `Array.prototype.filter` keeps them |
| `ResultList.MatchesIsSelected` | components/ResultList.tsx:16-23 | the filter predicate holds exactly when the group condition, the event condition and the case-insensitive substring search all hold |
| `ResultList.FilterMembership` | components/ResultList.tsx:15-23 | a record is shown exactly when it is in the input and is selected by all three conditions |
| `ResultList.FilterKeepsOrder` | components/ResultList.tsx:15 | the shown records keep the input's relative order and are never more than the input |
| `ResultList.NoFilterShowsAll` | components/ResultList.tsx:16-21 | 'All', 'All' and an empty search show the input unchanged |
| `ResultList.SearchIgnoresCase` | components/ResultList.tsx:19-21 | search terms that are equal once lower-cased show the same records |
| `ResultList.SearchTermLowered` | components/ResultList.tsx:19-21 | a term and its lower-cased form show the same records |
| `ResultList.AbsentGroupShowsNothing` | components/ResultList.tsx:16 | a group that no record has shows the empty list |
| `ResultList.FilterIdempotentResults` | components/ResultList.tsx:15-23 | filtering the shown records again with the same settings changes nothing |
| `ResultList.GroupAndEventOnly` | components/ResultList.tsx:16-17 | with an empty search, a group and an event type show exactly the records that have both |
| `ResultList.SearchFindsJohnDoe` | components/ResultList.tsx:18-21 | "john", "JOHN" and "Doe" all find the student "John Doe" |
| `DataService.LocalStore.LocalResults` | services/dataService.ts:19-22 | reading gives the stored list, or the empty list when nothing is stored |
| `DataService.LocalStore.CurrentUser` | services/dataService.ts:102-105 | the demo admin is reported exactly when the flag reads "true", and no one otherwise |
| `DataService.LocalStore.AddResult` | services/dataService.ts:46-54 | when storage accepts the write, the list becomes the new record, with the clock's id, in front of the old list; otherwise nothing changes; the login flag is untouched |
| `DataService.LocalStore.DeleteResult` | services/dataService.ts:60-65 | when storage accepts the write, the list becomes the old list without the entries carrying the id; otherwise nothing changes; the login flag is untouched |
| `DataService.LocalStore.LoginAdmin` | services/dataService.ts:78-84 | refuses exactly when the pair is not admin@college.com with admin123; signs in exactly for that pair when storage accepts the write, and only then is the flag set, so the admin is reported; a write that throws is a rejection; on refusal or rejection nothing changes |
| `DataService.LocalStore.LogoutAdmin` | services/dataService.ts:91-94 | the flag is removed, so no one is reported; the list is untouched |
| `DataService.Prepended` | services/dataService.ts:47-49 | defines the list after an add: the record with its id in front of the current list |
| `DataService.WithoutId` | services/dataService.ts:61-62 | defines the list after a delete: the current list filtered to the entries whose id differs |
| `DataService.PrependedShape` | services/dataService.ts:47-50 | after an add the list is one longer, its head is the given fields with the given id, and its tail is the old list unchanged |
| `DataService.WithoutIdCharacterised` | services/dataService.ts:61-62 | after a delete the list holds exactly the old entries with another id, in their old order, and no entry has the deleted id |
| `DataService.WithoutAbsentId` | services/dataService.ts:62 | deleting an id that no entry has leaves the list unchanged |
| `DataService.WithoutIdIdempotent` | services/dataService.ts:62 | deleting the same id twice is the same as deleting it once |
| `DataService.AddThenDeleteRestores` | services/dataService.ts:47-62 | deleting the id just added, when no old entry had it, gives back the old list |
| `AdminPanel.InitialFormConsistent` | components/AdminPanel.tsx:11-19 | the form starts at Green, Athletics and 1st, with the points equal to 1st's default |
| `AdminPanel.AdminForm.constructor` | components/AdminPanel.tsx:11-19 | a new panel holds the initial form |
| `AdminPanel.AdminForm.HandlePositionChange` | components/AdminPanel.tsx:24-30 | sets the position and its default points, and changes no other field |
| `AdminPanel.AdminForm.SetPointsInput` | components/AdminPanel.tsx:162 | the points become the parsed number, or 0 when the text holds none; no other field changes |
| `AdminPanel.PointsFromInput` | components/AdminPanel.tsx:162 | defines `parseInt(text) \|\| 0`: the parsed number, or 0 when the text holds no number |
| `AdminPanel.PointsInputRoundTrip` | components/AdminPanel.tsx:158-162 | reading back the text the box shows for any points gives the same points |
| `AdminPanel.PointsInputCleared` | components/AdminPanel.tsx:162 | an emptied box stores 0 |
| `AdminPanel.PointsInputOverridesDefault` | components/AdminPanel.tsx:162 | some typed value makes the points differ from the position's default |
| `AdminPanel.AdminForm.SetStudentName` | components/AdminPanel.tsx:87 | only the student name changes |
| `AdminPanel.AdminForm.SetRegNo` | components/AdminPanel.tsx:99 | only the register number changes |
| `AdminPanel.AdminForm.SetGroup` | components/AdminPanel.tsx:110 | only the group changes |
| `AdminPanel.AdminForm.SetEventType` | components/AdminPanel.tsx:126 | only the event type changes |
| `AdminPanel.AdminForm.SetEventName` | components/AdminPanel.tsx:140 | only the event name changes |
| `AdminPanel.Submitted` | components/AdminPanel.tsx:36-39 | defines the record handed to `addResult`: every form field, with the enumerations as their names, plus the timestamp |
| `AdminPanel.ClearedAfterSubmit` | components/AdminPanel.tsx:41-46 | defines the form after a successful add: the student name, register number and event name emptied, the rest kept |
| `AdminPanel.AdminForm.HandleSubmit` | components/AdminPanel.tsx:32-54 | the store receives the current fields plus the timestamp; after a successful add, the name, register number and event name are emptied and the rest is kept; after a failed add, the form and the list are unchanged |
| `AdminPanel.AdminForm.HandleDelete` | components/AdminPanel.tsx:56-60 | the entries with the id are removed only when the dialog is confirmed and storage accepts the write; otherwise nothing changes |
| `AdminPanel.SubmittedRecordScores` | components/AdminPanel.tsx:36-39 | a submitted record is stored under its group's name, adds its points to that group's total and leaves the other totals unchanged |
| `App.NavigateTo` | App.tsx:42-48 | the admin view is opened only for a signed-in user; the target is replaced only when it is admin and no one is signed in, and then by the login view |
| `App.AppState.constructor` | App.tsx:13-16 | the shell starts on the home view, with no user and no results, still loading |
| `App.AppState.HandleNavigate` | App.tsx:42-48 | the view becomes `NavigateTo(user, target)` and nothing else changes; after navigating to admin, the panel shows exactly when loaded with a user |
| `App.AppState.ShowsAdminPanel` | App.tsx:109 | the admin panel is rendered only on the admin view with a signed-in user |
| `App.AppState.OnAuthChange` | App.tsx:31-33 | the auth callback replaces the user and nothing else |
| `App.AppState.OnResults` | App.tsx:20-23 | the results callback replaces the results and ends loading |
| `App.AppState.OnLocalUpdate` | App.tsx:26-28 | the local-update callback replaces the results and nothing else |
| `App.AppState.OnLoginSuccess` | App.tsx:105 | a successful login opens the admin view |
| `App.AppState.HandleLogout` | App.tsx:50-53 | after logout the view is home, no one is signed in, the admin panel is hidden, the flag is removed and the results are untouched |

## Left out

- The remote backend is not modelled: the Firestore and Firebase Auth calls in `services/dataService.ts`, and the `isFirebaseConfigured` check that selects the backend. These are foreign network services, so only the local branches are modelled.
- JSON serialisation of the stored list is not modelled. A value under the results key that is not valid JSON makes `getLocalResults` throw; the model stores the decoded list directly.
- Window events are not modelled as events. `local-data-update` and `local-auth-update` are dispatched synchronously in local mode. The model treats them as direct calls: `HandleLogout` calls `OnAuthChange` with `CurrentUser()`. The results refresh after an add or delete is `OnLocalUpdate`, but no model method links it to the store.
- Subscription set-up and tear-down (`subscribeToResults`, `listenForLocalUpdates`, `subscribeToAuth` and the `useEffect` cleanup) and asynchrony are not modelled. Their callbacks are modelled as methods.
- `Date.now()` is not modelled: ids and timestamps are parameters.
- `JsString.ToLower` uses ASCII case mapping only; JavaScript's `toLowerCase` applies full Unicode case mapping.
- `JsString.ParseInt` reads only base 10 after the six ASCII white-space characters (space, tab, line feed, vertical tab, form feed, carriage return). It does not model the `0x` prefix, the non-ASCII white space JavaScript also skips (such as U+00A0, U+FEFF and the line separators), or the rounding of very long digit strings to a float.
- Points and totals are unbounded integers, while JavaScript numbers are floating point.
- The leaderboard's `scoresMap` lookup is not modelled for the object's inherited keys. A stored group such as "constructor" passes the `!== undefined` check in JavaScript, but it writes only to a non-bucket property, so the three totals are the same as when the result is skipped.
- The browser's `required` form validation (`components/AdminPanel.tsx:82`, `:94`, `:135`, `:158`) is not modelled. It blocks the submit event while a required field is empty, before `handleSubmit` runs.
- Presentation is not modelled: JSX rendering, CSS class selection, icons, the success message and its `setTimeout`, the `alert` on failure, the panel's `loading` flag, and the record count.
- `components/Navbar.tsx` and `components/Login.tsx` are not part of this model. They only present views and call `loginAdmin`.
- `firebaseConfig.ts` is not part of this model; it holds constant configuration.
