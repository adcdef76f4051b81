# Community hazard app: state and mapping logic in Dafny

This project models the deterministic logic of a single-page mobile app that
shows community hazard information. The app has a home view, an alerts list,
a risk map, a preparedness checklist and an incident-report form. The model
covers the parts of that code that decide something:

- **Report store** (`ReportsDB`). It is an in-memory list of incident reports,
  kept newest first, with a counter that hands out ids. `GetAll` returns a
  stable copy sorted by timestamp, newest first. `Add` stamps a draft with id
  `String(nextId)` and count 1, then prepends it. `GetRecent` slices the
  sorted copy the way `Array.prototype.slice(0, limit)` does, with 10 as the
  default limit.
- **Decimal ids** (`Decimal`). This is `String(n)` for natural numbers, with its
  inverse. It is used for report ids and checklist ids.
- **Distinct keys** (`Keys`). This is the one definition of "no two entries
  share an id". The store, the checklist, the bottom bar and the report-type
  buttons each apply it to their own id field.
- **Preparedness checklist** (`Checklist`). It starts with ten items. A click
  toggles an item by id. The view shows the completed and remaining counts and
  a "kit complete" banner.
- **Home location line** (`Location`). It starts as a loading placeholder. One
  lookup later it holds either a label built from the address fields of the
  reverse-geocoding answer or the default "Cali, Valle del Cauca".
- **Report form** (`ReportForm`). The user selects a type, edits a description
  and submits. A submit with no type is refused and changes nothing. A
  successful submit resets the form.
- **Navigation** (`Navigation`). The page dispatches on the active tab, and
  any unknown tab falls back to the home view. The bottom bar highlights the
  item whose id equals the tab. The home view's quick actions request tabs.
- **Risk badge** (`RiskBadge`). It maps the three-level risk type and a size to
  the text shown and the style classes.

The alerts view (`src/components/AlertsView.tsx`) lists three fixed alerts.
There is no alert-generation logic to model.

The model treats every piece of state as a value. Each UI piece's state is a
datatype, and its transitions are pure functions. The source shares report
objects between the store and its callers; "## Left out" says what that
leaves unmodelled. Browser APIs, network calls, the clock and
notifications become parameters or returned values.

Where the source's behaviour differs from a plain reading, the model follows
the code:

- The report form never writes to the report store. Its submit only shows a
  notice and clears the form.
- The send button is disabled while no type is selected. The submit handler's
  error branch is therefore unreachable from the form, and a click on the
  disabled button does nothing.
- An unrecognised tab shows the home view, but it leaves every bottom-bar item
  unhighlighted.
- The "kit complete" banner compares a floating-point percentage with 100. For
  an empty list that percentage is NaN, so the banner is off. The model states
  the banner as "non-empty and every item ticked".
- A geocoding answer whose body has no `address` object makes the read of
  `address.city` throw. The `catch` then shows the default label. The model
  writes this as `ResponseOk(None)`.

## Model

| member | source | states |
|---|---|---|
| Decimal.FromNat | src/lib/reportsDB.ts:40 | `String(n)` of a natural number is a non-empty digit string with no leading zero, one character long exactly for n < 10 |
| Decimal.ToNatFromNat | src/lib/reportsDB.ts:40 | reading back the decimal rendering of n gives n |
| Decimal.FromNatToNat | src/lib/reportsDB.ts:40 | every canonical digit string is the rendering of the number it denotes, so rendering is a bijection onto canonical strings |
| Decimal.FromNatInjective | src/lib/reportsDB.ts:40 | two numbers render to the same id exactly when they are equal |
| ReportsDB.Init | src/lib/reportsDB.ts:18-31 | the new store holds one report with id "1", count 1, dated twenty minutes before `now`; the counter is 2; the store invariant holds |
| ReportsDB.Add | src/lib/reportsDB.ts:37-45 | the new report gets id `String(nextId)` and count 1 and keeps every draft field; the counter goes up by one; the stored list is the new report followed by the old list in order; the returned report is the stored one |
| ReportsDB.AddPreservesValid | src/lib/reportsDB.ts:31-45 | `add` keeps the invariant that the report at position i has id `String(n - i)` and count 1, and the counter is one past the length |
| ReportsDB.ValidIdsDistinct | src/lib/reportsDB.ts:18-45 | in any store reached from the initial one, no two reports share an id |
| ReportsDB.AddIdFresh | src/lib/reportsDB.ts:31-45 | the id `add` hands out is not already stored, and as a number it exceeds every stored id, so ids strictly increase |
| ReportsDB.StoredIdsBelow | src/lib/reportsDB.ts:31-45 | in a valid store every stored id, read as a number, is below the counter, so no stored id equals the next one |
| ReportsDB.AddAll | src/lib/reportsDB.ts:37-45 | a run of `add` calls grows the store and the counter by one per call |
| ReportsDB.ReachableValid | src/lib/reportsDB.ts:18-45 | the seed store followed by any run of `add` calls keeps the invariant, so its ids are pairwise distinct |
| ReportsDB.SortNewestFirst | src/lib/reportsDB.ts:34 | sorting by `b.timestamp - a.timestamp` yields a permutation of the list in non-increasing timestamp order |
| ReportsDB.InsertSorted | src/lib/reportsDB.ts:34 | inserting a report into a newest-first list keeps it newest first and adds exactly that report |
| ReportsDB.GetAll | src/lib/reportsDB.ts:33-35 | `getAll` returns a permutation of the stored reports, in non-increasing timestamp order; the store is not changed |
| ReportsDB.GetAllStable | src/lib/reportsDB.ts:34 | reports with the same timestamp keep their stored relative order (the stable sort) |
| ReportsDB.SliceEnd | src/lib/reportsDB.ts:48 | `slice(0, end)` stops at min(end, n) for a non-negative end, and at max(n + end, 0) for a negative one |
| ReportsDB.GetRecent | src/lib/reportsDB.ts:47-49 | `getRecent(limit)` is the prefix of `getAll()` of that slice length, with limit 10 when it is omitted |
| ReportsDB.GetRecentDefault | src/lib/reportsDB.ts:47 | with no limit, the result has min(10, n) reports and equals `getRecent(10)` |
| Checklist.Initial | src/components/PrepareView.tsx:15-26 | the checklist starts with 10 items, the i-th with id `String(i + 1)`, none completed |
| Checklist.InitialDistinct | src/components/PrepareView.tsx:15-26 | the initial ids are pairwise distinct |
| Checklist.Toggle | src/components/PrepareView.tsx:28-34 | toggling keeps length, order, ids, icons and texts; an item's `completed` flag flips exactly when its id is the one toggled |
| Checklist.ToggleTwice | src/components/PrepareView.tsx:28-34 | toggling the same id twice restores the list |
| Checklist.ToggleAbsent | src/components/PrepareView.tsx:28-34 | toggling an id that no item carries leaves the list unchanged |
| Checklist.CompletedCount | src/components/PrepareView.tsx:36 | the completed count lies between 0 and the list length |
| Checklist.CountIsTrueFlags | src/components/PrepareView.tsx:36 | the completed count is the number of `true` flags in the list |
| Checklist.AllCompletedIff | src/components/PrepareView.tsx:36 | the count equals the length exactly when every item is completed |
| Checklist.NoneCompletedIff | src/components/PrepareView.tsx:36 | the count is zero exactly when no item is completed |
| Checklist.ToggleCount | src/components/PrepareView.tsx:28-36 | with distinct ids, toggling an item lowers the count by one if it was completed and raises it by one otherwise |
| Checklist.Remaining | src/components/PrepareView.tsx:63 | the remaining count plus the completed count is the list length |
| Checklist.KitCompleteIff | src/components/PrepareView.tsx:37-61 | the kit is complete (the predicate `KitComplete`, the condition of the banner) exactly when the list is non-empty and nothing remains, that is, when every item is completed |
| Checklist.ProgressMessage | src/components/PrepareView.tsx:61-64 | the banner shows the completion text when the kit is complete, and otherwise "Faltan N elementos" with N the remaining count in decimal |
| Checklist.FreshProgress | src/components/PrepareView.tsx:36-64 | a list of ten unticked items has count 0 and 10 remaining, is not complete, and reads "Faltan 10 elementos" |
| Checklist.InitialProgress | src/components/PrepareView.tsx:15-64 | the checklist as the view opens has count 0 and reads "Faltan 10 elementos" |
| Location.FirstTruthy | src/components/HomeView.tsx:50-51 | the chain of JavaScript `or` operators ending in a fallback gives the first truthy field (`Truthy`: present and non-empty), or the fallback when there is none |
| Location.FirstTruthyChoice | src/components/HomeView.tsx:50-51 | the result is always the fallback or one of the truthy fields |
| Location.FirstIndex | src/components/HomeView.tsx:50-51 | when some field is truthy, there is a first truthy position, and every field before it is falsy |
| Location.City | src/components/HomeView.tsx:50 | the city part is never empty |
| Location.CityFallbackChain | src/components/HomeView.tsx:50 | the city is the first truthy of city, town, village and municipality, otherwise "Ubicación" |
| Location.StateFallbackChain | src/components/HomeView.tsx:51 | the state part (`State`) is the first truthy of state and region, otherwise "" |
| Location.AddressLabel | src/components/HomeView.tsx:53 | the label is `city + ", " + state` when the state is non-empty and the city alone otherwise; it is never empty |
| Location.Initial | src/components/HomeView.tsx:16-17 | the view starts loading, with the placeholder "Obteniendo ubicación..." |
| Location.Resolve | src/components/HomeView.tsx:28-68 | every completion clears the loading flag; no geolocation, a geolocation error, a thrown request, a non-ok response or a body with no address gives "Cali, Valle del Cauca"; an ok answer with an address gives that address's label |
| Location.Shown | src/components/HomeView.tsx:87-91 | the placeholder is shown while loading, and the stored label after |
| Location.ResolvedShowsLabel | src/components/HomeView.tsx:87-91 | after any lookup, the line shows the stored label and is never blank |
| Navigation.Dispatch | src/pages/Index.tsx:12-27 | the view rendered is the one the tab names, or the home view for a tab that is not a bar id |
| Navigation.DispatchTabOf | src/pages/Index.tsx:12-27 | each of the five views is reached from its own tab, and that tab is a bar id |
| Navigation.DispatchDefault | src/pages/Index.tsx:24-25 | any unrecognised tab string shows the home view |
| Navigation.Initial | src/pages/Index.tsx:10 | the active tab starts as "home", a bar id that shows the home view |
| Navigation.SetActiveTab | src/pages/Index.tsx:10 | after `setActiveTab(t)` the active tab is t |
| Navigation.Render | src/pages/Index.tsx:29-35 | the bar always receives the current tab; the view is the tab's own for a bar id and the home view otherwise |
| Navigation.ActiveCount | src/components/BottomNav.tsx:21-23 | the number of highlighted items is at most the number of items |
| Navigation.ActiveCountDistinct | src/components/BottomNav.tsx:21-23 | among items with distinct ids, exactly one is highlighted when the tab is one of their ids and none otherwise |
| Navigation.NavItemsDistinct | src/components/BottomNav.tsx:10-16 | the bar has five items with pairwise distinct ids |
| Navigation.AtMostOneActive | src/components/BottomNav.tsx:10-23 | the bar (whose item is highlighted when `IsActive`, its id equals the tab) highlights exactly one item for a recognised tab and none for any other string |
| Navigation.Click | src/components/BottomNav.tsx:28 | clicking an item requests the tab that makes that item active |
| Navigation.ClickSelects | src/components/BottomNav.tsx:23-28 | after clicking the k-th item, it is the only highlighted item and the page shows its view |
| Navigation.QuickActionsNavigate | src/components/HomeView.tsx:138-169 | the three quick actions request bar tabs that show the alerts, preparedness and map views, in that order |
| ReportForm.ReportTypesDistinct | src/components/ReportView.tsx:12-19 | there are six report types, with distinct non-empty ids |
| ReportForm.HandleSubmit | src/components/ReportView.tsx:21-31 | a submit shows an error exactly when no type is selected, and then leaves the form unchanged; otherwise it shows the success notice and resets type and description to "" |
| ReportForm.Step | src/components/ReportView.tsx:21-137 | selecting a type sets only `selectedType`; editing sets only `description`; neither shows a notice; a click on the send button shows one notice and resets the form when it is enabled (`SubmitEnabled`, a type is selected), and does nothing when it is disabled |
| ReportForm.FreshFormSubmitDisabled | src/components/ReportView.tsx:137 | the form opens empty (`Empty`), with the send button disabled, so a click on it does nothing |
| ReportForm.Run | src/components/ReportView.tsx:21-137 | a session shows at most one notice per click on send, and every notice it shows is the success notice |
| ReportForm.ResubmitRefused | src/components/ReportView.tsx:21-137 | after a successful submit, an immediate second submit is refused: the handler would show the error, and the button is disabled so the click does nothing |
| ReportForm.DescriptionIrrelevant | src/components/ReportView.tsx:22 | whether a submit succeeds does not depend on the description |
| ReportForm.RunKeepsSane | src/components/ReportView.tsx:9-62 | if every selection comes from the type buttons, the selected type is always "" or a listed type id |
| ReportForm.EnabledSubmits | src/components/ReportView.tsx:137 | the clicks on send made while the button is enabled are at most all the clicks on send |
| ReportForm.NoticesPerSubmit | src/components/ReportView.tsx:21-137 | a session shows exactly one notice per click on the enabled send button and none for any other event |
| ReportForm.NoErrorNotices | src/components/ReportView.tsx:21-137 | no session through the form ever shows the "select a type" error, because the button is disabled whenever the handler would raise it |
| RiskBadge.ShownText | src/components/RiskBadge.tsx:12-16 | a supplied non-empty text is shown; otherwise the level's word (`DefaultText`) Seguro, Alerta or Peligro is shown; never empty |
| RiskBadge.EffectiveSize | src/components/RiskBadge.tsx:11 | the size defaults to medium |
| RiskBadge.Applied | src/components/RiskBadge.tsx:26-32 | the class joiner keeps a class exactly when some argument carrying it has a true condition, and it keeps no more classes than it was given |
| RiskBadge.AppliedCount | src/components/RiskBadge.tsx:26-32 | the joiner keeps one class per argument whose condition holds (the number of `true` entries of `Conditions`, the arguments' conditions in order) |
| RiskBadge.AppliedAppend | src/components/RiskBadge.tsx:26-32 | the joiner keeps argument order: joining two argument lists gives the classes of the first followed by those of the second |
| RiskBadge.OneColorApplies | src/components/RiskBadge.tsx:28-30 | of the three `level === x && classes` arguments (`ColorCandidates`), exactly one colour class applies, and it is the level's own |
| RiskBadge.Classes | src/components/RiskBadge.tsx:26-32 | the badge carries the base classes, the level's colour (`ColorClass`) and the effective size's padding (`SizeClass`) |
| RiskBadge.ClassesDistinguish | src/components/RiskBadge.tsx:12-22 | different levels get different colours and words, and different sizes get different padding |
| RiskBadge.TextOverridesLevel | src/components/RiskBadge.tsx:12-16 | a supplied text replaces the word whatever the level |
| RiskBadge.HomeStatusBadge | src/components/HomeView.tsx:101 | the home status badge reads "Alerta", with the alert colour at the large size |

## Left out

- Alert generation is left out because the app has none. `src/components/AlertsView.tsx` lists three fixed alerts, and its narration button only logs.
- `src/lib/emailService.ts` (sending reports by email) and `src/components/MapView.tsx` (static markup) are left out. Both are I/O or presentation.
- The browser geolocation call and the reverse-geocoding request are left out. They are I/O, so the model takes their outcome as the `Location.Lookup` parameter.
- The clock is left out. `Date.now()` in the seed report is the `now` parameter of `ReportsDB.Init`.
- Toasts are left out. They are side effects, so the model returns them as `ReportForm.Notice` values.
- JSX rendering, animations, icons and the merging done by the class joiner are left out. They are presentation only.
- ReportsDB.Add: the source returns the stored object itself (src/lib/reportsDB.ts:43-44), and `getAll` copies only the array, not the reports (src/lib/reportsDB.ts:34). A caller can mutate a stored report through either. The model's reports are values, so `Valid`, `ValidIdsDistinct` and `ReachableValid` hold only for callers that never mutate a returned report.
- ReportsDB.GetRecent: takes an integer limit or none. It does not model fractional, NaN or `null` limits, which `slice` converts to integers.
- ReportsDB.Add: the counter is unbounded. It does not model ids past 2^53, where JavaScript numbers lose precision, or `String` switching to exponent notation at 10^21.
- ReportsDB.GetAll: timestamps are integers. It does not model NaN timestamps, or comparator subtraction overflowing floating-point precision.
- Checklist.KitCompleteIff: uses the integer condition. It does not model the floating-point percentage, which the progress bar also uses for its width.
