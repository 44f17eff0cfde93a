# Ride comparison: route estimate, ride tabs and location field

A Dafny model of the logic inside a React ride-comparison page. The model has
three parts:

- **Map panel** (`src/components/Map.tsx`). When both a source and a
  destination are present, an effect arms a timer. When the timer fires, the
  panel shows a distance and a duration from `getRouteDetails`, which works in
  three steps:
  - it looks up the lower-cased `source-destination` key in a table of six
    known routes;
  - if that misses, it looks up the reversed key;
  - if both miss, it derives an estimate from the two name lengths:
    5 km plus 3.5 km per step of `(source.length + destination.length) mod 10`,
    and 1.8 minutes per kilometre, rounded. JavaScript's `length` counts
    UTF-16 code units, so a character above U+FFFF counts twice.
- **Ride tabs** (`src/components/RideOptions.tsx`). There is a fixed catalog of
  five offers, and four tabs are built from it:
  - *all*: the catalog as it is;
  - *economy*: fares below 300;
  - *premium*: fares of 300 and more;
  - *fastest*: a stable ascending sort on pickup time plus travel time, cut to
    the first three, with only the first one marked "Fastest option".

  The tabs appear only when both names are present.
- **Location field** (`src/components/LocationInput.tsx`). This is a text value
  and an `isDetecting` flag.
  - Typing sets the value.
  - Leaving the field reports the untrimmed value if it has a character that
    is not white space.
  - "Detect location" runs until a completion event. At completion, a field
    whose label contains "pickup" (ignoring case) takes and reports
    "Current Location". Any other field reports nothing.

Modules:

| module | file | what it holds |
|---|---|---|
| `Options` | `options.dfy` | `Option`, for `undefined` and for "reported nothing" |
| `Text` | `text.dfy` | the JavaScript string operations the page uses: `length` in UTF-16 code units, ASCII `toLowerCase`, `includes`, `trim` with the ECMAScript white-space set, and decimal rendering and reading of whole numbers |
| `Route` | `route.dfy` | `getRouteDetails`: the known-route table, the key lookups, the fallback, and the formatting |
| `MapPanel` | `map_panel.dfy` | the map panel's effect as a state machine over prop changes and timer expiries |
| `Rides` | `rides.dfy` | the catalog, the filters, the stable sort, the fastest-tab override, and the `showMockResults` guard |
| `LocationInput` | `location_input.dfy` | the field's handlers and its event runs |

How the model represents things:

- **Numbers.** Fallback distances are whole tenths of a kilometre, `50 + 35c`.
  Durations are whole minutes: `Math.round` of the distance times 1.8,
  computed as exact rational half-up rounding of `18 * tenths / 100`. For the
  ten possible buckets this gives 9, 15, 22, 28, 34, 41, 47, 53, 59 and 66
  minutes.
- **Absent values.** An absent prop (`undefined`) is the empty string. Both
  are falsy, so the guard at `src/components/Map.tsx:22` treats them alike.
  The effect's dependency list (`src/components/Map.tsx:67`) does tell them
  apart, and a change between them re-runs the effect. That re-run is
  invisible: while a prop is falsy no timer is pending, so the cleanup
  cancels nothing and the guard arms nothing
  (`MapPanel.FalsyRerunChangesNothing`).
- **Missing offer fields.** A missing `recommended` field is `false`. A missing
  `recommendReason` is `None`.
- **Timers.** The timers are explicit events: `Fire` for the map panel,
  `DetectDone` for the location field.

What the estimator does with unusual names:

- **Whitespace-only names.** There is no error path for empty or
  whitespace-only names. The only guard is JavaScript truthiness
  (`source && destination`, `src/components/Map.tsx:22`), so names made only
  of spaces get an estimate. `Route.SpacesGetEstimate` and
  `MapPanel.SpacesArePresent` show this.
- **No trimming.** Keys are lower-cased but not trimmed, and the fallback uses
  the raw lengths of the names as typed.
- **Characters above U+FFFF.** They count twice in `length`, so they move a
  name to another bucket: U+1F600 (an emoji) with "a" gets 15.5 km and 28 min
  (`Route.AstralCountsTwice`).
- **Distance range.** The comment at `src/components/Map.tsx:51` says the
  fallback lies "between 5-40 km". The formula gives 5.0 to 36.5 km
  (`Route.Fallback`).

## Model

| member | source | states |
|---|---|---|
| Text.LowerIdempotent | src/components/Map.tsx:38-39 | lower-casing an already lower-cased name changes nothing |
| Text.JsLength | src/components/Map.tsx:50 | `length` counts UTF-16 code units: at least the number of characters and at most twice it |
| Text.JsLengthIsSize | src/components/Map.tsx:50 | `length` equals the number of characters exactly when no character lies above U+FFFF |
| Text.LowerSameJsLength | src/components/Map.tsx:38-50 | names that lower-case alike have the same `length` |
| Text.DigitRunSpec | src/components/Map.tsx:55-58 | the leading digits of a text form a prefix made only of decimal digits, and the character after them, if any, is not a digit |
| Text.DigitRunPrefix | src/components/Map.tsx:55-58 | a run of digits followed by a non-digit is read off exactly, so a number and the unit that follows it cannot run together |
| Text.DigitsSplit | src/components/Map.tsx:55-58 | a text splits in only one way into a run of digits and a rest that does not start with a digit |
| Text.TwoNumbersSplit | src/components/Map.tsx:57 | a text made of two runs of digits, each followed by a fixed separator starting with a non-digit, determines both runs |
| Text.Includes | src/components/LocationInput.tsx:25 | `includes` is true exactly when the needle occurs at some position of the text |
| Text.TrimStart | src/components/LocationInput.tsx:39 | the result is a suffix of the input, everything removed is white space, and it does not start with white space |
| Text.TrimEnd | src/components/LocationInput.tsx:39 | the result is a prefix of the input, everything removed is white space, and it does not end with white space |
| Text.TrimNonEmptyIff | src/components/LocationInput.tsx:39 | `value.trim()` is non-empty exactly when the value has a character that is not white space |
| Text.NatToStringDigits | src/components/Map.tsx:55-58 | a whole number renders as a non-empty string of decimal digits with no leading zero |
| Text.ParseNatToString | src/components/Map.tsx:55-58 | reading the rendered digits back gives the number: rendering loses nothing |
| Route.FindFrom | src/components/Map.tsx:42-45 | a table lookup returns the position of an entry with exactly that key, or reports that no entry has it |
| Route.KeysDistinct | src/components/Map.tsx:28-35 | no two entries of the known-route table share a key, as in an object literal |
| Route.NoEntryReversed | src/components/Map.tsx:28-35 | no route is listed in both directions |
| Route.SplitAtDash | src/components/Map.tsx:38 | two dash-free names joined by a dash can be recovered from the key |
| Route.FoundMeansNames | src/components/Map.tsx:28-43 | a forward key hits exactly the entry whose two names are the lower-cased source and destination |
| Route.ListedIsFound | src/components/Map.tsx:28-43 | an entry listing the lower-cased pair is the one the lookup finds |
| Route.ForwardExcludesReverse | src/components/Map.tsx:42-45 | when the forward key is known, the reverse key is not |
| Route.RouteDetailsByNames | src/components/Map.tsx:38-59 | the estimate is the entry listing the pair in this order, else the entry listing it reversed, else the rendered fallback |
| Route.RouteDetailsSymmetric | src/components/Map.tsx:38-59 | swapping source and destination never changes the estimate |
| Route.DetailsByKeys | src/components/Map.tsx:38-50 | the estimate depends on the names only through the two keys and the fallback bucket |
| Route.RouteDetailsIgnoresCase | src/components/Map.tsx:38-39 | names that agree up to case get the same estimate |
| Route.RoundHalfUp | src/components/Map.tsx:52 | `Math.round` of a non-negative fraction: the nearest whole number, with halves rounding up |
| Route.Bucket | src/components/Map.tsx:50 | the combined UTF-16 `length` modulo 10 is a step from 0 to 9 |
| Route.BucketOfBmp | src/components/Map.tsx:50 | for names without characters above U+FFFF, the bucket is the number of characters modulo 10 |
| Route.Fallback | src/components/Map.tsx:50-52 | the distance is 5 km plus 3.5 km per step, between 5.0 and 36.5 km; the duration is the distance times 1.8 rounded half-up, between 9 and 66 minutes |
| Route.DistanceReadsBack | src/components/Map.tsx:55 | whenever the distance display reads as digits, a point, one digit and " km", the digits are the whole kilometres and the last digit the tenths of the distance it was made from |
| Route.DurationInHours | src/components/Map.tsx:56-57 | from 60 minutes on, the duration reads "H hr M min" with M the remaining minutes below 60 |
| Route.HoursReadBack | src/components/Map.tsx:56-57 | from 60 minutes on, whenever the duration display reads as digits, " hr ", digits and " min", the first digits denote the whole hours and the second the minutes left over |
| Route.MinutesReadBack | src/components/Map.tsx:56-58 | below 60 minutes, whenever the duration display reads as digits and " min", the digits denote the minutes it was made from |
| Route.DowntownToMarina | src/components/Map.tsx:31-45 | "Downtown"/"Marina" in either order and in mixed case gives 5.7 km and 15 min |
| Route.ParkLakeUnlisted | src/components/Map.tsx:28-35 | "Park X"/"Lake Y" is in the table in neither order |
| Route.BucketTwoEstimate | src/components/Map.tsx:50-58 | the fallback for names whose lengths add up to 2 modulo 10 is "12.0 km" and "22 min" |
| Route.ParkLakeBucket | src/components/Map.tsx:50 | "Park X" and "Lake Y" together fall in bucket 2 |
| Route.UnlistedGetsFallback | src/components/Map.tsx:42-58 | a pair listed in the table in neither order gets the rendered fallback |
| Route.ParkToLake | src/components/Map.tsx:42-58 | an unknown pair of six-letter names gets the fallback "12.0 km" and "22 min" |
| Route.SpacesUnlisted | src/components/Map.tsx:38-39 | a single space lower-cases to itself and is in no table entry |
| Route.SpacesBucket | src/components/Map.tsx:50 | a single space has `length` 1, so two of them fall in bucket 2 |
| Route.SpacesGetEstimate | src/components/Map.tsx:38-58 | names that are single spaces are not trimmed and get the bucket-2 fallback |
| Route.LoweredNamesSameDetails | src/components/Map.tsx:38-39 | keys built from lower-cased names are fixed points: lower-casing the names first changes neither the key nor the estimate |
| Route.BucketThreeEstimate | src/components/Map.tsx:50-58 | the fallback for names whose lengths add up to 3 modulo 10 is "15.5 km" and "28 min" |
| Route.AstralUnlisted | src/components/Map.tsx:28-39 | U+1F600 lower-cases to itself, and it is in no table entry together with "a" |
| Route.AstralBucket | src/components/Map.tsx:50 | U+1F600 has `length` 2 and "a" has 1, so together they fall in bucket 3 |
| Route.AstralCountsTwice | src/components/Map.tsx:42-58 | U+1F600 has `length` 2, so with "a" it falls in bucket 3 and gets "15.5 km" and "28 min" |
| MapPanel.Mount | src/components/Map.tsx:15-24 | the panel starts with "0"/"0", and a timer is armed exactly when both props are present |
| MapPanel.Rerun | src/components/Map.tsx:21-66 | the cleanup and re-run keep props and route info and leave a timer exactly when both props are present, armed for them |
| MapPanel.FalsyRerunChangesNothing | src/components/Map.tsx:21-67 | while a prop is falsy, re-running the effect leaves the panel as it was, so treating `undefined` and "" alike loses nothing |
| MapPanel.PropsChanged | src/components/Map.tsx:21-67 | equal props change nothing; new props cancel the pending timer and arm one only when both are present; the shown route info is kept |
| MapPanel.TimerFired | src/components/Map.tsx:24-63 | a firing timer shows the estimate for the props it was armed with; without a timer nothing happens |
| MapPanel.RunConsistent | src/components/Map.tsx:21-67 | after any events, a pending timer belongs to the current props, and a settled panel with both props shows their estimate |
| MapPanel.ChangeOnlyForBoth | src/components/Map.tsx:22-62 | the route info changes only when a timer fires for two present props, and then it becomes their estimate |
| MapPanel.MissingPropKeepsInfo | src/components/Map.tsx:22-63 | while one prop stays missing, the route info is left unchanged, whatever prop changes and timer expiries occur |
| MapPanel.LatestPropsWin | src/components/Map.tsx:62-67 | after new present props and the timer, the panel shows the estimate for the newest props |
| MapPanel.MountThenFire | src/components/Map.tsx:15-63 | mounting with two present props and letting the timer fire shows their estimate |
| MapPanel.SpacesArePresent | src/components/Map.tsx:22 | the guard tests presence, not content: one-space props still get an estimate |
| Rides.Filter | src/components/RideOptions.tsx:86-87 | a filter never yields more offers than it is given |
| Rides.FilterAppend | src/components/RideOptions.tsx:86-87 | filtering keeps the order: the filter of a concatenation is the concatenation of the filters |
| Rides.FilterCounts | src/components/RideOptions.tsx:86-87 | a filter keeps every copy of an offer that passes and no copy of one that fails |
| Rides.FilterMembers | src/components/RideOptions.tsx:86-87 | an offer is in the filtered list exactly when it is in the list and passes the test |
| Rides.EconomyPremiumPartition | src/components/RideOptions.tsx:86-97 | economy and premium together hold every copy of every offer, and each offer is in exactly one of them |
| Rides.Insert | src/components/RideOptions.tsx:107 | insertion adds one element, and the result starts with the new offer or the old first offer |
| Rides.InsertPermutes | src/components/RideOptions.tsx:107 | insertion adds exactly one copy of the inserted offer |
| Rides.InsertSorted | src/components/RideOptions.tsx:107 | insertion into a list sorted by total time keeps it sorted |
| Rides.InsertKeepsTies | src/components/RideOptions.tsx:107 | the inserted offer lands ahead of every offer with its total time |
| Rides.SortByTotal | src/components/RideOptions.tsx:107 | the sort keeps the number of offers |
| Rides.SortPermutes | src/components/RideOptions.tsx:107 | the sort is a permutation of its input |
| Rides.SortSorted | src/components/RideOptions.tsx:107 | the sort's result is non-decreasing in pickup time plus travel time |
| Rides.SortIsStable | src/components/RideOptions.tsx:107 | for every total time, the offers with that total keep their original order |
| Rides.Annotate | src/components/RideOptions.tsx:113-114 | in the fastest tab exactly the first offer is recommended, as "Fastest option"; the others are not and have no reason, and nothing else about an offer changes |
| Rides.AnnotateThree | src/components/RideOptions.tsx:113-114 | the override on three offers, whatever flags they carried |
| Rides.FastestShape | src/components/RideOptions.tsx:106-114 | the fastest tab has min(3, n) offers, is sorted, is the annotated prefix of the stable sort, and no offer left out is faster than one kept |
| Rides.ShowViews | src/components/RideOptions.tsx:56-67 | the tabs appear exactly when both names are present, built as all, economy, premium and fastest from the offers |
| Rides.CatalogTiers | src/components/RideOptions.tsx:14-54 | for the shipped catalog, economy is UberGo, Ola Mini, Bike and premium is Premier, Prime Sedan |
| Rides.SortThree | src/components/RideOptions.tsx:32-54 | offers with totals 21, 30, 29 sort as 21, 29, 30 |
| Rides.SortFive | src/components/RideOptions.tsx:14-54 | offers with the catalog's totals 28, 30, 21, 30, 29 sort as 21, 28, 29, 30, 30, the two 30s in their original order |
| Rides.CatalogSorted | src/components/RideOptions.tsx:14-54 | the shipped catalog sorts as Bike, UberGo, Prime Sedan, Ola Mini, Premier |
| Rides.CatalogFastest | src/components/RideOptions.tsx:106-114 | the shipped fastest tab is Bike (recommended, "Fastest option"), UberGo and Prime Sedan (both unrecommended) |
| Rides.AllTabKeepsCatalogFlag | src/components/RideOptions.tsx:14-23 | the all tab is the catalog with UberGo its only recommended offer ("Best overall value"), while the fastest tab shows UberGo unrecommended |
| Rides.NoOffersNoTabs | src/components/RideOptions.tsx:76-118 | with no offers every tab is empty |
| LocationInput.IsPickup | src/components/LocationInput.tsx:25 | a label is a pickup label exactly when its lower-cased form contains "pickup" |
| LocationInput.InputChanged | src/components/LocationInput.tsx:17-19 | typing sets the value to the new text, keeps the detection flag and reports nothing |
| LocationInput.Blurred | src/components/LocationInput.tsx:38-42 | leaving the field reports exactly when the value has a non-white-space character, and then reports the untrimmed value; the state is unchanged |
| LocationInput.DetectClicked | src/components/LocationInput.tsx:21-22 | starting detection sets the flag, keeps the value and reports nothing |
| LocationInput.DetectFinished | src/components/LocationInput.tsx:24-35 | completion for a pickup label sets and reports "Current Location"; for any other label it keeps the value and reports nothing; either way detection stops; without a running detection nothing happens |
| LocationInput.PendingCons | src/components/LocationInput.tsx:21-36 | how "a click awaits its completion" reads on a run with one more event in front |
| LocationInput.DetectingIffPending | src/components/LocationInput.tsx:21-36 | after any events, detection runs exactly when a click has not yet been followed by a completion, or it ran before and nothing has completed since |
| LocationInput.DetectingFromInitial | src/components/LocationInput.tsx:14-36 | from the first render, `isDetecting` is true exactly while a click awaits its completion |
| LocationInput.ReportsVisible | src/components/LocationInput.tsx:25-42 | every reported location has a character that is not white space |
| LocationInput.PickupLabel | src/components/LocationInput.tsx:25 | "Pickup Location" is a pickup label |
| LocationInput.DestinationLabel | src/components/LocationInput.tsx:25 | "Destination" is not a pickup label |
| LocationInput.PickupDetects | src/components/LocationInput.tsx:21-35 | detection in the pickup field fills in and reports "Current Location" and ends with detection stopped |
| LocationInput.DestinationDetects | src/components/LocationInput.tsx:21-35 | detection in the destination field leaves the state as it was and reports nothing |

## Left out

- Rendering: the map grid, markers, labels and texture in `Map.tsx`; the tabs, badges and hint text in `RideOptions.tsx`; the field, icons and button in `LocationInput.tsx`. These are presentation with no logic.
- Time: `setTimeout` delays (500 ms and 1500 ms) and the clock. Each timer is an explicit completion event. React's re-rendering and batching are not modelled.
- The in-place mutation of the catalog array by `.sort`. The sort is a pure function. The other tabs are built before the sort in the same render, and the array is rebuilt on every render, so no tab sees the mutation.
- Floating point and `toFixed`. Distances are whole tenths and durations whole minutes. For the ten possible fallback distances the floating-point products round to the same minutes as the exact half-up rounding used here.
- Text.Lower: lower-cases ASCII letters only. JavaScript `toLowerCase` also maps non-ASCII letters, so two names that differ only in non-ASCII case are treated as different here.
- The toast shown when detection finishes for a non-pickup label. It is a foreign UI call with no effect on the state.
- The `onLocationSelected` callback's receiver. A report is the handler's `emitted` result, and what the page does with it is not modelled.
- `src/pages/Index.tsx`, `src/components/UserPreferences.tsx` and `src/components/Navbar.tsx`: page wiring, static controls and static markup. The page's button-enable predicate is not modelled.
- Rides.Filter: its own contract states only the length bound. What it keeps, and in what order, is stated by `FilterMembers`, `FilterCounts` and `FilterAppend`, to keep each proof small.
- Rides.SortByTotal: its own contract states only the length. The permutation, sortedness and stability are stated by `SortPermutes`, `SortSorted` and `SortIsStable`, for the same reason.
