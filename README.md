# Jeju travel map: itinerary utilities and map-view state

A Dafny model of the two pieces of logic in the travel-planning map
application.

- **Itinerary utilities** (`src/utils/timeUtils.ts`, module `TimeUtils`):
  - `convertTo24Hour`.
  - The hour-window test that highlights the current stop of a day's
    schedule. The current hour is a parameter in 0..23.
  - `getTitleDayMap`. It is an imperative method with nested loops and
    their invariants, proved equal to a fold `TitleDayMap`. In the fold the
    last day listing a title wins.
  - The JavaScript built-ins these rely on are in module `JsBuiltins`:
    - `split(":")[0]`.
    - `parseInt(s, 10)`: the leading-whitespace skip, the optional sign and
      the digit prefix, with NaN as `None`. Every comparison with NaN is
      false.
    - `Array.from(new Set(xs))`: de-duplication that keeps first occurrences.
- **Pure rules of the map view** (`src/components/KakaoMap.tsx`, module
  `KakaoMapRules`):
  - The category bar.
  - The titles each category asks the geocoder for. "all" is the five day
    lists concatenated in order and de-duplicated. It is tagged through the
    title-to-day lookup.
  - The guard of the fetch effect.
  - The tagging of resolved places.
  - The marker image choice.
  - The highlighting of schedule rows.
- **The map view's state machine** (module `KakaoMapView`, class `MapView`):
  - State: the selected category, location and day, the side panel, the
    400 ms hide timer, the loaded lists and the markers.
  - Every event is a method:
    - category click, marker click, close
    - the hide timer firing
    - the initial lists arriving, the map finishing loading
    - a geocoder answer arriving
  - The React effects triggered by an event run inside its method. They
    run in the component's declaration order, and only when a dependency
    changed:
    - the days reset
    - the fetch effect, whose requests the method returns
    - the marker redraw
    - the panel effect, which cancels or arms the hide timer
  - `Valid()` is kept by every event:
    - The timer is armed only while nothing is selected.
    - A selection keeps the panel open.
    - A selected day is the selected category.
    - The markers are the rendering of the locations.
  - Three scenario methods exhibit behaviour that follows from the code:
    - After a reload while a day is selected, the panel stays open until
      the timer fires.
    - Travel markers lose their image after a day click, until the day's
      answer arrives.
    - A slow answer overwrites a newer view.

Two consequences of the code are worth stating outright:

- **Title-to-day lookup.** `getTitleDayMap` overwrites in `day1..day5`
  order, so the last listing day wins (`src/utils/timeUtils.ts:28`);
  `TimeUtils.LaterDayOverwrites` shows that `{day1:["A"], day2:["A","B"]}`
  gives `{A: day2, B: day2}`.
- **Hour window.** Only hours are compared, so 11:30 lies inside
  09:00-11:00; see `TimeUtils.NineToElevenWindow`.

## Model

| member | source | states |
|---|---|---|
| JsBuiltins.SplitFirst | src/utils/timeUtils.ts:11-12 | `split(":")[0]`. The field is a prefix of the text and contains no separator. Either it is the whole text or the separator follows it. |
| JsBuiltins.SplitFirstOfJoin | src/utils/timeUtils.ts:11 | Splitting `head + ":" + rest` gives back `head` whenever `head` has no colon. |
| JsBuiltins.TrimStart | src/utils/timeUtils.ts:11-12 | `parseInt` skips leading white space. The removed prefix is all ECMAScript white space. What remains does not start with white space. |
| JsBuiltins.LeadingDigits | src/utils/timeUtils.ts:11-12 | The digits `parseInt` reads: the longest prefix of decimal digits. |
| JsBuiltins.ParseInt | src/utils/timeUtils.ts:11-12 | `parseInt(s, 10)` is NaN (`None`) exactly when no digit follows the leading white space and optional sign. |
| JsBuiltins.ParseIntOfNumeral | src/utils/timeUtils.ts:11-12 | Input shape: white space, an optional minus, a decimal numeral for `n`, then text not starting with a digit. It parses to `n` or `-n`. |
| JsBuiltins.ParseIntOfDigits | src/utils/timeUtils.ts:11-12 | A non-empty string of digits parses to its decimal value. |
| JsBuiltins.Dedup | src/components/KakaoMap.tsx:106 | `Array.from(new Set(xs))`: no repeats, and exactly the elements of `xs`. |
| JsBuiltins.DedupKeepsFirstOccurrenceOrder | src/components/KakaoMap.tsx:106 | The de-duplicated elements appear in the order of their first occurrence in `xs`. |
| TimeUtils.OrderedDaysFacts | src/utils/timeUtils.ts:24 | The day order holds the five day keys, each once, at its own index. The key names are distinct. |
| TimeUtils.ConvertTo24Hour | src/utils/timeUtils.ts:6 | Every time string is returned unchanged. |
| TimeUtils.IsCurrentTimeInHourRange | src/utils/timeUtils.ts:8-20 | True iff both hour prefixes parse, and the hour matches: it equals the arrival hour when the two hours are equal, and otherwise lies in arrival..departure, both ends inclusive. |
| TimeUtils.UnparsableHourNeverInRange | src/utils/timeUtils.ts:11-19 | If either hour prefix is NaN, the result is false for every hour of the day. |
| TimeUtils.OvernightRangeNeverMatches | src/utils/timeUtils.ts:19 | If the departure hour is before the arrival hour, the result is false for every hour of the day. |
| TimeUtils.SameHourMatchesOnlyThatHour | src/utils/timeUtils.ts:15-17 | When arrival and departure have the same hour, the result holds only at that hour. |
| TimeUtils.MinutesAreIgnored | src/utils/timeUtils.ts:11-12 | Changing the text after the first colon of either time never changes the result. |
| TimeUtils.HourOfFormatTime | src/utils/timeUtils.ts:11 | The hour prefix of a well-formed "HH:MM" parses to HH. |
| TimeUtils.FormattedTimesInHourRange | src/utils/timeUtils.ts:15-19 | For well-formed "HH:MM" times, the test is the inclusive hour window, or the single hour when the two hours are equal. |
| TimeUtils.NineToElevenWindow | src/utils/timeUtils.ts:15-19 | For "09:00"-"11:00": true at 10 and 11, false at 8 and 12. |
| TimeUtils.GetTitleDayMap | src/utils/timeUtils.ts:22-32 | The nested loops build `TitleDayMap(days)`. Its keys are exactly the titles in the present day lists. Each title maps to the last day in `day1..day5` order whose list names it. Titles named like `Object.prototype` properties are treated as ordinary keys (see Left out). |
| TimeUtils.TitleDayMapPrefix | src/utils/timeUtils.ts:25-29 | After the first `k` days, the keys are the titles listed by those days. Each title maps to the latest of them listing it. |
| TimeUtils.TitleDayMapLatest | src/utils/timeUtils.ts:25-28 | Key set and last-listing-day value of the whole lookup. |
| TimeUtils.TitleDayMapOverSameLists | src/utils/timeUtils.ts:26-27 | The lookup depends only on the lists of the days visited. A missing list and an empty list are the same. |
| TimeUtils.TitleDayMapIgnoresOtherKeys | src/utils/timeUtils.ts:24-29 | Keys of the input other than `day1..day5` do not affect the lookup. |
| TimeUtils.LaterDayOverwrites | src/utils/timeUtils.ts:28 | `{day1:["A"], day2:["A","B"]}` gives `{A: day2, B: day2}`. |
| KakaoMapRules.DayButtonsStartWithDay | src/components/KakaoMap.tsx:213-218 | `key.startsWith("day")` holds exactly for the day buttons. The button keys are distinct. Every category has a button. |
| KakaoMapRules.DayIconsDistinct | src/components/KakaoMap.tsx:32-38 | The five day markers are pairwise distinct, and none is the normal marker. |
| KakaoMapRules.MarkerIcon | src/components/KakaoMap.tsx:130 | Normal marker iff the category is travel or cafe, or the place is untagged. A day's marker iff another category and the place is tagged with that day. No image (`undefined`) iff another category and a non-day tag. |
| KakaoMapRules.Render | src/components/KakaoMap.tsx:125-158 | One marker per location, in order, each standing for its location. Each marker's image is the line 130 choice (`MarkerIcon`) for the current category and that location's tag. |
| KakaoMapRules.ConcatDayListsPrefix | src/components/KakaoMap.tsx:106 | A title is in the concatenation of the first `k` day lists iff one of those days lists it. |
| KakaoMapRules.AllTitlesFacts | src/components/KakaoMap.tsx:106-107 | The "all" titles: no repeats; exactly the titles some present day lists; exactly the keys of the title-to-day lookup; in order of first appearance across `day1..day5`. |
| KakaoMapRules.FetchEffect | src/components/KakaoMap.tsx:99-115 | No fetch iff the map is not loaded, or `days` is null or has no keys. Otherwise it fetches the category's titles (travel list, cafe list, "all" titles, or the day's list, empty when absent). In the "all" view the places are tagged through the title-to-day lookup `TitleDayMap(days)`; every other view tags them with the category itself. |
| KakaoMapRules.TagResults | src/components/KakaoMap.tsx:108-113 | One location per resolved place, in order, each keeping its place. Under a category tagging every place is tagged with that category. Under the title lookup a place is tagged with its title's day, and untagged when its title is not a key. |
| KakaoMapRules.FetchedMarkersHaveIcons | src/components/KakaoMap.tsx:99-130 | Markers drawn from the answer to the current category's own fetch always have an image. Travel and cafe: the normal marker. A day: that day's marker. "All": the marker of the last day listing the place, or the normal marker for a title no day lists (unless it is named like an `Object.prototype` property; see Left out). |
| KakaoMapRules.StaleTagHasNoIcon | src/components/KakaoMap.tsx:130 | A place tagged "travel" or "cafe" gets no image under a day or "all" view. |
| KakaoMapRules.ScheduleRows | src/components/KakaoMap.tsx:302-303 | One row per schedule entry, in order, each showing its entry. Each row is highlighted exactly when the hour test holds for its arrival and departure at the current hour. |
| KakaoMapRules.HighlightedRowsFollowHourWindow | src/components/KakaoMap.tsx:303 | A row with well-formed times is highlighted exactly inside its hour window. |
| KakaoMapView.MapView.constructor | src/components/KakaoMap.tsx:42-66 | Initial state: travel category, nothing selected, panel closed, map not loaded, no lists, no markers. The panel effect's first run arms the hide timer. |
| KakaoMapView.MapView.SyncPanel | src/components/KakaoMap.tsx:190-197 | Runs only when a selection changed. It cancels the armed timer. A selection then opens the panel. No selection re-arms the timer and leaves the panel as it was. |
| KakaoMapView.MapView.Redraw | src/components/KakaoMap.tsx:118-161 | The markers become the rendering of the locations under the current category once the map exists, and none before. |
| KakaoMapView.MapView.FetchRequest | src/components/KakaoMap.tsx:99-115 | The request the fetch effect issues in the current state equals `FetchEffect`. The "all" lookup is built by `GetTitleDayMap`. |
| KakaoMapView.MapView.ClickCategory | src/components/KakaoMap.tsx:213-229 | Sets the category. A day button selects the day and clears the location, so the panel is open and no timer is armed. Other buttons clear both selections and close the panel; the timer is armed if something was selected. A fetch is issued only when the category changed. Lists, days and locations are unchanged. |
| KakaoMapView.MapView.ClickMarker | src/components/KakaoMap.tsx:145-147 | Selects the marker's location and clears the day. The panel is open, with no timer. Category and markers are unchanged. |
| KakaoMapView.MapView.Close | src/components/KakaoMap.tsx:200-203 | Clears both selections and closes the panel. The timer is armed if something was selected. The category is unchanged. |
| KakaoMapView.MapView.HideTimerFires | src/components/KakaoMap.tsx:194 | The armed timer closes the panel and is spent. Nothing else changes. |
| KakaoMapView.MapView.DataLoaded | src/components/KakaoMap.tsx:79-96 | Stores the lists. The fetch effect first runs for the old category. A `days` document resets the view to travel with nothing selected; that fetches travel if the category changed and arms the timer if a selection was cleared. The panel is left as it was. |
| KakaoMapView.MapView.ResetView | src/components/KakaoMap.tsx:91-96 | The days reset: travel category, nothing selected, the panel as it was. The timer is armed if a selection was cleared. A travel fetch is issued only if the category changed. The lists and locations are unchanged. |
| KakaoMapView.MapView.MapLoaded | src/hooks/useKakaoMap.ts:37-48 | The map loads once. The first load fetches for the current category and draws the markers. A repeated load changes nothing. |
| KakaoMapView.MapView.LocationsArrived | src/components/KakaoMap.tsx:108-113 | An answer, current or stale, replaces the locations with its places, tagged as its request says. The markers are redrawn. |
| KakaoMapView.MapView.ScheduleTable | src/components/KakaoMap.tsx:288-303 | The table is shown iff the panel is open on a selected day the schedule document lists. It is then that day's `ScheduleRows`: one row per stop, in order, each highlighted by the hour test. |
| KakaoMapView.SelectDayThenClose | src/components/KakaoMap.tsx:190-207 | Selecting a day opens the panel. Closing hides it at once and arms the timer. The timer's firing leaves it hidden. |
| KakaoMapView.ReloadKeepsPanelUntilTimer | src/components/KakaoMap.tsx:91-96 | Lists arriving before the map loads, with any `days` document including an empty one, reset a selected day without fetching. The panel stays open until the timer fires. |
| KakaoMapView.StaleMarkersAfterDayClick | src/components/KakaoMap.tsx:113-130 | After the travel answer, a day click fetches the day's list and redraws the travel places with no image. |
| KakaoMapView.SlowAnswerOverwritesNewerView | src/components/KakaoMap.tsx:108-115 | If day 1's answer arrives after day 2's, the day 2 view shows day 1's places with day 1's marker. |

## Left out

- `moveHallasanToVisibleCenter` (`src/utils/timeUtils.ts:34-43`) and every re-centering call in the component: floating-point map projection through the map SDK.
- The marker click's re-centering (`src/components/KakaoMap.tsx:148-151`) and the 100 ms re-centering effect (`src/components/KakaoMap.tsx:172-187`): map SDK only. They change no modelled state.
- The zoom-level effect (`src/components/KakaoMap.tsx:164-169`): the map SDK only.
- Hover info windows on markers: display only.
- The keyword-search geocoder (`src/utils/fetchLocation.ts`), an HTTP call made concurrently per title. It is modelled as the abstract input of `LocationsArrived`: any places for any issued request, in any order.
- Loading the map script and creating the map (`src/hooks/useKakaoMap.ts`): reduced to the `MapLoaded` event.
- The API routes, the database connection and the list/schedule requests (`src/utils/api.ts`). They are reduced to the values `DataLoaded` receives. A failed request, which leaves the state untouched, is not modelled.
- Real timers and the clock:
  - The 400 ms timer is the `HideTimerFires` event, which can fire only while armed.
  - The one-minute refresh is reflected by `ScheduleTable` taking the current hour.
- JSX, CSS, the navigation bar, layout and configuration: presentation with no behaviour to state.
- Latitude and longitude are carried as `real` and never computed with.
- JavaScript object identity:
  - Selections compare by value. Re-selecting an equal but distinct location object re-runs the panel effect in React. Here it does not, and both leave the same state, since the panel is already open and no timer is armed.
  - `DataLoaded` always treats `days` as changed, as a freshly fetched object is.
- JsBuiltins.ParseInt: does not model the loss of precision of numbers beyond 2^53, since hours are short digit strings.
- KakaoMapView.MapView.HideTimerFires: the timer firing when not armed is excluded by its precondition rather than modelled as a no-op, since a cancelled timer never fires.
- TimeUtils.GetTitleDayMap, KakaoMapRules.Tag, KakaoMapRules.FetchedMarkersHaveIcons: the title-to-day lookup is a plain JavaScript object in the program (`src/utils/timeUtils.ts:23`, `src/components/KakaoMap.tsx:107-108`) and a Dafny `map` here, so titles equal to `Object.prototype` property names are treated as ordinary keys. In the program, assigning `"__proto__"` is ignored, so that title is absent from the lookup. In the "all" view, a title no day lists but named like an inherited property ("constructor", "toString") reads an inherited function, and its marker gets no image. The key set of `GetTitleDayMap` and the "always has an image" of `FetchedMarkersHaveIcons` hold only for titles that are not such names.
