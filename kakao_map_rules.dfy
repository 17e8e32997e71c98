/**
 * The pure rules of the map view: the categories of the button bar, which
 * place titles a category asks the geocoder for, how the resolved places are
 * tagged with a day, which marker image a place gets, and which schedule
 * rows are highlighted.
 */
module KakaoMapRules {
  import opened Wrappers
  import opened JsBuiltins
  import opened TimeUtils

  /** The category buttons: travel places, cafes, every day together, or one day. */
  datatype Category = Travel | Cafe | All | Day(day: DayKey)

  /** The key a category button carries. */
  function CategoryKey(c: Category): string {
    match c
    case Travel => "travel"
    case Cafe => "cafe"
    case All => "all"
    case Day(d) => d.Name()
  }

  /** The category bar, left to right. */
  const CategoryButtons: seq<Category> :=
    [Travel, Cafe, All, Day(Day1), Day(Day2), Day(Day3), Day(Day4), Day(Day5)]

  /**
   * The click handler tells day buttons from the others by `key.startsWith("day")`;
   * that test holds exactly for the day categories, and every category has its own key.
   */
  lemma DayButtonsStartWithDay(c: Category, other: Category)
    ensures "day" <= CategoryKey(c) <==> c.Day?
    ensures CategoryKey(c) == CategoryKey(other) ==> c == other
    ensures c in CategoryButtons
  {
  }

  // ---------------------------------------------------------------------
  // Places and markers
  // ---------------------------------------------------------------------

  /** A place as the keyword search resolves it. */
  datatype Place = Place(title: string, lat: real, lng: real, description: string, address: string,
                         roadAddress: string, url: string, phone: string, thumbnail: string)

  /**
   * A resolved place with its `dayKey` tag. The tag is whatever the request
   * stamped on it: a day, or (for the travel and cafe lists) the category
   * itself; `None` is `undefined`.
   */
  datatype Location = Location(place: Place, dayKey: Option<Category>)

  /** A marker on the map: the place it stands for and its image (`None`: an `undefined` image path). */
  datatype Marker = Marker(location: Location, icon: Option<string>)

  const NormalIcon: string := "/assets/markerColor/markernormal.png"

  /** `markerIcons`: the colour-coded marker of each day. */
  function DayIcon(d: DayKey): string {
    match d
    case Day1 => "/assets/markerColor/markerred.png"
    case Day2 => "/assets/markerColor/markerorange.png"
    case Day3 => "/assets/markerColor/markeryellow.png"
    case Day4 => "/assets/markerColor/markergreen.png"
    case Day5 => "/assets/markerColor/markerblue.png"
  }

  /** The five day markers are pairwise distinct and none is the normal marker. */
  lemma DayIconsDistinct(d: DayKey, e: DayKey)
    ensures DayIcon(d) == DayIcon(e) ==> d == e
    ensures DayIcon(d) != NormalIcon
  {
  }

  /** `markerIcons[key]`: defined for the day keys only. */
  function IconLookup(key: Category): Option<string> {
    if key.Day? then Some(DayIcon(key.day)) else None
  }

  /**
   * The marker image: the travel and cafe views always use the normal
   * marker; otherwise a tagged place gets `markerIcons[tag]` and an untagged
   * one the normal marker.
   */
  function MarkerIcon(category: Category, dayKey: Option<Category>): (icon: Option<string>)
    ensures icon == Some(NormalIcon) <==> category == Travel || category == Cafe || dayKey.None?
    ensures forall d: DayKey :: icon == Some(DayIcon(d)) <==>
      category != Travel && category != Cafe && dayKey == Some(Day(d))
    ensures icon.None? <==> category != Travel && category != Cafe && dayKey.Some? && !dayKey.value.Day?
  {
    assert forall d: DayKey :: DayIcon(d) != NormalIcon && (forall e: DayKey :: DayIcon(d) == DayIcon(e) ==> d == e) by {
      forall d: DayKey, e: DayKey ensures DayIcon(d) != NormalIcon && (DayIcon(d) == DayIcon(e) ==> d == e) {
        DayIconsDistinct(d, e);
      }
    }
    if category == Travel || category == Cafe then Some(NormalIcon)
    else if dayKey.Some? then IconLookup(dayKey.value)
    else Some(NormalIcon)
  }

  /** The markers for `locations` under `category`, one per location, in order. */
  function Render(locations: seq<Location>, category: Category): (markers: seq<Marker>)
    ensures |markers| == |locations|
    ensures forall i :: 0 <= i < |markers| ==> markers[i].location == locations[i]
    ensures forall i :: 0 <= i < |markers| ==> markers[i].icon == MarkerIcon(category, locations[i].dayKey)
  {
    seq(|locations|, i requires 0 <= i < |locations| =>
      Marker(locations[i], MarkerIcon(category, locations[i].dayKey)))
  }

  // ---------------------------------------------------------------------
  // Which titles a category asks for
  // ---------------------------------------------------------------------

  /** `ds.flatMap(d => days[d] || [])`: the lists of the days `ds`, concatenated in order. */
  function ConcatDayLists(days: DayLists, ds: seq<DayKey>): seq<string> {
    if ds == [] then [] else ConcatDayLists(days, ds[..|ds| - 1]) + DayList(days, ds[|ds| - 1])
  }

  lemma {:induction false} ConcatDayListsPrefix(days: DayLists, k: nat, title: string)
    requires k <= 5
    ensures title in ConcatDayLists(days, OrderedDays[..k]) <==> exists d: DayKey :: d.Index() < k && ListsTitle(days, d, title)
  {
    OrderedDaysFacts();
    if k > 0 {
      ConcatDayListsPrefix(days, k - 1, title);
      assert OrderedDays[..k][..k - 1] == OrderedDays[..k - 1];
      var last := OrderedDays[k - 1];
      assert forall d: DayKey :: d.Index() == k - 1 ==> d == last;
      assert ListsTitle(days, last, title) <==> title in DayList(days, last);
    }
  }

  /** The "all" view's titles: every day's list in day order, without repeats. */
  function AllTitles(days: DayLists): seq<string> {
    Dedup(ConcatDayLists(days, OrderedDays))
  }

  /**
   * The "all" list has no repeats, holds exactly the titles some present day
   * list names (which are exactly the keys of the title-to-day lookup), and
   * keeps them in the order of their first appearance in `day1..day5`.
   */
  lemma AllTitlesFacts(days: DayLists)
    ensures NoDuplicates(AllTitles(days))
    ensures forall title :: title in AllTitles(days) <==> exists d: DayKey :: ListsTitle(days, d, title)
    ensures forall title :: title in AllTitles(days) <==> title in TitleDayMap(days)
    ensures var all := ConcatDayLists(days, OrderedDays);
      forall i, j :: 0 <= i < j < |AllTitles(days)| ==>
        AllTitles(days)[i] in all && AllTitles(days)[j] in all &&
        FirstIndex(all, AllTitles(days)[i]) < FirstIndex(all, AllTitles(days)[j])
  {
    OrderedDaysFacts();
    assert OrderedDays[..5] == OrderedDays;
    forall title
      ensures title in AllTitles(days) <==> exists d: DayKey :: ListsTitle(days, d, title)
      ensures title in AllTitles(days) <==> title in TitleDayMap(days)
    {
      ConcatDayListsPrefix(days, 5, title);
      TitleDayMapLatest(days, title);
    }
    DedupKeepsFirstOccurrenceOrder(ConcatDayLists(days, OrderedDays));
  }

  /** The titles a category's fetch asks the geocoder for. */
  function TitlesFor(category: Category, travelList: seq<string>, cafeList: seq<string>, days: DayLists): seq<string> {
    match category
    case Travel => travelList
    case Cafe => cafeList
    case All => AllTitles(days)
    case Day(d) => DayList(days, d)
  }

  /** How a fetch tags the places it resolves. */
  datatype Tagging =
    | ByTitle(titleDay: map<string, DayKey>)  // the "all" view: `dayMap[l.title]`
    | AsCategory(category: Category)          // every other view: the selected category itself

  /** One geocoding fetch: the titles asked for and how the answers are tagged. */
  datatype Request = Request(titles: seq<string>, tagging: Tagging)

  /**
   * The fetch effect: nothing until the map is loaded and a non-empty `days`
   * document is present; then the category's titles, tagged by the
   * title-to-day lookup in the "all" view and by the category otherwise.
   */
  function FetchEffect(mapLoaded: bool, days: Option<DayLists>, category: Category,
                       travelList: seq<string>, cafeList: seq<string>): (request: Option<Request>)
    ensures request.None? <==> !mapLoaded || days.None? || |days.value| == 0
    ensures request.Some? ==> request.value.titles == TitlesFor(category, travelList, cafeList, days.value)
    ensures request.Some? ==>
      request.value.tagging == (if category == All then ByTitle(TitleDayMap(days.value)) else AsCategory(category))
  {
    if !mapLoaded || days.None? || |days.value| == 0 then None
    else if category == All then Some(Request(AllTitles(days.value), ByTitle(TitleDayMap(days.value))))
    else Some(Request(TitlesFor(category, travelList, cafeList, days.value), AsCategory(category)))
  }

  /** The tag a place resolved by a fetch receives. */
  function Tag(tagging: Tagging, title: string): Option<Category> {
    match tagging
    case ByTitle(titleDay) => if title in titleDay then Some(Day(titleDay[title])) else None
    case AsCategory(c) => Some(c)
  }

  /** `res.map(l => ({ ...l, dayKey: … }))`: the resolved places with their tags. */
  function TagResults(tagging: Tagging, places: seq<Place>): (locations: seq<Location>)
    ensures |locations| == |places|
    ensures forall i :: 0 <= i < |places| ==> locations[i].place == places[i]
    ensures tagging.AsCategory? ==> forall i :: 0 <= i < |places| ==> locations[i].dayKey == Some(tagging.category)
    ensures tagging.ByTitle? ==> forall i :: 0 <= i < |places| ==>
      locations[i].dayKey == (if places[i].title in tagging.titleDay then Some(Day(tagging.titleDay[places[i].title])) else None)
  {
    seq(|places|, i requires 0 <= i < |places| => Location(places[i], Tag(tagging, places[i].title)))
  }

  /**
   * Markers drawn from the answer to the current category's own fetch always
   * have an image: the normal marker in the travel and cafe views, the day's
   * marker in a day view, and in the "all" view the marker of the LAST day
   * listing the place (or the normal marker when the geocoder's title is one
   * no day lists).
   */
  lemma FetchedMarkersHaveIcons(mapLoaded: bool, days: Option<DayLists>, category: Category,
                                travelList: seq<string>, cafeList: seq<string>, places: seq<Place>, i: nat)
    requires FetchEffect(mapLoaded, days, category, travelList, cafeList).Some?
    requires i < |places|
    ensures var request := FetchEffect(mapLoaded, days, category, travelList, cafeList).value;
      var icon := Render(TagResults(request.tagging, places), category)[i].icon;
      && icon.Some?
      && (category == Travel || category == Cafe ==> icon == Some(NormalIcon))
      && (category.Day? ==> icon == Some(DayIcon(category.day)))
      && (category == All ==>
            if exists d: DayKey :: ListsTitle(days.value, d, places[i].title)
            then exists d: DayKey :: IsLatestListing(days.value, d, places[i].title) && icon == Some(DayIcon(d))
            else icon == Some(NormalIcon))
  {
    var request := FetchEffect(mapLoaded, days, category, travelList, cafeList).value;
    var title := places[i].title;
    assert TagResults(request.tagging, places)[i].dayKey == Tag(request.tagging, title);
    if category == All {
      TitleDayMapLatest(days.value, title);
      if title in TitleDayMap(days.value) {
        var d := TitleDayMap(days.value)[title];
        assert IsLatestListing(days.value, d, title) && MarkerIcon(All, Some(Day(d))) == Some(DayIcon(d));
      }
    }
  }

  /**
   * Places still tagged by an earlier travel or cafe fetch, drawn again after
   * the category switched to a day or to "all", look up `markerIcons["travel"]`
   * or `markerIcons["cafe"]` and get no image.
   */
  lemma StaleTagHasNoIcon(category: Category, stale: Category)
    requires category != Travel && category != Cafe
    requires stale == Travel || stale == Cafe
    ensures MarkerIcon(category, Some(stale)).None?
  {
  }

  // ---------------------------------------------------------------------
  // The schedule table
  // ---------------------------------------------------------------------

  /** One stop of a day's schedule. */
  datatype ScheduleEntry = ScheduleEntry(place: string, travelTime: string, stayTime: string,
                                         arrival: string, departure: string)

  /** A row of the schedule table and whether it is highlighted as current. */
  datatype ScheduleRow = ScheduleRow(entry: ScheduleEntry, highlighted: bool)

  /** The rows of a day's table at hour `nowHour`, in visiting order. */
  function ScheduleRows(entries: seq<ScheduleEntry>, nowHour: int): (rows: seq<ScheduleRow>)
    requires 0 <= nowHour <= 23
    ensures |rows| == |entries|
    ensures forall i :: 0 <= i < |rows| ==> rows[i].entry == entries[i]
    ensures forall i :: 0 <= i < |rows| ==>
      rows[i].highlighted == IsCurrentTimeInHourRange(entries[i].arrival, entries[i].departure, nowHour)
  {
    seq(|entries|, i requires 0 <= i < |entries| =>
      ScheduleRow(entries[i], IsCurrentTimeInHourRange(entries[i].arrival, entries[i].departure, nowHour)))
  }

  /**
   * A row whose times are well-formed "HH:MM" texts is highlighted exactly
   * during its hour window; an overnight stop is never highlighted.
   */
  lemma HighlightedRowsFollowHourWindow(entries: seq<ScheduleEntry>, nowHour: int, i: nat,
                                        arrivalHour: nat, arrivalMinute: nat,
                                        departureHour: nat, departureMinute: nat)
    requires 0 <= nowHour <= 23 && i < |entries|
    requires arrivalHour < 24 && arrivalMinute < 60 && departureHour < 24 && departureMinute < 60
    requires entries[i].arrival == FormatTime(arrivalHour, arrivalMinute)
    requires entries[i].departure == FormatTime(departureHour, departureMinute)
    ensures ScheduleRows(entries, nowHour)[i].highlighted <==>
      if arrivalHour == departureHour then nowHour == arrivalHour
      else arrivalHour <= nowHour <= departureHour
  {
    FormattedTimesInHourRange(arrivalHour, arrivalMinute, departureHour, departureMinute, nowHour);
  }
}
