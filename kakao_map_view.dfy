/**
 * The map view's state machine: the selected category, location and day,
 * the side panel with its 400 ms hide timer, the loaded lists and the
 * markers on the map. Each user or environment event is a method; the
 * effects React runs after the event's render are run inside the method,
 * in the order the component declares them, and only when one of their
 * dependencies changed.
 */
module KakaoMapView {
  import opened Wrappers
  import opened TimeUtils
  import opened KakaoMapRules

  /** The schedule document: each day's stops. */
  type Schedule = map<DayKey, seq<ScheduleEntry>>

  class MapView {
    var selectedCategory: Category
    var selectedLocation: Option<Location>
    var selectedDay: Option<DayKey>
    var panelVisible: bool
    /** The panel effect armed the 400 ms hide timer and it has neither fired nor been cancelled. */
    var hideTimerPending: bool
    /** The map script is loaded and the map instance exists. */
    var mapLoaded: bool
    var travelList: seq<string>
    var cafeList: seq<string>
    var days: Option<DayLists>
    var schedule: Schedule
    var locations: seq<Location>
    var markers: seq<Marker>

    /**
     * The timer is armed only while nothing is selected; a selection keeps
     * the panel open; with nothing selected and no timer armed the panel is
     * closed; at most one of location and day is selected, and a selected
     * day is also the selected category; the markers are the rendering of
     * the locations once the map is loaded.
     */
    ghost predicate Valid()
      reads this
    {
      && (hideTimerPending ==> selectedLocation.None? && selectedDay.None?)
      && (selectedLocation.Some? || selectedDay.Some? ==> panelVisible)
      && (selectedLocation.None? && selectedDay.None? && !hideTimerPending ==> !panelVisible)
      && (selectedLocation.Some? ==> selectedDay.None?)
      && (selectedDay.Some? ==> selectedCategory == Day(selectedDay.value))
      && markers == (if mapLoaded then Render(locations, selectedCategory) else [])
    }

    /** Mounting: the travel view, nothing selected, and the panel effect's first run arms the hide timer. */
    constructor ()
      ensures Valid()
      ensures selectedCategory == Travel && selectedLocation.None? && selectedDay.None?
      ensures !panelVisible && hideTimerPending && !mapLoaded
      ensures travelList == [] && cafeList == [] && days.None? && schedule == map[]
      ensures locations == [] && markers == []
    {
      selectedCategory := Travel;
      selectedLocation := None;
      selectedDay := None;
      panelVisible := false;
      hideTimerPending := true;
      mapLoaded := false;
      travelList := [];
      cafeList := [];
      days := None;
      schedule := map[];
      locations := [];
      markers := [];
    }

    /**
     * The panel effect, run when the selections differ from `previousLocation`
     * and `previousDay`: its cleanup cancels the armed timer; then a selection
     * opens the panel and no selection arms the timer again.
     */
    method SyncPanel(previousLocation: Option<Location>, previousDay: Option<DayKey>)
      modifies this`panelVisible, this`hideTimerPending
      ensures selectedLocation == previousLocation && selectedDay == previousDay ==>
        panelVisible == old(panelVisible) && hideTimerPending == old(hideTimerPending)
      ensures (selectedLocation != previousLocation || selectedDay != previousDay) &&
              (selectedLocation.Some? || selectedDay.Some?) ==>
        panelVisible && !hideTimerPending
      ensures (selectedLocation != previousLocation || selectedDay != previousDay) &&
              selectedLocation.None? && selectedDay.None? ==>
        panelVisible == old(panelVisible) && hideTimerPending
    {
      if selectedLocation != previousLocation || selectedDay != previousDay {
        hideTimerPending := false;
        if selectedLocation.Some? || selectedDay.Some? {
          panelVisible := true;
        } else {
          hideTimerPending := true;
        }
      }
    }

    /** The marker effect: the markers are replaced by a fresh rendering, once the map exists. */
    method Redraw()
      modifies this`markers
      ensures markers == (if mapLoaded then Render(locations, selectedCategory) else [])
    {
      if mapLoaded {
        markers := Render(locations, selectedCategory);
      } else {
        markers := [];
      }
    }

    /** The fetch effect: the request it issues in the current state, if any. */
    method FetchRequest() returns (request: Option<Request>)
      ensures request == FetchEffect(mapLoaded, days, selectedCategory, travelList, cafeList)
    {
      if !mapLoaded || days.None? || |days.value| == 0 {
        return None;
      }
      var lists := days.value;
      match selectedCategory {
        case All =>
          var titleDay := GetTitleDayMap(lists);
          request := Some(Request(AllTitles(lists), ByTitle(titleDay)));
        case Travel =>
          request := Some(Request(travelList, AsCategory(Travel)));
        case Cafe =>
          request := Some(Request(cafeList, AsCategory(Cafe)));
        case Day(d) =>
          request := Some(Request(DayList(lists, d), AsCategory(Day(d))));
      }
    }

    /**
     * A category button click. A day button selects that day and clears the
     * location, which opens the panel; any other button clears both
     * selections and closes the panel at once (arming the timer if a
     * selection was cleared). A changed category triggers a fetch and a redraw.
     */
    method ClickCategory(c: Category) returns (issued: seq<Request>)
      requires Valid()
      modifies this
      ensures Valid()
      ensures selectedCategory == c
      ensures c.Day? ==> selectedDay == Some(c.day) && selectedLocation.None? && panelVisible && !hideTimerPending
      ensures !c.Day? ==> selectedDay.None? && selectedLocation.None? && !panelVisible
      ensures !c.Day? ==>
        hideTimerPending == (old(hideTimerPending) || old(selectedLocation).Some? || old(selectedDay).Some?)
      ensures issued == if c != old(selectedCategory)
        then FetchEffect(mapLoaded, days, c, travelList, cafeList).ToSeq() else []
      ensures mapLoaded == old(mapLoaded) && days == old(days) && schedule == old(schedule)
      ensures travelList == old(travelList) && cafeList == old(cafeList) && locations == old(locations)
    {
      var previousCategory, previousLocation, previousDay := selectedCategory, selectedLocation, selectedDay;
      selectedCategory := c;
      if c.Day? {
        selectedDay := Some(c.day);
        selectedLocation := None;
      } else {
        selectedDay := None;
        selectedLocation := None;
        panelVisible := false;
      }
      issued := [];
      if selectedCategory != previousCategory {
        var request := FetchRequest();
        issued := request.ToSeq();
        Redraw();
      }
      SyncPanel(previousLocation, previousDay);
    }

    /** A marker click selects its location and clears the day; the category stays. */
    method ClickMarker(i: nat)
      requires Valid()
      requires i < |markers|
      modifies this
      ensures Valid()
      ensures selectedLocation == Some(old(markers[i].location)) && selectedDay.None?
      ensures panelVisible && !hideTimerPending
      ensures selectedCategory == old(selectedCategory) && markers == old(markers)
      ensures mapLoaded == old(mapLoaded) && days == old(days) && schedule == old(schedule)
      ensures travelList == old(travelList) && cafeList == old(cafeList) && locations == old(locations)
    {
      var previousLocation, previousDay := selectedLocation, selectedDay;
      selectedLocation := Some(markers[i].location);
      selectedDay := None;
      SyncPanel(previousLocation, previousDay);
    }

    /** The close button clears both selections and closes the panel; the category stays. */
    method Close()
      requires Valid()
      modifies this
      ensures Valid()
      ensures selectedLocation.None? && selectedDay.None? && !panelVisible
      ensures hideTimerPending == (old(hideTimerPending) || old(selectedLocation).Some? || old(selectedDay).Some?)
      ensures selectedCategory == old(selectedCategory) && markers == old(markers)
      ensures mapLoaded == old(mapLoaded) && days == old(days) && schedule == old(schedule)
      ensures travelList == old(travelList) && cafeList == old(cafeList) && locations == old(locations)
    {
      var previousLocation, previousDay := selectedLocation, selectedDay;
      selectedLocation := None;
      selectedDay := None;
      panelVisible := false;
      SyncPanel(previousLocation, previousDay);
    }

    /** The armed 400 ms timer fires and closes the panel; nothing else changes. */
    method HideTimerFires()
      requires Valid()
      requires hideTimerPending
      modifies this`panelVisible, this`hideTimerPending
      ensures Valid()
      ensures !panelVisible && !hideTimerPending
    {
      panelVisible := false;
      hideTimerPending := false;
    }

    /**
     * The initial lists arrive. The fetch effect runs first, still with the
     * old category; then, when a `days` document came, the view is reset to
     * the travel category with nothing selected, which fetches again when the
     * category changed and arms the timer when a selection was cleared (the
     * panel itself stays open until the timer fires).
     */
    method DataLoaded(newTravelList: seq<string>, newCafeList: seq<string>, newDays: Option<DayLists>,
                      newSchedule: Schedule)
      returns (issued: seq<Request>)
      requires Valid()
      modifies this
      ensures Valid()
      ensures travelList == newTravelList && cafeList == newCafeList && days == newDays && schedule == newSchedule
      ensures newDays.None? ==>
        && selectedCategory == old(selectedCategory) && selectedLocation == old(selectedLocation)
        && selectedDay == old(selectedDay) && panelVisible == old(panelVisible)
        && hideTimerPending == old(hideTimerPending)
      ensures newDays.Some? ==>
        && selectedCategory == Travel && selectedLocation.None? && selectedDay.None?
        && panelVisible == old(panelVisible)
        && hideTimerPending == (old(hideTimerPending) || old(selectedLocation).Some? || old(selectedDay).Some?)
      ensures issued ==
        FetchEffect(mapLoaded, newDays, old(selectedCategory), newTravelList, newCafeList).ToSeq() +
        (if newDays.Some? && old(selectedCategory) != Travel
         then FetchEffect(mapLoaded, newDays, Travel, newTravelList, newCafeList).ToSeq() else [])
      ensures mapLoaded == old(mapLoaded) && locations == old(locations)
    {
      travelList, cafeList, days, schedule := newTravelList, newCafeList, newDays, newSchedule;
      var first := FetchRequest();
      issued := first.ToSeq();
      if newDays.Some? {
        var second := ResetView();
        issued := issued + second;
      }
    }

    /**
     * The days effect's reset to the travel view with nothing selected, and
     * the effects it triggers: a fetch and a redraw when the category
     * changed, the panel effect when a selection was cleared.
     */
    method ResetView() returns (issued: seq<Request>)
      requires Valid()
      modifies this
      ensures Valid()
      ensures selectedCategory == Travel && selectedLocation.None? && selectedDay.None?
      ensures panelVisible == old(panelVisible)
      ensures hideTimerPending == (old(hideTimerPending) || old(selectedLocation).Some? || old(selectedDay).Some?)
      ensures issued == if old(selectedCategory) != Travel
        then FetchEffect(mapLoaded, days, Travel, travelList, cafeList).ToSeq() else []
      ensures travelList == old(travelList) && cafeList == old(cafeList) && days == old(days)
      ensures schedule == old(schedule) && mapLoaded == old(mapLoaded) && locations == old(locations)
    {
      var previousCategory, previousLocation, previousDay := selectedCategory, selectedLocation, selectedDay;
      selectedCategory := Travel;
      selectedLocation := None;
      selectedDay := None;
      issued := [];
      if selectedCategory != previousCategory {
        var request := FetchRequest();
        issued := request.ToSeq();
        Redraw();
      }
      SyncPanel(previousLocation, previousDay);
    }

    /** The map finishes loading (once): the current category is fetched and the markers drawn. */
    method MapLoaded() returns (issued: seq<Request>)
      requires Valid()
      modifies this`mapLoaded, this`markers
      ensures Valid()
      ensures mapLoaded
      ensures issued == if old(mapLoaded) then []
        else FetchEffect(true, days, selectedCategory, travelList, cafeList).ToSeq()
      ensures old(mapLoaded) ==> markers == old(markers)
    {
      issued := [];
      if !mapLoaded {
        mapLoaded := true;
        var request := FetchRequest();
        issued := request.ToSeq();
        Redraw();
      }
    }

    /**
     * The geocoder answers a request, current or stale: its places, tagged as
     * that request says, become the locations and the markers are redrawn.
     */
    method LocationsArrived(request: Request, places: seq<Place>)
      requires Valid()
      modifies this`locations, this`markers
      ensures Valid()
      ensures locations == TagResults(request.tagging, places)
      ensures |markers| == (if mapLoaded then |places| else 0)
    {
      locations := TagResults(request.tagging, places);
      Redraw();
    }

    /**
     * The schedule table the panel shows at hour `nowHour`: present while the
     * panel is open on a selected day that the schedule document lists.
     */
    function ScheduleTable(nowHour: int): (table: Option<seq<ScheduleRow>>)
      requires 0 <= nowHour <= 23
      reads this
      ensures table.Some? <==> panelVisible && selectedDay.Some? && selectedDay.value in schedule
      ensures table.Some? ==> table.value == ScheduleRows(schedule[selectedDay.value], nowHour)
      ensures table.Some? ==> |table.value| == |schedule[selectedDay.value]|
    {
      if panelVisible && selectedDay.Some? && selectedDay.value in schedule
      then Some(ScheduleRows(schedule[selectedDay.value], nowHour))
      else None
    }
  }

  /**
   * Selecting a day opens the panel; closing hides it at once and arms the
   * timer, whose firing leaves it hidden.
   */
  method SelectDayThenClose() returns (openOnDay: bool, openAfterClose: bool, armedAfterClose: bool, openAfterTimer: bool)
    ensures openOnDay && !openAfterClose && armedAfterClose && !openAfterTimer
  {
    var view := new MapView();
    var _ := view.ClickCategory(Day(Day2));
    openOnDay := view.panelVisible;
    view.Close();
    openAfterClose, armedAfterClose := view.panelVisible, view.hideTimerPending;
    view.HideTimerFires();
    openAfterTimer := view.panelVisible;
  }

  /**
   * When the lists arrive while a day is selected, the reset to the travel
   * view clears the selection but leaves the panel open until the timer fires.
   */
  method ReloadKeepsPanelUntilTimer(lists: DayLists) returns (openAfterReload: bool, openAfterTimer: bool, requests: nat)
    ensures openAfterReload && !openAfterTimer && requests == 0
  {
    var view := new MapView();
    var _ := view.ClickCategory(Day(Day3));
    var issued := view.DataLoaded([], [], Some(lists), map[]);
    requests := |issued|;
    openAfterReload := view.panelVisible;
    view.HideTimerFires();
    openAfterTimer := view.panelVisible;
  }

  /**
   * Travel places on the map keep their "travel" tag when a day button is
   * clicked; until that day's answer arrives they are redrawn without an image.
   */
  method StaleMarkersAfterDayClick(lists: DayLists, travel: seq<string>, places: seq<Place>)
    returns (staleIcons: seq<Option<string>>, dayRequest: Request)
    requires |lists| > 0 && |places| > 0
    ensures |staleIcons| == |places| && forall i :: 0 <= i < |staleIcons| ==> staleIcons[i].None?
    ensures dayRequest == Request(DayList(lists, Day1), AsCategory(Day(Day1)))
  {
    var view := new MapView();
    var _ := view.MapLoaded();
    var loaded := view.DataLoaded(travel, [], Some(lists), map[]);
    assert loaded == [Request(travel, AsCategory(Travel))];
    view.LocationsArrived(loaded[0], places);
    var issued := view.ClickCategory(Day(Day1));
    dayRequest := issued[0];
    var markers, locations := view.markers, view.locations;
    staleIcons := seq(|markers|, i requires 0 <= i < |markers| => markers[i].icon);
    forall i | 0 <= i < |staleIcons| ensures staleIcons[i].None? {
      assert locations[i].dayKey == Some(Travel);
      StaleTagHasNoIcon(Day(Day1), Travel);
    }
  }

  /**
   * Fetches are neither cancelled nor sequenced: when the answer for day 1
   * arrives after the answer for day 2, the day 2 view shows day 1's places
   * with day 1's marker.
   */
  method SlowAnswerOverwritesNewerView(lists: DayLists, firstPlaces: seq<Place>, secondPlaces: seq<Place>)
    returns (shownCategory: Category, shownPlaces: seq<Place>, icons: seq<Option<string>>)
    requires |lists| > 0
    ensures shownCategory == Day(Day2) && shownPlaces == firstPlaces
    ensures |icons| == |firstPlaces| && forall i :: 0 <= i < |icons| ==> icons[i] == Some(DayIcon(Day1))
  {
    var view := new MapView();
    var _ := view.MapLoaded();
    var _ := view.DataLoaded([], [], Some(lists), map[]);
    var forDay1 := view.ClickCategory(Day(Day1));
    var forDay2 := view.ClickCategory(Day(Day2));
    view.LocationsArrived(forDay2[0], secondPlaces);
    view.LocationsArrived(forDay1[0], firstPlaces);
    shownCategory := view.selectedCategory;
    var markers, locations := view.markers, view.locations;
    shownPlaces := seq(|locations|, i requires 0 <= i < |locations| => locations[i].place);
    icons := seq(|markers|, i requires 0 <= i < |markers| => markers[i].icon);
    forall i | 0 <= i < |icons| ensures icons[i] == Some(DayIcon(Day1)) {
      assert locations[i].dayKey == Some(Day(Day1));
    }
  }
}
