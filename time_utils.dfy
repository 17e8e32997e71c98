/**
 * The itinerary utilities: the day keys, the hour-granularity "is now inside
 * this stop's arrival/departure window" test used to highlight schedule rows,
 * and the title-to-day lookup used to colour the "all" view.
 *
 * The current hour, which the program reads from the wall clock, is a
 * parameter here.
 */
module TimeUtils {
  import opened Wrappers
  import opened JsBuiltins

  /** The five itinerary days. */
  datatype DayKey = Day1 | Day2 | Day3 | Day4 | Day5 {

    /** The key as it is spelt in the list and schedule documents. */
    function Name(): string {
      match this
      case Day1 => "day1"
      case Day2 => "day2"
      case Day3 => "day3"
      case Day4 => "day4"
      case Day5 => "day5"
    }

    /** The position of the day in the fixed order `day1..day5`, counting from 0. */
    function Index(): nat {
      match this
      case Day1 => 0
      case Day2 => 1
      case Day3 => 2
      case Day4 => 3
      case Day5 => 4
    }
  }

  /** The fixed day order that every loop over the days follows. */
  const OrderedDays: seq<DayKey> := [Day1, Day2, Day3, Day4, Day5]

  /** Each day sits at its own index in the day order, and distinct days have distinct names. */
  lemma OrderedDaysFacts()
    ensures |OrderedDays| == 5
    ensures forall d: DayKey :: d.Index() < 5 && OrderedDays[d.Index()] == d
    ensures forall i :: 0 <= i < 5 ==> OrderedDays[i].Index() == i
    ensures forall d: DayKey, e: DayKey :: d.Name() == e.Name() ==> d == e
  {
  }

  // ---------------------------------------------------------------------
  // convertTo24Hour
  // ---------------------------------------------------------------------

  /** Times are already stored in 24-hour form; the conversion hands its argument back. */
  function ConvertTo24Hour(time: string): (converted: string)
    ensures converted == time
  {
    time
  }

  // ---------------------------------------------------------------------
  // isCurrentTimeInHourRange
  // ---------------------------------------------------------------------

  /** `parseInt(time.split(":")[0], 10)`: the hour of an "HH:MM" text, `None` for `NaN`. */
  function HourOf(time: string): Option<int> {
    ParseInt(SplitFirst(time, ':'))
  }

  /**
   * Whether the current hour `nowHour` (0..23) falls inside the stop's
   * window. Only the hours are compared: when both hours are equal the stop
   * matches during that one hour; otherwise the window is
   * `arrivalHour..departureHour`, inclusive at both ends. A hour that does not
   * parse is `NaN`, and every comparison with `NaN` is false.
   */
  function IsCurrentTimeInHourRange(arrival: string, departure: string, nowHour: int): (inRange: bool)
    requires 0 <= nowHour <= 23
    ensures inRange <==>
      && HourOf(arrival).Some?
      && HourOf(departure).Some?
      && if HourOf(arrival) == HourOf(departure) then nowHour == HourOf(arrival).value
         else HourOf(arrival).value <= nowHour <= HourOf(departure).value
  {
    var now := Some(nowHour);
    var arrivalHour := HourOf(arrival);
    var departureHour := HourOf(departure);
    if NumEq(arrivalHour, departureHour) then NumEq(now, arrivalHour)
    else NumLe(arrivalHour, now) && NumLe(now, departureHour)
  }

  /** An arrival or departure whose hour does not parse is never current. */
  lemma UnparsableHourNeverInRange(arrival: string, departure: string)
    requires HourOf(arrival).None? || HourOf(departure).None?
    ensures forall nowHour | 0 <= nowHour <= 23 :: !IsCurrentTimeInHourRange(arrival, departure, nowHour)
  {
  }

  /** A window that ends in an earlier hour than it starts (an overnight stay) never matches. */
  lemma OvernightRangeNeverMatches(arrival: string, departure: string)
    requires HourOf(arrival).Some? && HourOf(departure).Some?
    requires HourOf(departure).value < HourOf(arrival).value
    ensures forall nowHour | 0 <= nowHour <= 23 :: !IsCurrentTimeInHourRange(arrival, departure, nowHour)
  {
  }

  /** With equal hours the stop is current exactly during that hour. */
  lemma SameHourMatchesOnlyThatHour(arrival: string, departure: string, nowHour: int)
    requires 0 <= nowHour <= 23
    requires HourOf(arrival).Some? && HourOf(arrival) == HourOf(departure)
    ensures IsCurrentTimeInHourRange(arrival, departure, nowHour) <==> nowHour == HourOf(arrival).value
  {
  }

  /** Only the text before the first `:` is read: the minutes never change the answer. */
  lemma MinutesAreIgnored(arrivalHour: string, departureHour: string,
                          arrivalMinutes: string, departureMinutes: string,
                          otherArrivalMinutes: string, otherDepartureMinutes: string,
                          nowHour: int)
    requires 0 <= nowHour <= 23
    requires ':' !in arrivalHour && ':' !in departureHour
    ensures IsCurrentTimeInHourRange(arrivalHour + ":" + arrivalMinutes,
                                     departureHour + ":" + departureMinutes, nowHour)
        <==> IsCurrentTimeInHourRange(arrivalHour + ":" + otherArrivalMinutes,
                                      departureHour + ":" + otherDepartureMinutes, nowHour)
  {
    SplitFirstOfJoin(arrivalHour, ':', arrivalMinutes);
    SplitFirstOfJoin(arrivalHour, ':', otherArrivalMinutes);
    SplitFirstOfJoin(departureHour, ':', departureMinutes);
    SplitFirstOfJoin(departureHour, ':', otherDepartureMinutes);
  }

  /** A zero-padded two-digit field, as the schedule writes hours and minutes. */
  function TwoDigits(n: nat): (field: string)
    requires n < 100
    ensures |field| == 2 && AllDigits(field) && ':' !in field
  {
    [DigitChar(n / 10), DigitChar(n % 10)]
  }

  /** An "HH:MM" time of day. */
  function FormatTime(hour: nat, minute: nat): string
    requires hour < 24 && minute < 60
  {
    TwoDigits(hour) + ":" + TwoDigits(minute)
  }

  /** The value of a two-digit field is the number it was written from. */
  lemma TwoDigitsValue(n: nat)
    requires n < 100
    ensures DigitsValue(TwoDigits(n)) == n
  {
    var field := TwoDigits(n);
    assert field[..1] == [DigitChar(n / 10)];
    assert DigitsValue(field[..1]) == n / 10;
  }

  /** `parseInt` reads a two-digit field back as the number it was written from. */
  lemma ParseTwoDigits(n: nat)
    requires n < 100
    ensures ParseInt(TwoDigits(n)) == Some(n)
  {
    TwoDigitsValue(n);
    ParseIntOfDigits(TwoDigits(n));
  }

  /** The hour read back from an "HH:MM" time is the hour it was written with. */
  lemma HourOfFormatTime(hour: nat, minute: nat)
    requires hour < 24 && minute < 60
    ensures HourOf(FormatTime(hour, minute)) == Some(hour)
  {
    var field := TwoDigits(hour);
    assert FormatTime(hour, minute) == field + [':'] + TwoDigits(minute);
    SplitFirstOfJoin(field, ':', TwoDigits(minute));
    ParseTwoDigits(hour);
  }

  /**
   * For well-formed "HH:MM" times the test is the hour window: one hour when
   * the hours agree, otherwise `arrivalHour <= nowHour <= departureHour`.
   */
  lemma FormattedTimesInHourRange(arrivalHour: nat, arrivalMinute: nat,
                                  departureHour: nat, departureMinute: nat, nowHour: int)
    requires arrivalHour < 24 && arrivalMinute < 60 && departureHour < 24 && departureMinute < 60
    requires 0 <= nowHour <= 23
    ensures IsCurrentTimeInHourRange(FormatTime(arrivalHour, arrivalMinute),
                                     FormatTime(departureHour, departureMinute), nowHour)
        <==> if arrivalHour == departureHour then nowHour == arrivalHour
             else arrivalHour <= nowHour <= departureHour
  {
    HourOfFormatTime(arrivalHour, arrivalMinute);
    HourOfFormatTime(departureHour, departureMinute);
  }

  /** A 09:00-11:00 stop is current at 10 o'clock and, because only hours count, all through 11 o'clock. */
  lemma NineToElevenWindow()
    ensures IsCurrentTimeInHourRange("09:00", "11:00", 10)
    ensures IsCurrentTimeInHourRange("09:00", "11:00", 11)
    ensures !IsCurrentTimeInHourRange("09:00", "11:00", 12)
    ensures !IsCurrentTimeInHourRange("09:00", "11:00", 8)
  {
    assert FormatTime(9, 0) == "09:00";
    assert FormatTime(11, 0) == "11:00";
    FormattedTimesInHourRange(9, 0, 11, 0, 10);
    FormattedTimesInHourRange(9, 0, 11, 0, 11);
    FormattedTimesInHourRange(9, 0, 11, 0, 12);
    FormattedTimesInHourRange(9, 0, 11, 0, 8);
  }

  // ---------------------------------------------------------------------
  // getTitleDayMap
  // ---------------------------------------------------------------------

  /**
   * The `days` document: day key to the place titles of that day. A key may
   * be missing, and keys other than `day1..day5` may be present.
   */
  type DayLists = map<string, seq<string>>

  /** Day `d`'s list is present and names `title`. */
  predicate ListsTitle(days: DayLists, d: DayKey, title: string) {
    d.Name() in days && title in days[d.Name()]
  }

  /** `d` lists `title`, and no later day does. */
  predicate IsLatestListing(days: DayLists, d: DayKey, title: string) {
    ListsTitle(days, d, title) && forall e: DayKey :: d.Index() < e.Index() ==> !ListsTitle(days, e, title)
  }

  /** Day `d`'s titles, or none when its list is absent. */
  function DayList(days: DayLists, d: DayKey): seq<string> {
    if d.Name() in days then days[d.Name()] else []
  }

  /** `m` after writing `d` under each of `titles`, in order. */
  function PutAll(m: map<string, DayKey>, titles: seq<string>, d: DayKey): map<string, DayKey> {
    if titles == [] then m else PutAll(m, titles[..|titles| - 1], d)[titles[|titles| - 1] := d]
  }

  /** Writing a list of titles adds exactly those titles, each mapped to `d`, and keeps every other entry. */
  lemma {:induction false} PutAllFacts(m: map<string, DayKey>, titles: seq<string>, d: DayKey, title: string)
    ensures title in PutAll(m, titles, d) <==> title in m || title in titles
    ensures title in titles ==> PutAll(m, titles, d)[title] == d
    ensures title !in titles && title in m ==> PutAll(m, titles, d)[title] == m[title]
  {
    if titles != [] {
      PutAllFacts(m, titles[..|titles| - 1], d, title);
      assert titles == titles[..|titles| - 1] + [titles[|titles| - 1]];
    }
  }

  /** The lookup after visiting the days `ds` in order, each day overwriting the earlier entries of its titles. */
  function TitleDayMapOver(days: DayLists, ds: seq<DayKey>): map<string, DayKey> {
    if ds == [] then map[]
    else
      var d := ds[|ds| - 1];
      PutAll(TitleDayMapOver(days, ds[..|ds| - 1]), DayList(days, d), d)
  }

  /** The lookup `getTitleDayMap` returns. */
  function TitleDayMap(days: DayLists): map<string, DayKey> {
    TitleDayMapOver(days, OrderedDays)
  }

  /**
   * `getTitleDayMap`: for each day of `day1..day5` whose list is present, map
   * each of its titles to that day, overwriting what an earlier day wrote.
   */
  method GetTitleDayMap(days: DayLists) returns (titleDay: map<string, DayKey>)
    ensures titleDay == TitleDayMap(days)
    ensures forall title :: title in titleDay <==> exists d: DayKey :: ListsTitle(days, d, title)
    ensures forall title :: title in titleDay ==> IsLatestListing(days, titleDay[title], title)
  {
    titleDay := map[];
    var orderedDays := OrderedDays;
    for i := 0 to |orderedDays|
      invariant titleDay == TitleDayMapOver(days, orderedDays[..i])
    {
      var day := orderedDays[i];
      assert orderedDays[..i + 1][..i] == orderedDays[..i];
      if day.Name() !in days {
        continue;
      }
      var titles := days[day.Name()];
      for j := 0 to |titles|
        invariant titleDay == PutAll(TitleDayMapOver(days, orderedDays[..i]), titles[..j], day)
      {
        assert titles[..j + 1][..j] == titles[..j];
        titleDay := titleDay[titles[j] := day];
      }
      assert titles[..|titles|] == titles;
    }
    assert orderedDays[..|orderedDays|] == orderedDays;
    forall title
      ensures title in titleDay <==> exists d: DayKey :: ListsTitle(days, d, title)
      ensures title in titleDay ==> IsLatestListing(days, titleDay[title], title)
    {
      TitleDayMapLatest(days, title);
    }
  }

  /** After the first `k` days, a title is mapped iff one of them lists it, and to the latest such day. */
  lemma {:induction false} TitleDayMapPrefix(days: DayLists, k: nat, title: string)
    requires k <= 5
    ensures var m := TitleDayMapOver(days, OrderedDays[..k]);
      && (title in m <==> exists d: DayKey :: d.Index() < k && ListsTitle(days, d, title))
      && (title in m ==>
            && m[title].Index() < k
            && ListsTitle(days, m[title], title)
            && forall e: DayKey :: m[title].Index() < e.Index() < k ==> !ListsTitle(days, e, title))
  {
    OrderedDaysFacts();
    if k > 0 {
      TitleDayMapPrefix(days, k - 1, title);
      assert OrderedDays[..k][..k - 1] == OrderedDays[..k - 1];
      var last := OrderedDays[k - 1];
      assert last.Index() == k - 1;
      assert forall d: DayKey :: d.Index() == k - 1 ==> d == last;
      assert ListsTitle(days, last, title) <==> title in DayList(days, last);
      PutAllFacts(TitleDayMapOver(days, OrderedDays[..k - 1]), DayList(days, last), last, title);
    }
  }

  /**
   * The titles `getTitleDayMap` maps are exactly those some present day list
   * names, and each goes to the LAST day, in `day1..day5` order, that lists it.
   */
  lemma TitleDayMapLatest(days: DayLists, title: string)
    ensures title in TitleDayMap(days) <==> exists d: DayKey :: ListsTitle(days, d, title)
    ensures title in TitleDayMap(days) ==> IsLatestListing(days, TitleDayMap(days)[title], title)
  {
    OrderedDaysFacts();
    TitleDayMapPrefix(days, 5, title);
    assert OrderedDays[..5] == OrderedDays;
  }

  /** The lookup depends on the day lists alone. */
  lemma {:induction false} TitleDayMapOverSameLists(days: DayLists, other: DayLists, ds: seq<DayKey>)
    requires forall d: DayKey :: DayList(days, d) == DayList(other, d)
    ensures TitleDayMapOver(days, ds) == TitleDayMapOver(other, ds)
  {
    if ds != [] {
      TitleDayMapOverSameLists(days, other, ds[..|ds| - 1]);
    }
  }

  /** Keys other than `day1..day5` in the document are ignored. */
  lemma TitleDayMapIgnoresOtherKeys(days: DayLists, key: string, titles: seq<string>)
    requires forall d: DayKey :: d.Name() != key
    ensures TitleDayMap(days[key := titles]) == TitleDayMap(days)
  {
    TitleDayMapOverSameLists(days[key := titles], days, OrderedDays);
  }

  /** A title listed on day1 and day2 is looked up as day2: the later day overwrites. */
  lemma LaterDayOverwrites()
    ensures TitleDayMap(map["day1" := ["A"], "day2" := ["A", "B"]]) == map["A" := Day2, "B" := Day2]
  {
    var days: DayLists := map["day1" := ["A"], "day2" := ["A", "B"]];
    var m := TitleDayMap(days);
    OrderedDaysFacts();
    TitleDayMapLatest(days, "A");
    TitleDayMapLatest(days, "B");
    assert ListsTitle(days, Day2, "A") && ListsTitle(days, Day2, "B");
    assert IsLatestListing(days, Day2, "A") && IsLatestListing(days, Day2, "B");
    forall title | title in m
      ensures title == "A" || title == "B"
    {
      TitleDayMapLatest(days, title);
    }
    assert m.Keys == {"A", "B"};
  }
}
