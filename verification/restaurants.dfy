/** The lunch picker's restaurant list: opening hours, the filter panel, and distance labels. */
module Restaurants {
  import opened Wrappers
  import opened LunchTime
  import Seqs
  import Text

  datatype Restaurant = Restaurant(
    id: int,
    name: string,
    price: string,        // "$", "$$" or "$$$"
    distance: Option<int>, // metres; `parseInt` of the form field, None for NaN
    weekdayOpen: bool,
    timeStart: string,    // "HH:MM"
    timeEnd: string)

  /** The filter panel: a price class ("" for any) and a maximum distance. */
  datatype Filters = Filters(price: string, distance: int)

  /** Some lunch-window minute lies in the opening interval [start, end). */
  predicate SharesLunchMinute(start: int, end: int) {
    exists t :: IsLunchMinute(t) && start <= t < end
  }

  /** A non-empty interval shares a minute with the window exactly when each starts before the other ends. */
  lemma SharesLunchMinuteIff(start: int, end: int)
    ensures start < end ==> (SharesLunchMinute(start, end) <==> start < LUNCH_WINDOW_END_MINUTES && end > LUNCH_WINDOW_START_MINUTES)
  {
    if start < end && start < LUNCH_WINDOW_END_MINUTES && end > LUNCH_WINDOW_START_MINUTES {
      var t := if start > LUNCH_WINDOW_START_MINUTES then start else LUNCH_WINDOW_START_MINUTES;
      assert IsLunchMinute(t) && start <= t < end;
    }
  }

  /**
   * `isRestaurantOpenForLunch`: open on weekdays, it is a weekday, both times
   * parse, and opening hours that start before they end share a minute with
   * 12:00-13:00.
   */
  function IsOpenForLunch(r: Restaurant, day: int): (open: bool)
    ensures !r.weekdayOpen ==> !open
    ensures !IsWeekday(day) ==> !open
    ensures ParseClock(r.timeStart).None? || ParseClock(r.timeEnd).None? ==> !open
    ensures ParseClock(r.timeStart).Some? && ParseClock(r.timeEnd).Some? ==>
      (open <==> r.weekdayOpen && IsWeekday(day)
                 && ParseClock(r.timeStart).value < LUNCH_WINDOW_END_MINUTES
                 && ParseClock(r.timeEnd).value > LUNCH_WINDOW_START_MINUTES)
    ensures ParseClock(r.timeStart).Some? && ParseClock(r.timeEnd).Some? && ParseClock(r.timeStart).value < ParseClock(r.timeEnd).value ==>
      (open <==> r.weekdayOpen && IsWeekday(day) && SharesLunchMinute(ParseClock(r.timeStart).value, ParseClock(r.timeEnd).value))
  {
    if !r.weekdayOpen then false
    else
      match (ParseClock(r.timeStart), ParseClock(r.timeEnd))
      case (Some(startMinutes), Some(endMinutes)) =>
        SharesLunchMinuteIff(startMinutes, endMinutes);
        if day < TARGET_DAY_MIN || day > TARGET_DAY_MAX then false
        else startMinutes < LUNCH_WINDOW_END_MINUTES && endMinutes > LUNCH_WINDOW_START_MINUTES
      case _ => false
  }

  /** For well-formed "HH:MM" hours, opening for lunch is the plain interval overlap. */
  lemma OpenForLunchByClock(r: Restaurant, day: int, h1: nat, m1: nat, h2: nat, m2: nat)
    requires h1 < 24 && m1 < 60 && h2 < 24 && m2 < 60
    requires r.timeStart == ClockString(h1, m1) && r.timeEnd == ClockString(h2, m2)
    ensures IsOpenForLunch(r, day) <==> r.weekdayOpen && IsWeekday(day) && h1 * 60 + m1 < 13 * 60 && h2 * 60 + m2 > 12 * 60
  {
    ClockRoundTrip(h1, m1);
    ClockRoundTrip(h2, m2);
  }

  /** Hours that run past midnight end "before" they start, so such a restaurant never counts as open for lunch. */
  lemma PastMidnightNeverOpen(r: Restaurant, day: int)
    requires r.timeStart == "11:00" && r.timeEnd == "01:00"
    ensures !IsOpenForLunch(r, day)
  {
    OpenForLunchByClock(r, day, 11, 0, 1, 0);
  }

  predicate PriceMatches(r: Restaurant, f: Filters) {
    f.price == "" || r.price == f.price
  }

  /** `restaurant.distance <= filters.distance`, which is false for a NaN distance. */
  predicate DistanceMatches(r: Restaurant, f: Filters) {
    r.distance.Some? && r.distance.value <= f.distance
  }

  /** Everything the list and the wheel ask of a restaurant. */
  predicate IsCandidate(r: Restaurant, f: Filters, day: int) {
    IsOpenForLunch(r, day) && PriceMatches(r, f) && DistanceMatches(r, f)
  }

  /** `IsCandidate` as a test to filter by. */
  function CandidateTest(f: Filters, day: int): Restaurant -> bool {
    (x: Restaurant) => IsCandidate(x, f, day)
  }

  /**
   * `filteredRestaurants`: first the restaurants open for lunch, then those
   * matching the price and distance filters, in list order. As many come out
   * as there are candidate positions in the list, so none is dropped.
   */
  function FilteredRestaurants(rs: seq<Restaurant>, f: Filters, day: int): (r: seq<Restaurant>)
    ensures Seqs.IsSubsequence(r, rs)
    ensures forall i :: 0 <= i < |r| ==> IsCandidate(r[i], f, day)
    ensures forall i :: 0 <= i < |rs| && IsCandidate(rs[i], f, day) ==> rs[i] in r
    ensures |r| == Seqs.CountWhere(rs, CandidateTest(f, day))
    ensures r == Seqs.Filter(rs, CandidateTest(f, day))
  {
    var open := (x: Restaurant) => IsOpenForLunch(x, day);
    var matches := (x: Restaurant) => PriceMatches(x, f) && DistanceMatches(x, f);
    var validLunchRestaurants := Seqs.Filter(rs, open);
    Seqs.FilterFilter(rs, open, matches, CandidateTest(f, day));
    Seqs.Filter(validLunchRestaurants, matches)
  }

  /** Every candidate restaurant appears in the list exactly as often as in the input. */
  lemma FilteredMultiplicity(rs: seq<Restaurant>, f: Filters, day: int, x: Restaurant)
    requires IsCandidate(x, f, day)
    ensures multiset(FilteredRestaurants(rs, f, day))[x] == multiset(rs)[x]
  {
    Seqs.FilterMultiplicity(rs, CandidateTest(f, day), x);
  }

  /**
   * `formatDistance` below one kilometre: the distance in decimal, with a
   * minus sign when negative, then "m"; a NaN distance reads "NaNm".
   */
  function FormatDistance(distance: Option<int>): (s: string)
    requires distance.None? || distance.value < 1000
    ensures |s| >= 2 && s[|s| - 1] == 'm'
    ensures distance.None? ==> s == "NaNm"
    ensures distance.Some? && distance.value >= 0 ==>
      && Text.AllDigits(s[..|s| - 1]) && Text.DigitsValue(s[..|s| - 1]) == distance.value
      && (|s| > 2 ==> s[0] != '0')
      && |s| <= 4
    ensures distance.Some? && distance.value < 0 ==>
      && |s| >= 3 && s[0] == '-'
      && Text.AllDigits(s[1..|s| - 1]) && Text.DigitsValue(s[1..|s| - 1]) == -distance.value
      && (|s| > 3 ==> s[1] != '0')
  {
    match distance
    case None => "NaNm"
    case Some(d) =>
      if d >= 0 then MetreLabel(d)
      else
        var digits := Text.NatToString(-d);
        var s := "-" + digits + "m";
        assert s[1..|s| - 1] == digits;
        s
  }

  /** A non-negative distance below one kilometre, in decimal, then "m". */
  function MetreLabel(distance: nat): (s: string)
    requires distance < 1000
    ensures |s| >= 2 && s[|s| - 1] == 'm'
    ensures Text.AllDigits(s[..|s| - 1]) && Text.DigitsValue(s[..|s| - 1]) == distance
    ensures |s| > 2 ==> s[0] != '0'
    ensures |s| <= 4
  {
    var digits := Text.NatToString(distance);
    assert |digits| <= 3 by {
      if distance >= 100 {
        assert Text.NatToString(distance) == Text.NatToString(distance / 10) + [Text.DigitChar(distance % 10)];
        assert Text.NatToString(distance / 10) == Text.NatToString(distance / 100) + [Text.DigitChar(distance / 10 % 10)];
      } else if distance >= 10 {
        assert Text.NatToString(distance) == Text.NatToString(distance / 10) + [Text.DigitChar(distance % 10)];
      }
    }
    var s := digits + "m";
    assert s[..|s| - 1] == digits;
    s
  }
}
