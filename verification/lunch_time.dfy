/**
 * The lunch picker's clock: the weekday 12:00-13:00 window, the "HH:MM"
 * display string, and `Number` parsing of "HH:MM" opening times.
 */
module LunchTime {
  import opened Wrappers
  import Text

  const TARGET_DAY_MIN: int := 1
  const TARGET_DAY_MAX: int := 5
  const LUNCH_WINDOW_START_MINUTES: int := 12 * 60
  const LUNCH_WINDOW_END_MINUTES: int := 13 * 60

  /** Monday (1) to Friday (5) in `Date.getDay()` numbering. */
  predicate IsWeekday(day: int) {
    TARGET_DAY_MIN <= day <= TARGET_DAY_MAX
  }

  /** A minute of the day inside the lunch window. */
  predicate IsLunchMinute(t: int) {
    LUNCH_WINDOW_START_MINUTES <= t < LUNCH_WINDOW_END_MINUTES
  }

  datatype TimeStatus = TimeStatus(isLunchTimeWindow: bool, day: int, timeString: string)

  /** "HH:MM" with both parts zero-padded to two digits. */
  function ClockString(hour: nat, minute: nat): string {
    Text.PadStart2(Text.NatToString(hour)) + ":" + Text.PadStart2(Text.NatToString(minute))
  }

  /**
   * `getCurrentTimeStatus` for the clock reading (day, hour, minute) that
   * `Date` supplies: lunch time is any weekday minute of the twelfth hour, and
   * the time string reads back as the same minute of the day.
   */
  function GetCurrentTimeStatus(day: nat, hour: nat, minute: nat): (r: TimeStatus)
    requires day < 7 && hour < 24 && minute < 60
    ensures r.day == day
    ensures r.isLunchTimeWindow <==> IsWeekday(day) && hour == 12
    ensures |r.timeString| == 5 && r.timeString[2] == ':'
    ensures Text.AllDigits(r.timeString[..2]) && Text.AllDigits(r.timeString[3..])
    ensures Text.DigitsValue(r.timeString[..2]) == hour && Text.DigitsValue(r.timeString[3..]) == minute
    ensures ParseClock(r.timeString) == Some(hour * 60 + minute)
  {
    var currentMinutes := hour * 60 + minute;
    var isWeekday := day >= TARGET_DAY_MIN && day <= TARGET_DAY_MAX;
    var s := ClockString(hour, minute);
    ClockRoundTrip(hour, minute);
    TimeStatus(isWeekday && currentMinutes >= LUNCH_WINDOW_START_MINUTES && currentMinutes < LUNCH_WINDOW_END_MINUTES, day, s)
  }

  /** `Number(field)` for a field of ASCII digits (the empty field is 0); anything else is NaN. */
  function ParseNumber(field: string): (r: Option<nat>)
    ensures r.Some? <==> Text.AllDigits(field)
    ensures r.Some? ==> r.value == Text.DigitsValue(field)
  {
    if Text.AllDigits(field) then Some(Text.DigitsValue(field)) else None
  }

  /**
   * `const [h, m] = s.split(':').map(Number); h * 60 + m`, with `None` for NaN
   * (a missing minute field is `undefined`, which is NaN too).
   */
  function ParseClock(s: string): Option<int> {
    var fields := Text.Split(s, ':');
    if |fields| < 2 then None
    else
      match (ParseNumber(fields[0]), ParseNumber(fields[1]))
      case (Some(h), Some(m)) => Some(h * 60 + m)
      case _ => None
  }

  /** Leading zeros do not change a digit string's value. */
  lemma {:induction false} LeadingZero(s: string)
    requires Text.AllDigits(s)
    ensures Text.AllDigits(['0'] + s) && Text.DigitsValue(['0'] + s) == Text.DigitsValue(s)
    decreases |s|
  {
    var z := ['0'] + s;
    if |s| > 0 {
      assert z[..|z| - 1] == ['0'] + s[..|s| - 1];
      LeadingZero(s[..|s| - 1]);
    }
  }

  lemma PaddedValue(n: nat)
    requires n < 100
    ensures var p := Text.PadStart2(Text.NatToString(n));
      |p| == 2 && Text.AllDigits(p) && Text.DigitsValue(p) == n && ':' !in p
  {
    var s := Text.NatToString(n);
    if |s| < 2 {
      LeadingZero(s);
    }
  }

  /** Parsing a clock string gives back the minute of the day it was built from. */
  lemma ClockRoundTrip(hour: nat, minute: nat)
    requires hour < 100 && minute < 100
    ensures var s := ClockString(hour, minute);
      |s| == 5 && s[2] == ':' && Text.AllDigits(s[..2]) && Text.AllDigits(s[3..])
      && Text.DigitsValue(s[..2]) == hour && Text.DigitsValue(s[3..]) == minute
      && ParseClock(s) == Some(hour * 60 + minute)
  {
    var h := Text.PadStart2(Text.NatToString(hour));
    var m := Text.PadStart2(Text.NatToString(minute));
    PaddedValue(hour);
    PaddedValue(minute);
    ClockFields(h, m);
    assert ParseNumber(h) == Some(hour) && ParseNumber(m) == Some(minute);
  }

  /** Two separator-free two-character fields joined by ':' split back into those fields. */
  lemma ClockFields(h: string, m: string)
    requires |h| == 2 && |m| == 2 && ':' !in h && ':' !in m
    ensures var s := h + ":" + m;
      |s| == 5 && s[2] == ':' && s[..2] == h && s[3..] == m && Text.Split(s, ':') == [h, m]
  {
    var s := h + ":" + m;
    assert s[..2] == h && s[3..] == m;
    assert Text.Join([h, m], ':') == s;
    Text.SplitJoin([h, m], ':');
  }
}
