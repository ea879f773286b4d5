/**
 * The timestamp resolver: a syslog month/day/time without a year is placed in
 * the current year, or in the year before when that lands more than seven days
 * after "now". Points in time are whole seconds since 0001-01-01 00:00:00 of
 * the proleptic Gregorian calendar, the calendar of Python's datetime.
 */
module Timestamps {
  import opened Wrappers
  import opened Text

  const Minute := 60
  const Hour := 3600
  const Day := 86400
  /** timedelta(days=7) */
  const Week := 7 * Day

  /** A broken-down local time, as a Python datetime without its microseconds. */
  datatype DateTime = DateTime(year: int, month: int, day: int, hour: int, minute: int, second: int)

  predicate IsLeap(y: int)
  {
    y % 4 == 0 && (y % 100 != 0 || y % 400 == 0)
  }

  function DaysInYear(y: int): int
  {
    if IsLeap(y) then 366 else 365
  }

  function DaysInMonth(y: int, m: int): (n: int)
    requires 1 <= m <= 12
    ensures 28 <= n <= 31
  {
    if m == 2 then (if IsLeap(y) then 29 else 28)
    else if m == 4 || m == 6 || m == 9 || m == 11 then 30
    else 31
  }

  /** The dates datetime accepts: years 1 to 9999 and the days each month has. */
  predicate ValidDate(y: int, m: int, d: int)
  {
    1 <= y <= 9999 && 1 <= m <= 12 && 1 <= d <= DaysInMonth(y, m)
  }

  predicate ValidDateTime(t: DateTime)
  {
    ValidDate(t.year, t.month, t.day)
    && 0 <= t.hour < 24 && 0 <= t.minute < 60 && 0 <= t.second < 60
  }

  /** Days from 0001-01-01 to January 1 of year y. */
  function DaysBeforeYear(y: int): int
    requires y >= 1
  {
    var p := y - 1;
    365 * p + p / 4 - p / 100 + p / 400
  }

  /** Days from January 1 of year y to the first of month m. */
  function DaysBeforeMonth(y: int, m: int): int
    requires 1 <= m <= 12
  {
    var common :=
      if m == 1 then 0 else if m == 2 then 31 else if m == 3 then 59
      else if m == 4 then 90 else if m == 5 then 120 else if m == 6 then 151
      else if m == 7 then 181 else if m == 8 then 212 else if m == 9 then 243
      else if m == 10 then 273 else if m == 11 then 304 else 334;
    if m > 2 && IsLeap(y) then common + 1 else common
  }

  function ToSeconds(t: DateTime): int
    requires ValidDateTime(t)
  {
    (DaysBeforeYear(t.year) + DaysBeforeMonth(t.year, t.month) + t.day - 1) * Day
    + t.hour * Hour + t.minute * Minute + t.second
  }

  /** datetime.max, 9999-12-31 23:59:59, to the second. */
  const MaxDateTime := DateTime(9999, 12, 31, 23, 59, 59)

  /** What ts.replace(year=y) yields, when it does not raise. */
  function WithYear(t: DateTime, y: int): DateTime
  {
    DateTime(y, t.month, t.day, t.hour, t.minute, t.second)
  }

  lemma DivStep4(p: int)
    ensures (p + 1) / 4 == p / 4 + (if (p + 1) % 4 == 0 then 1 else 0)
  {
  }

  lemma DivStep100(p: int)
    ensures (p + 1) / 100 == p / 100 + (if (p + 1) % 100 == 0 then 1 else 0)
  {
  }

  lemma DivStep400(p: int)
    ensures (p + 1) / 400 == p / 400 + (if (p + 1) % 400 == 0 then 1 else 0)
  {
  }

  lemma Divisible400Is100(y: int)
    requires y % 400 == 0
    ensures y % 100 == 0
  {
    assert y == 100 * (4 * (y / 400));
  }

  lemma Divisible100Is4(y: int)
    requires y % 100 == 0
    ensures y % 4 == 0
  {
    assert y == 4 * (25 * (y / 100));
  }

  lemma DaysBeforeNextYear(y: int)
    requires y >= 1
    ensures DaysBeforeYear(y + 1) == DaysBeforeYear(y) + DaysInYear(y)
  {
    var p := y - 1;
    DivStep4(p);
    DivStep100(p);
    DivStep400(p);
    if y % 400 == 0 {
      Divisible400Is100(y);
    }
    if y % 100 == 0 {
      Divisible100Is4(y);
    }
    assert p + 1 == y;
    var a, b, c := (if y % 4 == 0 then 1 else 0), (if y % 100 == 0 then 1 else 0), (if y % 400 == 0 then 1 else 0);
    assert DaysBeforeYear(y + 1) == DaysBeforeYear(y) + 365 + a - b + c;
    assert DaysInYear(y) == 365 + a - b + c;
  }

  /** Every moment of year y lies before January 1 of year y + 1. */
  lemma WithinItsYear(t: DateTime)
    requires ValidDateTime(t)
    ensures DaysBeforeYear(t.year) * Day <= ToSeconds(t) < DaysBeforeYear(t.year + 1) * Day
  {
    DaysBeforeNextYear(t.year);
    assert DaysBeforeMonth(t.year, t.month) + DaysInMonth(t.year, t.month) <= DaysInYear(t.year);
  }

  lemma {:induction false} DaysBeforeYearMonotone(a: int, b: int)
    requires 1 <= a <= b
    ensures DaysBeforeYear(a) <= DaysBeforeYear(b)
    decreases b - a
  {
    if a < b {
      DaysBeforeNextYear(a);
      DaysBeforeYearMonotone(a + 1, b);
    }
  }

  /** A moment of an earlier year is an earlier moment. */
  lemma EarlierYearIsEarlier(s: DateTime, t: DateTime)
    requires ValidDateTime(s) && ValidDateTime(t) && s.year < t.year
    ensures ToSeconds(s) < ToSeconds(t)
  {
    WithinItsYear(s);
    WithinItsYear(t);
    DaysBeforeYearMonotone(s.year + 1, t.year);
  }

  /** The same month, day and time one year earlier lies 365 or 366 days earlier. */
  lemma YearEarlierShift(t: DateTime)
    requires ValidDateTime(t) && ValidDateTime(WithYear(t, t.year - 1))
    ensures 365 * Day <= ToSeconds(t) - ToSeconds(WithYear(t, t.year - 1)) <= 366 * Day
  {
    DaysBeforeNextYear(t.year - 1);
  }

  /** A moment of the year of now lies less than 366 days before now. */
  lemma SameYearLowerBound(t: DateTime, now: DateTime)
    requires ValidDateTime(t) && ValidDateTime(now) && t.year == now.year
    ensures ToSeconds(now) - 366 * Day < ToSeconds(t)
  {
    WithinItsYear(t);
    WithinItsYear(now);
    DaysBeforeNextYear(now.year);
  }

  /**
   * parse_timestamp once the captured text has been read as numbers: the
   * current-year reading, rolled back one year exactly when it is more than
   * seven days after now. None stands for the ValueError or OverflowError
   * the source raises: a date or time strptime refuses (February 29 of a
   * common year, second 60, a year before 1000 that %Y cannot read), a
   * now + 7 days beyond datetime.max, or a roll-back that replace refuses.
   * Whatever it returns lies in the year-long window that ends seven days
   * after now.
   */
  function Resolve(month: int, day: int, hour: int, minute: int, second: int, now: DateTime): (r: Option<int>)
    requires ValidDateTime(now)
    ensures r.Some? ==> ToSeconds(now) - 366 * Day < r.value <= ToSeconds(now) + Week
    ensures r.Some? <==>
      var cur := DateTime(now.year, month, day, hour, minute, second);
      now.year >= 1000 && ValidDateTime(cur) && ToSeconds(now) + Week <= ToSeconds(MaxDateTime)
      && (ToSeconds(cur) > ToSeconds(now) + Week ==> ValidDateTime(WithYear(cur, now.year - 1)))
    ensures r.Some? ==>
      var cur := DateTime(now.year, month, day, hour, minute, second);
      if ToSeconds(cur) <= ToSeconds(now) + Week then r.value == ToSeconds(cur)
      else r.value == ToSeconds(WithYear(cur, now.year - 1))
  {
    var cur := DateTime(now.year, month, day, hour, minute, second);
    if now.year < 1000 || !ValidDateTime(cur) then None
    else if ToSeconds(now) + Week > ToSeconds(MaxDateTime) then None
    else if ToSeconds(cur) <= ToSeconds(now) + Week then
      SameYearLowerBound(cur, now);
      Some(ToSeconds(cur))
    else
      var prev := WithYear(cur, now.year - 1);
      if !ValidDateTime(prev) then None
      else
        EarlierYearIsEarlier(prev, now);
        YearEarlierShift(cur);
        Some(ToSeconds(prev))
  }

  /** The month number %b reads, in English, ignoring case. */
  function MonthNumber(name: string): (m: Option<int>)
    ensures m.Some? ==> 1 <= m.value <= 12
    ensures m.Some? ==> |name| == 3
  {
    var n := LowerAll(name);
    if n == "jan" then Some(1) else if n == "feb" then Some(2) else if n == "mar" then Some(3)
    else if n == "apr" then Some(4) else if n == "may" then Some(5) else if n == "jun" then Some(6)
    else if n == "jul" then Some(7) else if n == "aug" then Some(8) else if n == "sep" then Some(9)
    else if n == "oct" then Some(10) else if n == "nov" then Some(11) else if n == "dec" then Some(12)
    else None
  }

  /**
   * parse_timestamp(month, day, time_str) as the line matchers call it: the
   * day is one or two digits and the time is HH:MM:SS. An unknown month name
   * is a ValueError of strptime, here None.
   */
  function ParseTimestamp(month: string, day: string, time: string, now: DateTime): (r: Option<int>)
    requires ValidDateTime(now)
    requires 1 <= |day| <= 2 && AllDigits(day) && IsClockText(time)
    ensures r.Some? ==> MonthNumber(month).Some?
    ensures r.Some? ==> ToSeconds(now) - 366 * Day < r.value <= ToSeconds(now) + Week
    ensures MonthNumber(month).Some? ==>
      r == Resolve(MonthNumber(month).value, DigitsValue(day),
                   DigitsValue(time[0..2]), DigitsValue(time[3..5]), DigitsValue(time[6..8]), now)
  {
    match MonthNumber(month)
    case None => None
    case Some(m) =>
      Resolve(m, DigitsValue(day), DigitsValue(time[0..2]), DigitsValue(time[3..5]), DigitsValue(time[6..8]), now)
  }
}
