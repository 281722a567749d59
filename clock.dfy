/**
 * The part of Go's `time` package the subscription engine relies on: instants in UTC,
 * the strict order behind `t.After(u)` / `t.Before(u)`, and calendar arithmetic
 * `t.AddDate(years, months, 0)` with Go's normalisation of out-of-range dates
 * (October 31 plus one month is December 1).
 */
module Clock {

  /** Nanoseconds in one day; the time of day is one count below this. */
  const NanosPerDay: nat := 86_400_000_000_000

  /** A UTC instant: a proleptic Gregorian date and the nanoseconds elapsed since midnight. */
  datatype Time = Time(year: int, month: int, day: int, nanos: nat)

  /** Go's zero `time.Time`: January 1 of year 1, 00:00:00 UTC. */
  const ZeroTime: Time := Time(1, 1, 1, 0)

  predicate IsLeapYear(year: int) {
    year % 4 == 0 && (year % 100 != 0 || year % 400 == 0)
  }

  /** Number of days in a month, February depending on the leap-year rule. */
  function DaysIn(year: int, month: int): (n: int)
    requires 1 <= month <= 12
    ensures 28 <= n <= 31
    ensures month == 12 ==> n == 31
  {
    if month == 2 then (if IsLeapYear(year) then 29 else 28)
    else if month == 4 || month == 6 || month == 9 || month == 11 then 30
    else 31
  }

  /** A normalised instant: a real calendar day and a time of day within it. */
  predicate Valid(t: Time) {
    1 <= t.month <= 12 && 1 <= t.day <= DaysIn(t.year, t.month) && t.nanos < NanosPerDay
  }

  /** Go's `t.Before(u)`: t is strictly earlier than u. */
  predicate Before(t: Time, u: Time) {
    t.year < u.year ||
    (t.year == u.year && (t.month < u.month ||
    (t.month == u.month && (t.day < u.day ||
    (t.day == u.day && t.nanos < u.nanos)))))
  }

  /** Go's `t.After(u)`: t is strictly later than u. */
  predicate After(t: Time, u: Time) {
    Before(u, t)
  }

  /** Months since January of year 0; counts calendar months independently of the day. */
  function MonthIndex(t: Time): int {
    12 * t.year + t.month - 1
  }

  /**
   * Go's normalisation of a day past the end of its month: the surplus days carry into the
   * following months, one month at a time, until they fit.
   */
  function RollDays(year: int, month: int, day: int, nanos: nat): (r: Time)
    requires 1 <= month <= 12 && 1 <= day && nanos < NanosPerDay
    ensures Valid(r) && r.nanos == nanos
    ensures MonthIndex(r) >= 12 * year + month - 1
    ensures day <= DaysIn(year, month) ==> r == Time(year, month, day, nanos)
    decreases day
  {
    if day <= DaysIn(year, month) then Time(year, month, day, nanos)
    else if month == 12 then RollDays(year + 1, 1, day - 31, nanos)
    else RollDays(year, month + 1, day - DaysIn(year, month), nanos)
  }

  /**
   * Go's `time.Date(year, month, day, ...)` for a positive day: a month outside 1..12 first
   * carries into the year, then a day past the month's end carries into the following months.
   */
  function Date(year: int, month: int, day: int, nanos: nat): (r: Time)
    requires 1 <= day && nanos < NanosPerDay
    ensures Valid(r) && r.nanos == nanos
  {
    var m := month - 1;
    RollDays(year + m / 12, m % 12 + 1, day, nanos)
  }

  /**
   * Go's `t.AddDate(years, months, 0)`: the same day of the month `12 * years + months` months
   * away, normalised by Date when that month is too short.
   */
  function AddDate(t: Time, years: int, months: int): (r: Time)
    requires Valid(t)
    ensures Valid(r) && r.nanos == t.nanos
  {
    Date(t.year + years, t.month + months, t.day, t.nanos)
  }

  /**
   * Where AddDate lands: in the month `12 * years + months` months on, with the same day, when
   * that month has the day; otherwise in the month after it, on the day reduced by the short
   * month's length.
   */
  lemma AddDateShift(t: Time, years: int, months: int)
    requires Valid(t)
    ensures var m := t.month - 1 + months;
      var y, mo := t.year + years + m / 12, m % 12 + 1;
      var r := AddDate(t, years, months);
      && 12 * y + mo - 1 == MonthIndex(t) + 12 * years + months
      && (t.day <= DaysIn(y, mo) ==> r == Time(y, mo, t.day, t.nanos))
      && (t.day > DaysIn(y, mo) ==> r.day == t.day - DaysIn(y, mo) && MonthIndex(r) == 12 * y + mo)
  {
  }

  /** Strict order on the month index decides the order of instants in different months. */
  lemma EarlierMonthIsBefore(t: Time, u: Time)
    requires Valid(t) && Valid(u)
    requires MonthIndex(t) < MonthIndex(u)
    ensures Before(t, u)
  {
  }

  /** Moving a positive number of months forward always gives a strictly later instant. */
  lemma AddDateIsLater(t: Time, years: int, months: int)
    requires Valid(t)
    requires 12 * years + months > 0
    ensures After(AddDate(t, years, months), t)
  {
    AddDateShift(t, years, months);
    EarlierMonthIsBefore(t, AddDate(t, years, months));
  }

  /** Adding more months gives a strictly later date, day overflow included. */
  lemma MoreMonthsIsLater(t: Time, fewer: int, more: int)
    requires Valid(t) && fewer < more
    ensures Before(AddDate(t, 0, fewer), AddDate(t, 0, more))
  {
    AddDateShift(t, 0, fewer);
    AddDateShift(t, 0, more);
    var a, b := AddDate(t, 0, fewer), AddDate(t, 0, more);
    if MonthIndex(a) < MonthIndex(b) {
      EarlierMonthIsBefore(a, b);
    }
  }

  /** `AddDate(1, 0, 0)` and `AddDate(0, 12, 0)` are the same date. */
  lemma YearIsTwelveMonths(t: Time)
    requires Valid(t)
    ensures AddDate(t, 1, 0) == AddDate(t, 0, 12)
  {
  }

  /** Go's day-overflow normalisation: October 31 plus one month is December 1. */
  lemma MonthEndRollsOver()
    ensures AddDate(Time(2023, 10, 31, 0), 0, 1) == Time(2023, 12, 1, 0)
    ensures AddDate(Time(2024, 2, 29, 0), 1, 0) == Time(2025, 3, 1, 0)
  {
  }

  /**
   * Adding a month is not monotone: a start on January 31 expires on March 3 (in a common
   * year) while a later start on February 1 expires on March 1.
   */
  lemma LaterStartCanExpireEarlier()
    ensures AddDate(Time(2023, 1, 31, 0), 0, 1) == Time(2023, 3, 3, 0)
    ensures AddDate(Time(2023, 2, 1, 0), 0, 1) == Time(2023, 3, 1, 0)
  {
  }
}
