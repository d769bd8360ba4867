/** The part of `java.time.LocalDate` the release-date floor relies on: an
    ISO proleptic calendar date and `isBefore`, which compares year, then
    month, then day. `EpochDay` counts days from 1970-01-01 independently of
    that comparison, and `IsBeforeIffEarlierEpochDay` proves the two orders
    agree on every calendar date. */
module Dates {

  const MIN_YEAR: int := -999_999_999
  const MAX_YEAR: int := 999_999_999

  /** Days from 0000-01-01 to 1970-01-01. */
  const DAYS_0000_TO_1970: int := 719528

  datatype Date = Date(year: int, month: int, day: int)

  predicate IsLeap(year: int) {
    year % 4 == 0 && (year % 100 != 0 || year % 400 == 0)
  }

  function MonthLength(month: int, leap: bool): (n: int)
    requires 1 <= month <= 12
    ensures 28 <= n <= 31
    ensures month == 2 ==> n == if leap then 29 else 28
  {
    if month == 2 then (if leap then 29 else 28)
    else if month == 4 || month == 6 || month == 9 || month == 11 then 30
    else 31
  }

  function YearLength(year: int): int {
    if IsLeap(year) then 366 else 365
  }

  /** A date `LocalDate.of` accepts. */
  predicate IsCalendarDate(d: Date) {
    && MIN_YEAR <= d.year <= MAX_YEAR
    && 1 <= d.month <= 12
    && 1 <= d.day <= MonthLength(d.month, IsLeap(d.year))
  }

  type LocalDate = d: Date | IsCalendarDate(d) witness Date(1970, 1, 1)

  /** `a.isBefore(b)`: lexicographic on (year, month, day). */
  predicate IsBefore(a: Date, b: Date) {
    a.year < b.year
    || (a.year == b.year && a.month < b.month)
    || (a.year == b.year && a.month == b.month && a.day < b.day)
  }

  /** Days from 0000-01-01 to January 1st of `year`: 365 per year plus one
      per leap year in between (negative for years before 0). */
  function DaysBeforeYear(year: int): int {
    365 * year + (year + 3) / 4 - (year + 99) / 100 + (year + 399) / 400
  }

  /** Days from January 1st to the first of `month`. */
  function DaysBeforeMonth(month: int, leap: bool): (n: int)
    requires 1 <= month <= 12
    ensures month == 1 ==> n == 0
  {
    var feb := if leap then 29 else 28;
    match month
    case 1 => 0
    case 2 => 31
    case 3 => 31 + feb
    case 4 => 62 + feb
    case 5 => 92 + feb
    case 6 => 123 + feb
    case 7 => 153 + feb
    case 8 => 184 + feb
    case 9 => 215 + feb
    case 10 => 245 + feb
    case 11 => 276 + feb
    case _ => 306 + feb
  }

  /** Zero-based position of a date within its year. */
  function DayOfYear(d: LocalDate): (n: int)
    ensures 0 <= n < YearLength(d.year)
  {
    DaysBeforeMonthBound(d.month, IsLeap(d.year));
    DaysBeforeMonth(d.month, IsLeap(d.year)) + d.day - 1
  }

  /** `toEpochDay`: days since 1970-01-01. */
  function EpochDay(d: LocalDate): int {
    DaysBeforeYear(d.year) + DayOfYear(d) - DAYS_0000_TO_1970
  }

  lemma DaysBeforeMonthBound(month: int, leap: bool)
    requires 1 <= month <= 12
    ensures DaysBeforeMonth(month, leap) + MonthLength(month, leap) <= if leap then 366 else 365
  {
  }

  /** Each year contributes exactly its length in days. */
  lemma DaysBeforeNextYear(year: int)
    ensures DaysBeforeYear(year + 1) == DaysBeforeYear(year) + YearLength(year)
  {
    assert (year + 4) / 4 == (year + 3) / 4 + (if year % 4 == 0 then 1 else 0);
    assert (year + 100) / 100 == (year + 99) / 100 + (if year % 100 == 0 then 1 else 0);
    assert (year + 400) / 400 == (year + 399) / 400 + (if year % 400 == 0 then 1 else 0);
  }

  /** Everything in years before `later` lies before its first day. */
  lemma DaysBeforeYearMonotone(earlier: int, later: int)
    requires earlier < later
    ensures DaysBeforeYear(earlier) + YearLength(earlier) <= DaysBeforeYear(later)
  {
    DaysBeforeNextYear(earlier);
  }

  /** Every day of an earlier month comes before the first of a later one. */
  lemma DaysBeforeMonthMonotone(earlier: int, later: int, leap: bool)
    requires 1 <= earlier < later <= 12
    ensures DaysBeforeMonth(earlier, leap) + MonthLength(earlier, leap) <= DaysBeforeMonth(later, leap)
  {
  }

  /** `isBefore` and the epoch-day count order calendar dates identically. */
  lemma IsBeforeIffEarlierEpochDay(a: LocalDate, b: LocalDate)
    ensures IsBefore(a, b) <==> EpochDay(a) < EpochDay(b)
  {
    if a.year < b.year {
      DaysBeforeYearMonotone(a.year, b.year);
    } else if b.year < a.year {
      DaysBeforeYearMonotone(b.year, a.year);
    } else if a.month < b.month {
      DaysBeforeMonthMonotone(a.month, b.month, IsLeap(a.year));
    } else if b.month < a.month {
      DaysBeforeMonthMonotone(b.month, a.month, IsLeap(a.year));
    }
  }

  /** Distinct calendar dates have distinct epoch days. */
  lemma EpochDayInjective(a: LocalDate, b: LocalDate)
    ensures EpochDay(a) == EpochDay(b) <==> a == b
  {
    IsBeforeIffEarlierEpochDay(a, b);
    IsBeforeIffEarlierEpochDay(b, a);
  }

  /** `isBefore` is a strict total order on dates. */
  lemma IsBeforeStrictTotalOrder(a: Date, b: Date, c: Date)
    ensures !IsBefore(a, a)
    ensures IsBefore(a, b) ==> !IsBefore(b, a)
    ensures IsBefore(a, b) && IsBefore(b, c) ==> IsBefore(a, c)
    ensures a != b ==> IsBefore(a, b) || IsBefore(b, a)
  {
  }

  lemma UnixEpochIsDayZero()
    ensures EpochDay(Date(1970, 1, 1)) == 0
  {
  }
}
