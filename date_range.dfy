/**
 * Period resolution: `getDateRange` turns an optional month, quarter and
 * year into a closed interval [start, end] of local instants.
 */
module DateRanges {
  import opened Wrappers
  import opened Calendar

  /** The period a report asks for; `None` is an undefined or NaN parameter. */
  datatype Period = Period(month: Option<int>, quarter: Option<int>, year: Option<int>)

  /** A closed interval of instants, both bounds included. */
  datatype Range = Range(start: Instant, end: Instant)

  /** JavaScript truthiness of a number that may be undefined or NaN. */
  predicate Truthy(v: Option<int>) {
    v.Some? && v.value != 0
  }

  /** The `$gte start, $lte end` test. */
  predicate InRange(t: Instant, r: Range) {
    NotAfter(r.start, t) && NotAfter(t, r.end)
  }

  /** The normalised year of 0-based month index `k` of year `y`. */
  function YearOfIndex(y: int, k: int): int {
    FullYear(y) + k / 12
  }

  /** The normalised 1-based month of 0-based month index `k`. */
  function MonthOfIndex(k: int): (m: int)
    ensures 1 <= m <= 12
  {
    k % 12 + 1
  }

  /**
   * Month `m` (1-based) of year `y`. A month outside 1..12 is taken, like
   * JavaScript does, as a month of an earlier or later year.
   */
  function MonthRange(y: int, m: int): (r: Range)
    ensures r.start == FirstSecond(YearOfIndex(y, m - 1), MonthOfIndex(m - 1))
    ensures r.end == LastSecond(YearOfIndex(y, m - 1), MonthOfIndex(m - 1))
  {
    DayZeroIsLastDayOfPreviousMonth(FullYear(y), m);
    Range(NewDate(y, m - 1, 1, 0, 0, 0), NewDate(y, m, 0, 23, 59, 59))
  }

  /**
   * Quarter `q` of year `y`: three months from month index 3(q-1); for a
   * quarter outside 1..4 that block lies in an earlier or later year.
   */
  function QuarterRange(y: int, q: int): (r: Range)
    ensures MonthOfIndex((q - 1) * 3) in {1, 4, 7, 10}
    ensures r.start == FirstSecond(YearOfIndex(y, (q - 1) * 3), MonthOfIndex((q - 1) * 3))
    ensures r.end == LastSecond(YearOfIndex(y, (q - 1) * 3), MonthOfIndex((q - 1) * 3) + 2)
  {
    var startMonth := (q - 1) * 3;
    DayZeroIsLastDayOfPreviousMonth(FullYear(y), startMonth + 3);
    QuarterIndexStep(q);
    Range(NewDate(y, startMonth, 1, 0, 0, 0), NewDate(y, startMonth + 3, 0, 23, 59, 59))
  }

  /** The calendar year `y`. */
  function YearRange(y: int): (r: Range)
    ensures r.start == FirstSecond(FullYear(y), 1)
    ensures r.end == LastSecond(FullYear(y), 12)
  {
    Range(NewDate(y, 0, 1, 0, 0, 0), NewDate(y, 11, 31, 23, 59, 59))
  }

  /**
   * The fallback window when no year is given: from `now` with its month
   * set one back (`setMonth(getMonth() - 1)`, which keeps the day of month
   * and so runs on into the next month when that day does not exist) to `now`.
   */
  function TrailingMonth(now: Instant): (r: Range)
    requires now.Valid()
    ensures r.end == now
    ensures Before(r.start, now)
    ensures var (py, pm) := if now.month == 1 then (now.year - 1, 12) else (now.year, now.month - 1);
            if now.day <= DaysInMonth(py, pm) then r.start == now.(year := py, month := pm)
            else r.start == now.(day := now.day - DaysInMonth(py, pm))
  {
    Range(MakeDate(now.year, now.month - 2, now.day, now.hour, now.minute, now.second), now)
  }

  /** `getDateRange`: month before quarter before year before the fallback. */
  function DateRange(p: Period, now: Instant): (r: Range)
    requires now.Valid()
    ensures r.start.Valid() && r.end.Valid()
    ensures NotAfter(r.start, r.end)
  {
    if Truthy(p.year) && Truthy(p.month) then MonthRange(p.year.value, p.month.value)
    else if Truthy(p.year) && Truthy(p.quarter) then QuarterRange(p.year.value, p.quarter.value)
    else if Truthy(p.year) then YearRange(p.year.value)
    else TrailingMonth(now)
  }

  /** A month is selected whenever year and month are given; the quarter is then ignored. */
  lemma MonthTakesPrecedence(m: int, q: Option<int>, y: int, now: Instant)
    requires now.Valid() && y != 0 && m != 0
    ensures DateRange(Period(Some(m), q, Some(y)), now) == MonthRange(y, m)
    ensures 1 <= m <= 12 ==>
              DateRange(Period(Some(m), q, Some(y)), now)
              == Range(FirstSecond(FullYear(y), m), LastSecond(FullYear(y), m))
  {
  }

  /** A quarter in 1..4 spans months 3q-2 to 3q of the year. */
  lemma QuarterInterval(q: Option<int>, y: int, now: Instant, m: Option<int>)
    requires now.Valid() && y != 0 && !Truthy(m) && Truthy(q)
    ensures DateRange(Period(m, q, Some(y)), now) == QuarterRange(y, q.value)
    ensures 1 <= q.value <= 4 ==>
              DateRange(Period(m, q, Some(y)), now)
              == Range(FirstSecond(FullYear(y), 3 * q.value - 2), LastSecond(FullYear(y), 3 * q.value))
  {
  }

  /** With only a year, the interval is Jan 1 00:00:00 to Dec 31 23:59:59. */
  lemma YearInterval(m: Option<int>, q: Option<int>, y: int, now: Instant)
    requires now.Valid() && y != 0 && !Truthy(m) && !Truthy(q)
    ensures DateRange(Period(m, q, Some(y)), now) == YearRange(y)
    ensures DateRange(Period(m, q, Some(y)), now)
            == Range(Instant(FullYear(y), 1, 1, 0, 0, 0), Instant(FullYear(y), 12, 31, 23, 59, 59))
  {
  }

  /**
   * Without a year the month and quarter are ignored and the interval is the
   * trailing month: it ends at `now` and starts one calendar month earlier.
   */
  lemma FallbackInterval(p: Period, now: Instant)
    requires now.Valid() && !Truthy(p.year)
    ensures DateRange(p, now) == TrailingMonth(now)
    ensures DateRange(p, now).end == now && Before(DateRange(p, now).start, now)
  {
  }

  /** A valid instant lies in the month range of exactly its own month. */
  lemma MonthRangeContains(t: Instant, y: int, m: int)
    requires t.Valid()
    ensures InRange(t, MonthRange(y, m)) <==> t.year == YearOfIndex(y, m - 1) && t.month == MonthOfIndex(m - 1)
  {
  }

  /** A valid instant lies in a quarter's range exactly when its month is one of the quarter's three. */
  lemma QuarterRangeContains(t: Instant, y: int, q: int)
    requires t.Valid()
    ensures InRange(t, QuarterRange(y, q)) <==>
              && t.year == YearOfIndex(y, (q - 1) * 3)
              && MonthOfIndex((q - 1) * 3) <= t.month <= MonthOfIndex((q - 1) * 3) + 2
  {
  }

  /** A valid instant lies in a year's range exactly when it falls in that (full) year. */
  lemma YearRangeContains(t: Instant, y: int)
    requires t.Valid()
    ensures InRange(t, YearRange(y)) <==> t.year == FullYear(y)
  {
  }

  /**
   * A valid instant lies in quarter q exactly when it lies in one of months
   * 3q-2, 3q-1 and 3q, and it lies in at most one of them.
   */
  lemma QuarterIsItsThreeMonths(t: Instant, y: int, q: int)
    requires t.Valid()
    ensures InRange(t, QuarterRange(y, q)) <==>
              InRange(t, MonthRange(y, 3 * q - 2)) || InRange(t, MonthRange(y, 3 * q - 1)) || InRange(t, MonthRange(y, 3 * q))
    ensures !(InRange(t, MonthRange(y, 3 * q - 2)) && InRange(t, MonthRange(y, 3 * q - 1)))
    ensures !(InRange(t, MonthRange(y, 3 * q - 2)) && InRange(t, MonthRange(y, 3 * q)))
    ensures !(InRange(t, MonthRange(y, 3 * q - 1)) && InRange(t, MonthRange(y, 3 * q)))
  {
    QuarterIndexStep(q);
    QuarterRangeContains(t, y, q);
    MonthRangeContains(t, y, 3 * q - 2);
    MonthRangeContains(t, y, 3 * q - 1);
    MonthRangeContains(t, y, 3 * q);
  }

  /** Consecutive months are adjacent: the next month starts one second after this one ends. */
  lemma MonthsAdjacent(y: int, m: int)
    ensures Tick(MonthRange(y, m).end) == MonthRange(y, m + 1).start
  {
    MonthIndexStep(m - 1);
  }

  /** Consecutive quarters are adjacent. */
  lemma QuartersAdjacent(y: int, q: int)
    ensures Tick(QuarterRange(y, q).end) == QuarterRange(y, q + 1).start
  {
    MonthIndexStep((q - 1) * 3 + 2);
  }

  /**
   * A year is followed, one second later, by January 1 of the next full
   * year; that is the next year's range except across 99/100 and -1/0,
   * where the two-digit-year mapping breaks the sequence.
   */
  lemma YearsAdjacent(y: int)
    ensures Tick(YearRange(y).end) == FirstSecond(FullYear(y) + 1, 1)
    ensures y != -1 && y != 99 ==> Tick(YearRange(y).end) == YearRange(y + 1).start
  {
  }

  /** Quarter q begins with month 3q-2 and ends with month 3q; months 1 and 12 bound the year. */
  lemma QuartersAndMonthsTileTheYear(y: int, q: int)
    ensures QuarterRange(y, q).start == MonthRange(y, 3 * q - 2).start
    ensures QuarterRange(y, q).end == MonthRange(y, 3 * q).end
    ensures MonthRange(y, 1).start == QuarterRange(y, 1).start == YearRange(y).start
    ensures MonthRange(y, 12).end == QuarterRange(y, 4).end == YearRange(y).end
  {
  }

  /** The months of a year come in chronological order, without overlap. */
  lemma MonthsInOrder(y: int, m1: int, m2: int)
    requires 1 <= m1 < m2 <= 12
    ensures Before(MonthRange(y, m1).end, MonthRange(y, m2).start)
  {
  }

  /** Leap Februaries end on the 29th, other Februaries on the 28th. */
  lemma FebruaryExamples()
    ensures MonthRange(2024, 2).end == Instant(2024, 2, 29, 23, 59, 59)
    ensures MonthRange(2023, 2).end == Instant(2023, 2, 28, 23, 59, 59)
    ensures MonthRange(1900, 2).end == Instant(1900, 2, 28, 23, 59, 59)
    ensures MonthRange(2000, 2).end == Instant(2000, 2, 29, 23, 59, 59)
  {
    assert IsLeapYear(2024) && !IsLeapYear(2023) && !IsLeapYear(1900) && IsLeapYear(2000);
  }

  /** Two-digit years mean 19yy; month 13 and quarter 5 fall in the next year. */
  lemma OverflowExamples()
    ensures MonthRange(24, 2).start == Instant(1924, 2, 1, 0, 0, 0)
    ensures MonthRange(2025, 13).start == Instant(2026, 1, 1, 0, 0, 0)
    ensures QuarterRange(2025, 5).end == Instant(2026, 3, 31, 23, 59, 59)
  {
  }

  /** The fallback from March 31 starts on March 3; from January 15 on December 15. */
  lemma TrailingMonthExamples()
    ensures TrailingMonth(Instant(2025, 3, 31, 12, 0, 0)).start == Instant(2025, 3, 3, 12, 0, 0)
    ensures TrailingMonth(Instant(2025, 1, 15, 9, 30, 0)).start == Instant(2024, 12, 15, 9, 30, 0)
  {
  }
}
