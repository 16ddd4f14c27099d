/**
 * Civil calendar arithmetic in the way JavaScript's `Date` performs it in
 * local time: the Gregorian leap-year rule, the `new Date(y, monthIndex, day,
 * h, m, s)` constructor with its normalisation of out-of-range month indices
 * and days (day 0 is the last day of the previous month), and the mapping of
 * the years 0..99 to 1900..1999.
 */
module Calendar {

  /** Gregorian leap years (proleptic, astronomical year numbering). */
  predicate IsLeapYear(y: int) {
    y % 4 == 0 && (y % 100 != 0 || y % 400 == 0)
  }

  function DaysInMonth(y: int, m: int): (n: int)
    requires 1 <= m <= 12
    ensures 28 <= n <= 31
  {
    if m == 2 then (if IsLeapYear(y) then 29 else 28)
    else if m == 4 || m == 6 || m == 9 || m == 11 then 30
    else 31
  }

  /** A local date-time with a 1-based month, to the second. */
  datatype Instant = Instant(year: int, month: int, day: int, hour: int, minute: int, second: int) {
    predicate Valid() {
      && 1 <= month <= 12
      && 1 <= day <= DaysInMonth(year, month)
      && 0 <= hour < 24
      && 0 <= minute < 60
      && 0 <= second < 60
    }
  }

  /** Chronological order on instants: `a` is not later than `b`. */
  predicate NotAfter(a: Instant, b: Instant) {
    if a.year != b.year then a.year < b.year
    else if a.month != b.month then a.month < b.month
    else if a.day != b.day then a.day < b.day
    else if a.hour != b.hour then a.hour < b.hour
    else if a.minute != b.minute then a.minute < b.minute
    else a.second <= b.second
  }

  /** `a` is strictly earlier than `b`. */
  predicate Before(a: Instant, b: Instant) {
    !NotAfter(b, a)
  }

  /** Midnight at the start of day 1 of month `m`. */
  function FirstSecond(y: int, m: int): Instant {
    Instant(y, m, 1, 0, 0, 0)
  }

  /** 23:59:59 on the last day of month `m`. */
  function LastSecond(y: int, m: int): Instant
    requires 1 <= m <= 12
  {
    Instant(y, m, DaysInMonth(y, m), 23, 59, 59)
  }

  /** The year `new Date(y, ...)` means: two-digit years are taken as 19yy. */
  function FullYear(y: int): int
  {
    if 0 <= y <= 99 then 1900 + y else y
  }

  /**
   * The instant of day `date` of the month with 0-based index `monthIndex`
   * counted from January of year `y`, at h:mi:s. A month index outside 0..11
   * moves into an earlier or later year; day 0 is the last day of the month
   * before; a day past the end of its month runs on into the next month.
   */
  function MakeDate(y: int, monthIndex: int, date: int, h: int, mi: int, s: int): (t: Instant)
    requires 0 <= date <= 31 && 0 <= h < 24 && 0 <= mi < 60 && 0 <= s < 60
    ensures t.Valid()
    ensures t.hour == h && t.minute == mi && t.second == s
    ensures 1 <= date <= DaysInMonth(y + monthIndex / 12, monthIndex % 12 + 1) ==>
              t == Instant(y + monthIndex / 12, monthIndex % 12 + 1, date, h, mi, s)
  {
    var year := y + monthIndex / 12;
    var month := monthIndex % 12 + 1;
    if date == 0 then
      if month == 1 then Instant(year - 1, 12, 31, h, mi, s)
      else Instant(year, month - 1, DaysInMonth(year, month - 1), h, mi, s)
    else if date <= DaysInMonth(year, month) then
      Instant(year, month, date, h, mi, s)
    else
      Instant(year, month + 1, date - DaysInMonth(year, month), h, mi, s)
  }

  /** `new Date(y, monthIndex, date, h, mi, s)`. */
  function NewDate(y: int, monthIndex: int, date: int, h: int, mi: int, s: int): (t: Instant)
    requires 0 <= date <= 31 && 0 <= h < 24 && 0 <= mi < 60 && 0 <= s < 60
    ensures t.Valid()
  {
    MakeDate(FullYear(y), monthIndex, date, h, mi, s)
  }

  /**
   * `new Date` reads a year in 0..99 as 19yy, carries the month index into
   * the year, keeps the time of day, and gives exactly the requested day
   * whenever that day exists in the resulting month.
   */
  lemma NewDateOfExistingDay(y: int, monthIndex: int, date: int, h: int, mi: int, s: int)
    requires 0 <= date <= 31 && 0 <= h < 24 && 0 <= mi < 60 && 0 <= s < 60
    ensures var t := NewDate(y, monthIndex, date, h, mi, s);
            var year := (if 0 <= y <= 99 then 1900 + y else y) + monthIndex / 12;
            && t.hour == h && t.minute == mi && t.second == s
            && (1 <= date <= DaysInMonth(year, monthIndex % 12 + 1) ==>
                  t == Instant(year, monthIndex % 12 + 1, date, h, mi, s))
  {
  }

  /** The instant one second after `t`. */
  function Tick(t: Instant): (u: Instant)
    requires t.Valid()
    ensures u.Valid()
  {
    if t.second < 59 then t.(second := t.second + 1)
    else if t.minute < 59 then t.(minute := t.minute + 1, second := 0)
    else if t.hour < 23 then t.(hour := t.hour + 1, minute := 0, second := 0)
    else if t.day < DaysInMonth(t.year, t.month) then Instant(t.year, t.month, t.day + 1, 0, 0, 0)
    else if t.month < 12 then FirstSecond(t.year, t.month + 1)
    else FirstSecond(t.year + 1, 1)
  }

  /** `Tick(t)` is the next valid instant after `t`: nothing valid lies strictly between. */
  lemma TickIsNextInstant(t: Instant, u: Instant)
    requires t.Valid() && u.Valid()
    ensures Before(t, Tick(t))
    ensures Before(t, u) ==> NotAfter(Tick(t), u)
  {
  }

  /** Stepping a month index by one, in terms of its year offset and 1-based month. */
  lemma MonthIndexStep(k: int)
    ensures (k + 1) / 12 == (if k % 12 == 11 then k / 12 + 1 else k / 12)
    ensures (k + 1) % 12 == (if k % 12 == 11 then 0 else k % 12 + 1)
  {
  }

  /** The first month index of a quarter block and the two after it share one year. */
  lemma QuarterIndexStep(q: int)
    ensures ((q - 1) * 3) % 12 in {0, 3, 6, 9}
    ensures ((q - 1) * 3 + 1) / 12 == ((q - 1) * 3) / 12
    ensures ((q - 1) * 3 + 1) % 12 == ((q - 1) * 3) % 12 + 1
    ensures ((q - 1) * 3 + 2) / 12 == ((q - 1) * 3) / 12
    ensures ((q - 1) * 3 + 2) % 12 == ((q - 1) * 3) % 12 + 2
  {
    var k := (q - 1) * 3;
    var a, b := k / 12, k % 12;
    assert k == 12 * a + b && 0 <= b < 12;
    assert b == 3 * (q - 1 - 4 * a);
    DivModOfTwelve(k + 1, a, b + 1);
    DivModOfTwelve(k + 2, a, b + 2);
  }

  /** Division by 12 is determined by quotient and remainder. */
  lemma DivModOfTwelve(n: int, a: int, b: int)
    requires n == 12 * a + b && 0 <= b < 12
    ensures n / 12 == a && n % 12 == b
  {
  }

  /**
   * The day-0 idiom: 23:59:59 on day 0 of month index `k` is the last second
   * of the month before index `k`, and the next second is day 1 of index `k`.
   */
  lemma DayZeroIsLastDayOfPreviousMonth(y: int, k: int)
    ensures MakeDate(y, k, 0, 23, 59, 59) == LastSecond(y + (k - 1) / 12, (k - 1) % 12 + 1)
    ensures Tick(MakeDate(y, k, 0, 23, 59, 59)) == MakeDate(y, k, 1, 0, 0, 0)
  {
    MonthIndexStep(k - 1);
  }
}
