/**
 * Proleptic Gregorian dates and naive datetimes of years 1..9999, as Python's `date`
 * and `datetime` hold them: compared field by field, stepped by one day or one month,
 * and formatted with `strftime`.
 */
module Dates {
  import opened Outcomes
  import opened Decimal

  const MinYear := 1
  const MaxYear := 9999
  const MicrosPerDay := 86_400_000_000
  const MicrosPerHour := 3_600_000_000
  const MicrosPerMinute := 60_000_000

  datatype Date = Date(year: int, month: int, day: int)

  /** A naive datetime: a date and the microseconds elapsed since its midnight. */
  datatype DateTime = DateTime(date: Date, micros: int)

  predicate IsLeapYear(y: int) { y % 4 == 0 && (y % 100 != 0 || y % 400 == 0) }

  function DaysInMonth(y: int, m: int): (n: int)
    requires 1 <= m <= 12
    ensures 28 <= n <= 31
  {
    if m == 2 then (if IsLeapYear(y) then 29 else 28)
    else if m == 4 || m == 6 || m == 9 || m == 11 then 30
    else 31
  }

  function DaysInYear(y: int): int { if IsLeapYear(y) then 366 else 365 }

  predicate ValidDate(d: Date)
  {
    MinYear <= d.year <= MaxYear && 1 <= d.month <= 12 && 1 <= d.day <= DaysInMonth(d.year, d.month)
  }

  predicate ValidDateTime(t: DateTime) { ValidDate(t.date) && 0 <= t.micros < MicrosPerDay }

  /** `date(y, m, d)`, which raises ValueError unless the fields name a real day. */
  function MakeDate(y: int, m: int, d: int): Result<Date>
  {
    if ValidDate(Date(y, m, d)) then Ok(Date(y, m, d)) else Err(InvalidDate)
  }

  const FirstDate := Date(MinYear, 1, 1)
  const LastDate := Date(MaxYear, 12, 31)

  /** `a < b` on dates. */
  predicate DateBefore(a: Date, b: Date)
  {
    a.year < b.year || (a.year == b.year && (a.month < b.month || (a.month == b.month && a.day < b.day)))
  }

  /** `a < b` on datetimes. */
  predicate Before(a: DateTime, b: DateTime)
  {
    DateBefore(a.date, b.date) || (a.date == b.date && a.micros < b.micros)
  }

  /** `<` on datetimes is a strict order; so `<=` (not `>`) is transitive. */
  lemma BeforeIsStrictOrder(a: DateTime, b: DateTime, c: DateTime)
    ensures !Before(a, a)
    ensures Before(a, b) ==> !Before(b, a)
    ensures Before(a, b) && Before(b, c) ==> Before(a, c)
    ensures !Before(b, a) && !Before(c, b) ==> !Before(c, a)
  {
  }

  /** A date used where a datetime is compared: midnight at its start. */
  function Midnight(d: Date): DateTime { DateTime(d, 0) }

  // ---------------------------------------------------------------------------
  // Day ordinals (`date.toordinal()`): 1 January of year 1 is day 1.

  function DaysBeforeYear(y: int): int
    requires y >= MinYear
    decreases y
  {
    if y == MinYear then 0 else DaysBeforeYear(y - 1) + DaysInYear(y - 1)
  }

  function DaysBeforeMonth(y: int, m: int): int
    requires 1 <= m <= 12
  {
    [0, 31, 59, 90, 120, 151, 181, 212, 243, 273, 304, 334][m - 1] + (if m > 2 && IsLeapYear(y) then 1 else 0)
  }

  function Ordinal(d: Date): int
    requires ValidDate(d)
  {
    DaysBeforeYear(d.year) + DaysBeforeMonth(d.year, d.month) + d.day
  }

  lemma {:induction false} DaysBeforeYearGrows(a: int, b: int)
    requires MinYear <= a < b
    ensures DaysBeforeYear(a) + DaysInYear(a) <= DaysBeforeYear(b)
    decreases b - a
  {
    if a + 1 < b {
      DaysBeforeYearGrows(a, b - 1);
    }
  }

  lemma DaysBeforeMonthGrows(y: int, m: int, n: int)
    requires 1 <= m < n <= 12
    ensures DaysBeforeMonth(y, m) + DaysInMonth(y, m) <= DaysBeforeMonth(y, n)
  {
  }

  lemma DayWithinYear(y: int, m: int, d: int)
    requires 1 <= m <= 12 && d <= DaysInMonth(y, m)
    ensures DaysBeforeMonth(y, m) + d <= DaysInYear(y)
  {
  }

  lemma OrdinalMonotone(a: Date, b: Date)
    requires ValidDate(a) && ValidDate(b) && DateBefore(a, b)
    ensures Ordinal(a) < Ordinal(b)
  {
    if a.year < b.year {
      DayWithinYear(a.year, a.month, a.day);
      DaysBeforeYearGrows(a.year, b.year);
    } else if a.month < b.month {
      DaysBeforeMonthGrows(a.year, a.month, b.month);
    }
  }

  /** Ordinals number the valid dates in calendar order, one number per date. */
  lemma OrdinalOrder(a: Date, b: Date)
    requires ValidDate(a) && ValidDate(b)
    ensures DateBefore(a, b) <==> Ordinal(a) < Ordinal(b)
    ensures a == b <==> Ordinal(a) == Ordinal(b)
  {
    if DateBefore(a, b) {
      OrdinalMonotone(a, b);
    } else if DateBefore(b, a) {
      OrdinalMonotone(b, a);
    }
  }

  // ---------------------------------------------------------------------------
  // Stepping by one day (`d + relativedelta(days=1)`, `d - relativedelta(days=1)`).

  /** The day after `d`; Python raises OverflowError for the day after `LastDate`. */
  function NextDay(d: Date): (n: Date)
    requires ValidDate(d) && d != LastDate
    ensures ValidDate(n) && DateBefore(d, n)
  {
    if d.day < DaysInMonth(d.year, d.month) then Date(d.year, d.month, d.day + 1)
    else if d.month < 12 then Date(d.year, d.month + 1, 1)
    else Date(d.year + 1, 1, 1)
  }

  /** The day before `d`; Python raises OverflowError for the day before `FirstDate`. */
  function PrevDay(d: Date): (p: Date)
    requires ValidDate(d) && d != FirstDate
    ensures ValidDate(p) && p != LastDate && NextDay(p) == d
  {
    if d.day > 1 then Date(d.year, d.month, d.day - 1)
    else if d.month > 1 then Date(d.year, d.month - 1, DaysInMonth(d.year, d.month - 1))
    else Date(d.year - 1, 12, 31)
  }

  /** The day after `d` is one ordinal further on. */
  lemma NextDayOrdinal(d: Date)
    requires ValidDate(d) && d != LastDate
    ensures Ordinal(NextDay(d)) == Ordinal(d) + 1
  {
    if d.day == DaysInMonth(d.year, d.month) && d.month == 12 {
      assert DaysBeforeYear(d.year + 1) == DaysBeforeYear(d.year) + DaysInYear(d.year);
    }
  }

  /** No date lies strictly between a day and the next: `x < d + 1 day` iff `x <= d`. */
  lemma BeforeNextDay(d: Date, x: Date)
    requires ValidDate(d) && d != LastDate && ValidDate(x)
    ensures DateBefore(x, NextDay(d)) <==> !DateBefore(d, x)
  {
    NextDayOrdinal(d);
    OrdinalOrder(x, NextDay(d));
    OrdinalOrder(d, x);
  }

  // ---------------------------------------------------------------------------
  // Stepping by one month from the 1st (`relativedelta(months=-1)`, `relativedelta(months=+1)`).

  /** (year, month) one month earlier, rolling January back to December of the previous year. */
  function PrevMonth(y: int, m: int): (p: (int, int))
    requires 1 <= m <= 12
    ensures 1 <= p.1 <= 12
  {
    if m == 1 then (y - 1, 12) else (y, m - 1)
  }

  /** (year, month) one month later, rolling December over to January of the next year. */
  function NextMonth(y: int, m: int): (n: (int, int))
    requires 1 <= m <= 12
    ensures 1 <= n.1 <= 12
  {
    if m == 12 then (y + 1, 1) else (y, m + 1)
  }

  lemma MonthStepsInverse(y: int, m: int)
    requires 1 <= m <= 12
    ensures NextMonth(PrevMonth(y, m).0, PrevMonth(y, m).1) == (y, m)
    ensures PrevMonth(NextMonth(y, m).0, NextMonth(y, m).1) == (y, m)
  {
  }

  function FirstOfMonth(ym: (int, int)): Date { Date(ym.0, ym.1, 1) }

  /** From the 1st of a month to the 1st of the next is exactly the length of that month. */
  lemma MonthSpan(y: int, m: int)
    requires ValidDate(Date(y, m, 1)) && ValidDate(FirstOfMonth(NextMonth(y, m)))
    ensures Ordinal(FirstOfMonth(NextMonth(y, m))) == Ordinal(Date(y, m, 1)) + DaysInMonth(y, m)
  {
    if m == 12 {
      assert DaysBeforeYear(y + 1) == DaysBeforeYear(y) + DaysInYear(y);
    }
  }

  /** The 1st of the previous month lies exactly the length of that month before the 1st of this one. */
  lemma PrevMonthSpan(y: int, m: int)
    requires ValidDate(Date(y, m, 1)) && ValidDate(FirstOfMonth(PrevMonth(y, m)))
    ensures Ordinal(Date(y, m, 1)) == Ordinal(FirstOfMonth(PrevMonth(y, m))) + DaysInMonth(PrevMonth(y, m).0, PrevMonth(y, m).1)
  {
    var p := PrevMonth(y, m);
    MonthStepsInverse(y, m);
    MonthSpan(p.0, p.1);
  }

  /** The half-open range [1st of the month, 1st of the next month) holds exactly the days of that month. */
  lemma InMonthRange(d: Date, y: int, m: int)
    requires ValidDate(d) && 1 <= m <= 12
    ensures (!DateBefore(d, Date(y, m, 1)) && DateBefore(d, FirstOfMonth(NextMonth(y, m)))) <==> (d.year == y && d.month == m)
  {
  }

  // ---------------------------------------------------------------------------
  // `strftime` conversions.

  /** `t.strftime('%H:%M')`. */
  function Clock(t: DateTime): string
    requires 0 <= t.micros < MicrosPerDay
  {
    ZeroPad(t.micros / MicrosPerHour, 2) + ":" + ZeroPad(t.micros / MicrosPerMinute % 60, 2)
  }

  /** `%H:%M` is five characters, two-digit hour and minute that read back as the time's hour and minute. */
  lemma ClockShape(t: DateTime)
    requires 0 <= t.micros < MicrosPerDay
    ensures |Clock(t)| == 5 && Clock(t)[2] == ':'
    ensures AllDigits(Clock(t)[..2]) && Value(Clock(t)[..2]) == t.micros / MicrosPerHour < 24
    ensures AllDigits(Clock(t)[3..]) && Value(Clock(t)[3..]) == t.micros / MicrosPerMinute % 60
  {
    var h, mi := t.micros / MicrosPerHour, t.micros / MicrosPerMinute % 60;
    assert Pow10(2) == 100;
    ZeroPadWidth(h, 2);
    ZeroPadWidth(mi, 2);
    ZeroPadRoundTrip(h, 2);
    ZeroPadRoundTrip(mi, 2);
    assert Clock(t)[..2] == ZeroPad(h, 2);
    assert Clock(t)[3..] == ZeroPad(mi, 2);
  }

  /** `d.strftime('%Y-%m-%d')`. */
  function IsoDate(d: Date): string
    requires ValidDate(d)
  {
    ZeroPad(d.year, 4) + "-" + ZeroPad(d.month, 2) + "-" + ZeroPad(d.day, 2)
  }

  /** `%Y-%m-%d` is ten characters whose three digit groups read back as year, month and day. */
  lemma IsoDateShape(d: Date)
    requires ValidDate(d)
    ensures |IsoDate(d)| == 10 && IsoDate(d)[4] == '-' && IsoDate(d)[7] == '-'
    ensures AllDigits(IsoDate(d)[..4]) && Value(IsoDate(d)[..4]) == d.year
    ensures AllDigits(IsoDate(d)[5..7]) && Value(IsoDate(d)[5..7]) == d.month
    ensures AllDigits(IsoDate(d)[8..]) && Value(IsoDate(d)[8..]) == d.day
  {
    assert Pow10(2) == 100 && Pow10(4) == 10000;
    ZeroPadWidth(d.year, 4);
    ZeroPadWidth(d.month, 2);
    ZeroPadWidth(d.day, 2);
    ZeroPadRoundTrip(d.year, 4);
    ZeroPadRoundTrip(d.month, 2);
    ZeroPadRoundTrip(d.day, 2);
    var s := IsoDate(d);
    assert s[..4] == ZeroPad(d.year, 4);
    assert s[5..7] == ZeroPad(d.month, 2);
    assert s[8..] == ZeroPad(d.day, 2);
  }
}
