/** Proleptic Gregorian UTC calendar arithmetic on integers: the time-dimension
    fields (hour, day, ISO week, month, year, day of week) that a log event's
    epoch-millisecond timestamp is broken into. Days are counted from
    1970-01-01 (day 0); every integer is a day, negative ones before 1970.

    The functions here only compute; what they compute is stated by the lemmas
    beside them, so that callers pay for the arithmetic only where they ask. */
module Calendar {

  /** Days from 0001-01-01 to 1970-01-01. */
  const EpochOrdinal := 719162

  datatype Date = Date(year: int, month: int, day: int)

  datatype DateTime = DateTime(date: Date, hour: int, minute: int, second: int, millisecond: int)

  /** A point in time, held as milliseconds since 1970-01-01T00:00:00 UTC;
      FromEpochMs gives its UTC calendar reading. */
  datatype Timestamp = Timestamp(epochMs: int)

  datatype IsoWeekDate = IsoWeekDate(isoYear: int, week: int)

  predicate IsLeapYear(y: int) {
    y % 4 == 0 && (y % 100 != 0 || y % 400 == 0)
  }

  function DaysInYear(y: int): int {
    if IsLeapYear(y) then 366 else 365
  }

  function DaysInMonth(y: int, m: int): int
    requires 1 <= m <= 12
  {
    if m == 2 then (if IsLeapYear(y) then 29 else 28)
    else if m == 4 || m == 6 || m == 9 || m == 11 then 30
    else 31
  }

  predicate ValidDate(d: Date) {
    1 <= d.month <= 12 && 1 <= d.day <= DaysInMonth(d.year, d.month)
  }

  predicate ValidDateTime(t: DateTime) {
    ValidDate(t.date) && 0 <= t.hour < 24 && 0 <= t.minute < 60 &&
    0 <= t.second < 60 && 0 <= t.millisecond < 1000
  }

  // ------------------------------------------------- the reference: date -> day

  /** Days from 0001-01-01 to January 1 of year y (negative before year 1). */
  function DaysBeforeYear(y: int): int {
    var p := y - 1;
    365 * p + p / 4 - p / 100 + p / 400
  }

  /** Days from January 1 to the first of month m in year y (m = 13: the whole year). */
  function DaysBeforeMonth(y: int, m: int): int
    requires 1 <= m <= 13
  {
    var common :=
      if m == 1 then 0 else if m == 2 then 31 else if m == 3 then 59
      else if m == 4 then 90 else if m == 5 then 120 else if m == 6 then 151
      else if m == 7 then 181 else if m == 8 then 212 else if m == 9 then 243
      else if m == 10 then 273 else if m == 11 then 304 else if m == 12 then 334
      else 365;
    if m > 2 && IsLeapYear(y) then common + 1 else common
  }

  /** The day number of a calendar date. */
  function DaysFromCivil(d: Date): int
    requires 1 <= d.month <= 12
  {
    DaysBeforeYear(d.year) + DaysBeforeMonth(d.year, d.month) + d.day - 1 - EpochOrdinal
  }

  /** Consecutive years start DaysInYear apart. */
  lemma YearStep(y: int)
    ensures DaysBeforeYear(y + 1) == DaysBeforeYear(y) + DaysInYear(y)
  {
    var p := y - 1;
    assert y / 4 == p / 4 + (if y % 4 == 0 then 1 else 0);
    assert y / 100 == p / 100 + (if y % 100 == 0 then 1 else 0);
    assert y / 400 == p / 400 + (if y % 400 == 0 then 1 else 0);
  }

  lemma MonthStep(y: int, m: int)
    requires 1 <= m <= 12
    ensures DaysBeforeMonth(y, m + 1) == DaysBeforeMonth(y, m) + DaysInMonth(y, m)
  {
  }

  lemma {:induction false} YearsMonotone(a: int, b: int)
    requires a <= b
    ensures DaysBeforeYear(a) <= DaysBeforeYear(b)
    decreases b - a
  {
    if a < b {
      YearStep(a);
      YearsMonotone(a + 1, b);
    }
  }

  lemma {:induction false} MonthsMonotone(y: int, a: int, b: int)
    requires 1 <= a <= b <= 13
    ensures DaysBeforeMonth(y, a) <= DaysBeforeMonth(y, b)
    decreases b - a
  {
    if a < b {
      MonthStep(y, a);
      MonthsMonotone(y, a + 1, b);
    }
  }

  /** A valid date's day number lies inside its year and inside its month. */
  lemma DateBounds(d: Date)
    requires ValidDate(d)
    ensures DaysBeforeYear(d.year) <= DaysFromCivil(d) + EpochOrdinal < DaysBeforeYear(d.year + 1)
    ensures DaysBeforeMonth(d.year, d.month) <= DaysFromCivil(d) + EpochOrdinal - DaysBeforeYear(d.year)
              < DaysBeforeMonth(d.year, d.month + 1)
  {
    YearStep(d.year);
    MonthStep(d.year, d.month);
    MonthsMonotone(d.year, d.month + 1, 13);
  }

  /** Distinct valid dates have distinct day numbers. */
  lemma DaysFromCivilInjective(d1: Date, d2: Date)
    requires ValidDate(d1) && ValidDate(d2)
    requires DaysFromCivil(d1) == DaysFromCivil(d2)
    ensures d1 == d2
  {
    DateBounds(d1);
    DateBounds(d2);
    assert d1.year == d2.year by {
      if d1.year < d2.year {
        YearsMonotone(d1.year + 1, d2.year);
      } else if d2.year < d1.year {
        YearsMonotone(d2.year + 1, d1.year);
      }
    }
    assert d1.month == d2.month by {
      if d1.month < d2.month {
        MonthsMonotone(d1.year, d1.month + 1, d2.month);
      } else if d2.month < d1.month {
        MonthsMonotone(d1.year, d2.month + 1, d1.month);
      }
    }
  }

  // ------------------------------------------------- the algorithm: day -> date

  /** Division with remainder is unique. */
  lemma ModUnique(x: int, d: int, q: int, r: int)
    requires 0 <= r < d && x == d * q + r
    ensures x / d == q && x % d == r
  {
    var q', r' := x / d, x % d;
    assert d * q + r == d * q' + r';
    if q' < q {
      assert d * q - d * q' == d * (q - q');
      MulAtLeast(d, q - q');
    } else if q < q' {
      assert d * q' - d * q == d * (q' - q);
      MulAtLeast(d, q' - q);
    }
  }

  lemma MulAtLeast(d: int, k: int)
    requires d > 0 && k >= 1
    ensures d * k >= d
  {
  }

  /** Days before year 400a + 100b + 4c + e + 1, counted in whole cycles. */
  lemma CycleDays(a: int, b: int, c: int, e: int)
    requires 0 <= b <= 3 && 0 <= c <= 24 && 0 <= e <= 3
    ensures DaysBeforeYear(400 * a + 100 * b + 4 * c + e + 1) == 146097 * a + 36524 * b + 1461 * c + 365 * e
  {
    var p := 400 * a + 100 * b + 4 * c + e;
    assert p / 4 == 100 * a + 25 * b + c;
    assert p / 100 == 4 * a + b;
    assert p / 400 == a;
  }

  /** The day after 146096 days of a 400-year cycle: 31 December of a year divisible by 400. */
  lemma LastDayOfCycle(a: int)
    ensures IsLeapYear(400 * a + 400)
    ensures DaysBeforeYear(400 * a + 400) + 365 == 146097 * a + 36524 * 4
  {
    CycleDays(a, 3, 24, 3);
    ModUnique(400 * a + 400, 4, 100 * a + 100, 0);
    ModUnique(400 * a + 400, 100, 4 * a + 4, 0);
    ModUnique(400 * a + 400, 400, a + 1, 0);
  }

  /** The day after 1460 days of a 4-year cycle: 31 December of a leap year. */
  lemma LastDayOfOlympiad(a: int, b: int, c: int)
    requires 0 <= b <= 3 && 0 <= c <= 23
    ensures IsLeapYear(400 * a + 100 * b + 4 * c + 4)
    ensures DaysBeforeYear(400 * a + 100 * b + 4 * c + 4) + 365 == 146097 * a + 36524 * b + 1461 * c + 365 * 4
  {
    CycleDays(a, b, c, 3);
    ModUnique(400 * a + 100 * b + 4 * c + 4, 4, 100 * a + 25 * b + c + 1, 0);
    ModUnique(400 * a + 100 * b + 4 * c + 4, 100, 4 * a + b, 4 * c + 4);
  }

  /** The cycle counts of n days since 0001-01-01 and what is left over. */
  datatype Cycles = Cycles(n400: int, n100: int, n4: int, n1: int, rest: int)

  function SplitCycles(n: int): (c: Cycles)
    ensures n == 146097 * c.n400 + 36524 * c.n100 + 1461 * c.n4 + 365 * c.n1 + c.rest
    ensures 0 <= c.n100 <= 4 && 0 <= c.n4 <= 24 && 0 <= c.n1 <= 4 && 0 <= c.rest < 365
    ensures c.n100 == 4 ==> c.n4 == 0 && c.n1 == 0 && c.rest == 0
    ensures c.n1 == 4 ==> c.rest == 0 && c.n4 <= 23
  {
    var r400 := n % 146097;
    var r100 := r400 % 36524;
    var r4 := r100 % 1461;
    assert r400 / 36524 == 4 ==> r400 == 146096;
    assert r4 / 365 == 4 ==> r4 == 1460;
    Cycles(n / 146097, r400 / 36524, r100 / 1461, r4 / 365, r4 % 365)
  }

  /** The year day z falls in and its 0-based day of that year, found by
      splitting the days since 0001-01-01 into 400-, 100-, 4- and 1-year cycles. */
  function YearAndDayOfYear(z: int): (int, int) {
    var c := SplitCycles(z + EpochOrdinal);
    var year := 400 * c.n400 + 100 * c.n100 + 4 * c.n4 + c.n1 + 1;
    if c.n100 == 4 || c.n1 == 4 then (year - 1, 365) else (year, c.rest)
  }

  lemma YearAndDayOfYearCorrect(z: int)
    ensures var (y, doy) := YearAndDayOfYear(z);
      0 <= doy < DaysInYear(y) && DaysBeforeYear(y) + doy == z + EpochOrdinal
  {
    var c := SplitCycles(z + EpochOrdinal);
    if c.n100 == 4 {
      LastDayOfCycle(c.n400);
    } else if c.n1 == 4 {
      LastDayOfOlympiad(c.n400, c.n100, c.n4);
    } else {
      CycleDays(c.n400, c.n100, c.n4, c.n1);
    }
  }

  /** Month and 1-based day of the 0-based day-of-year doy, searching from month m. */
  function MonthAndDay(y: int, doy: int, m: int): (int, int)
    requires 1 <= m <= 12
    decreases 12 - m
  {
    if m == 12 || doy < DaysBeforeMonth(y, m + 1) then (m, doy - DaysBeforeMonth(y, m) + 1)
    else MonthAndDay(y, doy, m + 1)
  }

  lemma {:induction false} MonthAndDayCorrect(y: int, doy: int, m: int)
    requires 1 <= m <= 12
    requires DaysBeforeMonth(y, m) <= doy < DaysInYear(y)
    ensures var (mo, d) := MonthAndDay(y, doy, m);
      m <= mo <= 12 && 1 <= d <= DaysInMonth(y, mo) && DaysBeforeMonth(y, mo) + d - 1 == doy
    decreases 12 - m
  {
    MonthStep(y, m);
    if !(m == 12 || doy < DaysBeforeMonth(y, m + 1)) {
      MonthAndDayCorrect(y, doy, m + 1);
    }
  }

  /** The calendar date of day z. */
  function CivilFromDays(z: int): Date {
    var (y, doy) := YearAndDayOfYear(z);
    var (m, day) := MonthAndDay(y, doy, 1);
    Date(y, m, day)
  }

  /** CivilFromDays finds a valid date, and it is the date whose day number is z. */
  lemma CivilFromDaysCorrect(z: int)
    ensures ValidDate(CivilFromDays(z))
    ensures DaysFromCivil(CivilFromDays(z)) == z
  {
    var (y, doy) := YearAndDayOfYear(z);
    YearAndDayOfYearCorrect(z);
    MonthAndDayCorrect(y, doy, 1);
  }

  /** CivilFromDays and DaysFromCivil are inverse on valid dates. */
  lemma CivilRoundTrip(d: Date)
    requires ValidDate(d)
    ensures CivilFromDays(DaysFromCivil(d)) == d
  {
    CivilFromDaysCorrect(DaysFromCivil(d));
    DaysFromCivilInjective(CivilFromDays(DaysFromCivil(d)), d);
  }

  // ------------------------------------------------------ weekdays, ISO weeks

  /** Day of week of day z, Monday = 0 (1970-01-01 was a Thursday). */
  function Weekday(z: int): int {
    (z + 3) % 7
  }

  /** Weekdays are 0..6, 1970-01-05 was a Monday, consecutive days have
      consecutive weekdays and days a week apart the same one. */
  lemma WeekdayFacts(z: int)
    ensures 0 <= Weekday(z) <= 6
    ensures Weekday(4) == 0
    ensures Weekday(z + 1) == (Weekday(z) + 1) % 7
    ensures Weekday(z + 7) == Weekday(z)
  {
  }

  /** Day number of 1 January of year y. */
  function NewYear(y: int): int {
    DaysBeforeYear(y) - EpochOrdinal
  }

  /** The Monday of the week (Monday to Sunday) that holds day j. */
  function MondayOfWeekHolding(j: int): (mon: int)
    ensures Weekday(mon) == 0
    ensures mon <= j < mon + 7
  {
    j - Weekday(j)
  }

  /** The Monday of ISO week 1 of year y: the Monday of the week that holds
      4 January, which is also the week that holds the year's first Thursday. */
  function Week1Monday(y: int): int {
    MondayOfWeekHolding(NewYear(y) + 3)
  }

  lemma Week1MondayCorrect(y: int)
    ensures Weekday(Week1Monday(y)) == 0
    ensures Week1Monday(y) <= DaysFromCivil(Date(y, 1, 4)) < Week1Monday(y) + 7
  {
  }

  /** The first day after ISO year iy: the Monday of week 1 of the next year. */
  function IsoYearEnd(iy: int): int {
    Week1Monday(iy + 1)
  }

  /** Two Mondays 359 to 372 days apart are 52 or 53 weeks apart. */
  lemma MondaysApart(a: int, b: int)
    requires Weekday(a) == 0 && Weekday(b) == 0
    requires a + 359 <= b <= a + 372
    ensures b - a == 364 || b - a == 371
  {
  }

  /** ISO years are 52 or 53 weeks long. */
  lemma IsoYearLength(y: int)
    ensures Week1Monday(y + 1) - Week1Monday(y) == 364 || Week1Monday(y + 1) - Week1Monday(y) == 371
  {
    YearStep(y);
    MondaysApart(Week1Monday(y), Week1Monday(y + 1));
  }

  /** The day z lies in the calendar year of CivilFromDays(z). */
  lemma YearBoundsOfDay(z: int)
    ensures NewYear(CivilFromDays(z).year) <= z < NewYear(CivilFromDays(z).year + 1)
  {
    CivilFromDaysCorrect(z);
    DateBounds(CivilFromDays(z));
  }

  /** The ISO year of day z, given the calendar year y that holds it: y itself,
      or its predecessor or successor when z falls before y's week 1 or in the
      next year's week 1. */
  function IsoYearOf(z: int, y: int): int {
    if z < Week1Monday(y) then y - 1 else if z >= IsoYearEnd(y) then y + 1 else y
  }

  lemma IsoYearOfCorrect(z: int, y: int)
    requires NewYear(y) <= z < NewYear(y + 1)
    ensures Week1Monday(IsoYearOf(z, y)) <= z < IsoYearEnd(IsoYearOf(z, y))
  {
    Week1MondayNear(y);
    Week1MondayNear(y + 1);
    if z < Week1Monday(y) {
      YearGap(y - 1);
      Week1MondayNear(y - 1);
      assert IsoYearOf(z, y) == y - 1;
    } else if z >= IsoYearEnd(y) {
      YearGap(y + 1);
      Week1MondayNear(y + 2);
      assert IsoYearOf(z, y) == y + 1;
    } else {
      assert IsoYearOf(z, y) == y;
    }
  }

  /** Years are 365 or 366 days long. */
  lemma YearGap(y: int)
    ensures NewYear(y) + 365 <= NewYear(y + 1) <= NewYear(y) + 366
  {
    YearStep(y);
  }

  /** Week 1 starts at most three days before or after 1 January. */
  lemma Week1MondayNear(y: int)
    ensures NewYear(y) - 3 <= Week1Monday(y) <= NewYear(y) + 3
  {
  }

  /** ISO 8601 week date (ISO year and week) of day z, following the week-date
      rules of section 4.1.4 of ISO 8601:2004: week 1 is the week holding
      4 January, and a day near New Year may belong to the neighbouring ISO year. */
  function IsoWeekOf(z: int): IsoWeekDate {
    var iy := IsoYearOf(z, CivilFromDays(z).year);
    IsoWeekDate(iy, (z - Week1Monday(iy)) / 7 + 1)
  }

  /** Whole weeks in a span of fewer than 371 days. */
  lemma WeekIndex(span: int)
    requires 0 <= span < 371
    ensures 0 <= span / 7 <= 52
    ensures 7 * (span / 7) <= span < 7 * (span / 7) + 7
  {
  }

  /** Day z lies in ISO week r: r.week is 1..53, z lies in ISO year r.isoYear
      (from its week 1 to the next year's week 1) and in week r.week of it. */
  predicate InIsoWeek(z: int, r: IsoWeekDate) {
    1 <= r.week <= 53 &&
    Week1Monday(r.isoYear) <= z < IsoYearEnd(r.isoYear) &&
    Week1Monday(r.isoYear) + 7 * (r.week - 1) <= z < Week1Monday(r.isoYear) + 7 * r.week
  }

  /** A later ISO year starts no earlier than the end of an earlier one. */
  lemma {:induction false} IsoYearsInOrder(a: int, b: int)
    requires a < b
    ensures IsoYearEnd(a) <= Week1Monday(b)
    decreases b - a
  {
    if a + 1 < b {
      IsoYearsInOrder(a, b - 1);
      IsoYearLength(b - 1);
      assert b - 1 + 1 == b;
    }
  }

  /** A day lies in exactly one ISO week: InIsoWeek names the ISO week date of z. */
  lemma IsoWeekUnique(z: int, r1: IsoWeekDate, r2: IsoWeekDate)
    requires InIsoWeek(z, r1) && InIsoWeek(z, r2)
    ensures r1 == r2
  {
    if r1.isoYear < r2.isoYear {
      IsoYearsInOrder(r1.isoYear, r2.isoYear);
    } else if r2.isoYear < r1.isoYear {
      IsoYearsInOrder(r2.isoYear, r1.isoYear);
    }
  }

  /** The ISO week date of z is the week that holds it, in an ISO year that is
      its calendar year or a neighbour. */
  lemma IsoWeekOfCorrect(z: int)
    ensures InIsoWeek(z, IsoWeekOf(z))
    ensures CivilFromDays(z).year - 1 <= IsoWeekOf(z).isoYear <= CivilFromDays(z).year + 1
  {
    YearBoundsOfDay(z);
    IsoWeekInYear(z, CivilFromDays(z).year);
  }

  /** The same, for a day z of calendar year y. */
  lemma IsoWeekInYear(z: int, y: int)
    requires NewYear(y) <= z < NewYear(y + 1)
    ensures var iy := IsoYearOf(z, y);
      InIsoWeek(z, IsoWeekDate(iy, (z - Week1Monday(iy)) / 7 + 1))
  {
    var iy := IsoYearOf(z, y);
    assert Week1Monday(iy) <= z < IsoYearEnd(iy) by { IsoYearOfCorrect(z, y); }
    WeekOfIsoYear(z, iy);
  }

  /** A day inside ISO year iy falls in week 1..53 of it, counted in whole weeks from its week 1. */
  lemma WeekOfIsoYear(z: int, iy: int)
    requires Week1Monday(iy) <= z < IsoYearEnd(iy)
    ensures InIsoWeek(z, IsoWeekDate(iy, (z - Week1Monday(iy)) / 7 + 1))
  {
    IsoYearLength(iy);
    WeekIndex(z - Week1Monday(iy));
  }

  // ---------------------------------------------------------- epoch milliseconds

  /** Breaks an epoch-millisecond timestamp into its UTC date and time of day
      (86400000 ms to the day, 3600000 to the hour, 60000 to the minute). */
  function FromEpochMs(ts: int): DateTime {
    var ms := ts % 86400000;
    DateTime(CivilFromDays(ts / 86400000), ms / 3600000, ms % 3600000 / 60000,
             ms % 60000 / 1000, ms % 1000)
  }

  /** Milliseconds since 1970-01-01T00:00:00 UTC of a date and time. */
  function ToEpochMs(t: DateTime): int
    requires ValidDate(t.date)
  {
    DaysFromCivil(t.date) * 86400000 + t.hour * 3600000 + t.minute * 60000
      + t.second * 1000 + t.millisecond
  }

  lemma FromEpochMsValid(ts: int)
    ensures ValidDateTime(FromEpochMs(ts))
    ensures DaysFromCivil(FromEpochMs(ts).date) == ts / 86400000
  {
    CivilFromDaysCorrect(ts / 86400000);
  }

  /** Splitting a millisecond of the day into hour, minute, second and millisecond loses nothing. */
  lemma TimeOfDaySplit(ms: int)
    requires 0 <= ms < 86400000
    ensures ms == ms / 3600000 * 3600000 + ms % 3600000 / 60000 * 60000 + ms % 60000 / 1000 * 1000 + ms % 1000
  {
    assert ms % 3600000 % 60000 == ms % 60000;
  }

  lemma EpochMsRoundTrip(ts: int)
    ensures ValidDate(FromEpochMs(ts).date)
    ensures ToEpochMs(FromEpochMs(ts)) == ts
  {
    FromEpochMsValid(ts);
    TimeOfDaySplit(ts % 86400000);
  }

  lemma DateTimeRoundTrip(t: DateTime)
    requires ValidDateTime(t)
    ensures FromEpochMs(ToEpochMs(t)) == t
  {
    var z := DaysFromCivil(t.date);
    var ms := t.hour * 3600000 + t.minute * 60000 + t.second * 1000 + t.millisecond;
    var x := ToEpochMs(t);
    assert x == z * 86400000 + ms;
    DivideByDay(z, ms);
    TimeOfDayParts(t.hour, t.minute, t.second, t.millisecond);
    CivilRoundTrip(t.date);
    assert FromEpochMs(x) == DateTime(CivilFromDays(z), ms / 3600000, ms % 3600000 / 60000,
                                      ms % 60000 / 1000, ms % 1000);
  }

  lemma DivideByDay(z: int, ms: int)
    requires 0 <= ms < 86400000
    ensures (z * 86400000 + ms) / 86400000 == z
    ensures (z * 86400000 + ms) % 86400000 == ms
  {
  }

  lemma TimeOfDayParts(h: int, m: int, s: int, ms: int)
    requires 0 <= h < 24 && 0 <= m < 60 && 0 <= s < 60 && 0 <= ms < 1000
    ensures var x := h * 3600000 + m * 60000 + s * 1000 + ms;
      0 <= x < 86400000 && x / 3600000 == h && x % 3600000 / 60000 == m &&
      x % 60000 / 1000 == s && x % 1000 == ms
  {
    var x := h * 3600000 + m * 60000 + s * 1000 + ms;
    assert x % 3600000 == m * 60000 + s * 1000 + ms;
    assert x % 60000 == s * 1000 + ms;
  }

  /** The hour of the day is the count of whole hours since the epoch, modulo 24. */
  lemma HourOfDay(ts: int)
    ensures FromEpochMs(ts).hour == ts / 3600000 % 24
  {
    var q, r := ts / 86400000, ts % 86400000;
    var h := r / 3600000;
    ModUnique(ts, 3600000, 24 * q + h, r % 3600000);
    ModUnique(24 * q + h, 24, q, h);
  }

  // ------------------------------------------------------------------ examples

  /** Day 17837 is Friday 2 November 2018. */
  lemma AutumnDayExample()
    ensures CivilFromDays(17837) == Date(2018, 11, 2)
    ensures Weekday(17837) == 4
  {
    assert YearAndDayOfYear(17837) == (2018, 305);
    assert MonthAndDay(2018, 305, 1) == (11, 2);
  }

  /** 2 November 2018 is in week 44 of ISO year 2018, whose week 1 starts on
      Monday 1 January 2018 (day 17532). */
  lemma AutumnWeekExample()
    ensures IsoWeekOf(17837) == IsoWeekDate(2018, 44)
  {
    AutumnDayExample();
    assert DaysBeforeYear(2018) == 736694;
    assert DaysBeforeYear(2019) == 737059;
  }

  /** Day 17896 is Monday 31 December 2018. */
  lemma YearEndDayExample()
    ensures CivilFromDays(17896) == Date(2018, 12, 31)
    ensures Weekday(17896) == 0
  {
    assert YearAndDayOfYear(17896) == (2018, 364);
    assert MonthAndDay(2018, 364, 1) == (12, 31);
  }

  /** 31 December 2018 already belongs to week 1 of ISO year 2019. */
  lemma YearEndWeekExample()
    ensures IsoWeekOf(17896) == IsoWeekDate(2019, 1)
  {
    YearEndDayExample();
    assert DaysBeforeYear(2018) == 736694;
    assert DaysBeforeYear(2019) == 737059;
    assert DaysBeforeYear(2020) == 737424;
  }
}
