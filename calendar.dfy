/** The proleptic Gregorian calendar that Python's `datetime` type applies:
    the year range it accepts, leap years, month lengths, the day number
    returned by `toordinal()` and the weekday returned by `weekday()`
    (Monday is 0). The resolver builds its results with this constructor. */
module Calendar {
  import opened Wrappers

  const MinYear := 1
  const MaxYear := 9999

  const Monday := 0
  const Tuesday := 1
  const Sunday := 6

  /** Days of each month in a common year. */
  function CommonMonthLength(month: int): int
    requires 1 <= month <= 12
  {
    if month == 2 then 28
    else if month in {4, 6, 9, 11} then 30
    else 31
  }

  /** Days of a common year before the first of each month. */
  function CommonDaysBeforeMonth(month: int): int
    requires 1 <= month <= 12
  {
    match month
    case 1 => 0    case 2 => 31   case 3 => 59   case 4 => 90
    case 5 => 120  case 6 => 151  case 7 => 181  case 8 => 212
    case 9 => 243  case 10 => 273 case 11 => 304 case _ => 334
  }

  /** Every fourth year is a leap year, except centuries not divisible by 400. */
  predicate IsLeap(year: int) {
    year % 4 == 0 && (year % 100 != 0 || year % 400 == 0)
  }

  function DaysInYear(year: int): (n: int)
    ensures n == 365 || n == 366
    ensures n == 366 <==> IsLeap(year)
  {
    if IsLeap(year) then 366 else 365
  }

  /** The number of days in `month` of `year`. */
  function DaysInMonth(year: int, month: int): (n: int)
    requires 1 <= month <= 12
    ensures 28 <= n <= 31
    ensures month == 2 ==> (n == 29 <==> IsLeap(year)) && (n == 28 <==> !IsLeap(year))
    ensures n == 30 <==> month in {4, 6, 9, 11}
    ensures n == 31 <==> month in {1, 3, 5, 7, 8, 10, 12}
  {
    if month == 2 && IsLeap(year) then 29 else CommonMonthLength(month)
  }

  /** The number of days of `year` before the first of `month`. */
  function DaysBeforeMonth(year: int, month: int): int
    requires 1 <= month <= 12
  {
    CommonDaysBeforeMonth(month) + (if month > 2 && IsLeap(year) then 1 else 0)
  }

  /** The number of days in the years before `year`, counted from year 1. */
  function DaysBeforeYear(year: int): int
    requires MinYear <= year
  {
    var y := year - 1;
    y * 365 + y / 4 - y / 100 + y / 400
  }

  /** A calendar date: Python's `date`. */
  datatype Date = Date(year: int, month: int, day: int)

  /** The dates Python's `date` and `datetime` constructors accept. */
  predicate ValidDate(d: Date) {
    && MinYear <= d.year <= MaxYear
    && 1 <= d.month <= 12
    && 1 <= d.day <= DaysInMonth(d.year, d.month)
  }

  /** The proleptic Gregorian day number: 1 January of year 1 is day 1. */
  function Ordinal(d: Date): int
    requires ValidDate(d)
  {
    DaysBeforeYear(d.year) + DaysBeforeMonth(d.year, d.month) + d.day
  }

  /** The day of the week, Monday being 0 and Sunday 6. */
  function Weekday(d: Date): (w: int)
    requires ValidDate(d)
    ensures 0 <= w < 7
  {
    (Ordinal(d) + 6) % 7
  }

  /** Lexicographic order on (year, month, day). */
  predicate Before(d: Date, e: Date) {
    || d.year < e.year
    || (d.year == e.year && d.month < e.month)
    || (d.year == e.year && d.month == e.month && d.day < e.day)
  }

  /** The calendar day after `d`. */
  function NextDay(d: Date): (e: Date)
    requires ValidDate(d) && d != Date(MaxYear, 12, 31)
    ensures ValidDate(e) && Before(d, e)
    ensures Ordinal(e) == Ordinal(d) + 1
  {
    if d.day < DaysInMonth(d.year, d.month) then
      Date(d.year, d.month, d.day + 1)
    else if d.month < 12 then
      MonthsAccumulate(d.year, d.month);
      Date(d.year, d.month + 1, 1)
    else
      YearLength(d.year);
      Date(d.year + 1, 1, 1)
  }

  /** Consecutive days have consecutive weekdays, Sunday wrapping round to Monday. */
  lemma NextDayWeekday(d: Date)
    requires ValidDate(d) && d != Date(MaxYear, 12, 31)
    ensures Weekday(NextDay(d)) == (Weekday(d) + 1) % 7
  {
    var n := Ordinal(d) + 6;
    assert Ordinal(NextDay(d)) + 6 == n + 1;
    WeekStep(n);
  }

  lemma WeekStep(n: int)
    ensures (n + 1) % 7 == (n % 7 + 1) % 7
  {
  }

  /** The first of the next month comes exactly one month length later. */
  lemma MonthsAccumulate(year: int, month: int)
    requires 1 <= month < 12
    ensures DaysBeforeMonth(year, month + 1) == DaysBeforeMonth(year, month) + DaysInMonth(year, month)
  {
  }

  /** A year is as long as the gap between its first day and the next year's. */
  lemma YearLength(year: int)
    requires MinYear <= year
    ensures DaysBeforeYear(year + 1) == DaysBeforeYear(year) + DaysInYear(year)
    ensures DaysBeforeMonth(year, 12) + DaysInMonth(year, 12) == DaysInYear(year)
  {
    var y := year - 1;
    var before := y * 365 + y / 4 - y / 100 + y / 400;
    var after := year * 365 + year / 4 - year / 100 + year / 400;
    assert DaysBeforeYear(year) == before;
    assert DaysBeforeYear(year + 1) == after;
    var leaps := (year / 4 - y / 4) - (year / 100 - y / 100) + (year / 400 - y / 400);
    DivStep(year, 4);
    DivStep(year, 100);
    DivStep(year, 400);
    DivisorsNest(year);
    assert leaps == (if IsLeap(year) then 1 else 0);
    assert after == before + 365 + leaps;
  }

  /** Multiples of 400 are multiples of 100, which are multiples of 4. */
  lemma DivisorsNest(year: int)
    ensures year % 400 == 0 ==> year % 100 == 0
    ensures year % 100 == 0 ==> year % 4 == 0
  {
    if year % 400 == 0 {
      MultipleMod(year, 4 * (year / 400), 100);
    }
    if year % 100 == 0 {
      MultipleMod(year, 25 * (year / 100), 4);
    }
  }

  /** A multiple of a leap-year divisor leaves no remainder. DivisorsNest,
      MultipleMod and DivStep are stated apart from YearLength so that each
      arithmetic fact is a proof obligation of its own, which keeps the
      solver's search short. */
  lemma MultipleMod(n: int, m: int, k: int)
    requires k in {4, 100} && n == k * m
    ensures n % k == 0
  {
  }

  /** Floor division by the leap-year divisors steps up exactly at their multiples. */
  lemma DivStep(year: int, k: int)
    requires 1 <= year && k in {4, 100, 400}
    ensures year / k - (year - 1) / k == (if year % k == 0 then 1 else 0)
  {
  }

  /** Year starts grow by at least 365 days per year. */
  lemma {:induction false} YearsAccumulate(y0: int, y1: int)
    requires MinYear <= y0 <= y1
    ensures DaysBeforeYear(y1) - DaysBeforeYear(y0) >= 365 * (y1 - y0)
    decreases y1 - y0
  {
    if y0 < y1 {
      YearLength(y0);
      YearsAccumulate(y0 + 1, y1);
    }
  }

  /** Each month ends no later than any later month starts. */
  lemma {:induction false} MonthsOrdered(year: int, m1: int, m2: int)
    requires 1 <= m1 < m2 <= 12
    ensures DaysBeforeMonth(year, m1) + DaysInMonth(year, m1) <= DaysBeforeMonth(year, m2)
    decreases m2 - m1
  {
    MonthsAccumulate(year, m1);
    if m1 + 1 < m2 {
      MonthsOrdered(year, m1 + 1, m2);
    }
  }

  /** The position of a valid date within its year lies between 1 and the
      length of the year. */
  lemma WithinYear(d: Date)
    requires ValidDate(d)
    ensures 1 <= DaysBeforeMonth(d.year, d.month) + d.day <= DaysInYear(d.year)
  {
    YearLength(d.year);
    if d.month < 12 {
      MonthsOrdered(d.year, d.month, 12);
    }
  }

  /** Day numbers follow the calendar order, so distinct dates have distinct numbers. */
  lemma OrdinalOrder(d: Date, e: Date)
    requires ValidDate(d) && ValidDate(e)
    ensures Before(d, e) <==> Ordinal(d) < Ordinal(e)
    ensures d == e <==> Ordinal(d) == Ordinal(e)
  {
    if d.year < e.year {
      WithinYear(d);
      WithinYear(e);
      YearLength(d.year);
      YearsAccumulate(d.year + 1, e.year);
    } else if e.year < d.year {
      WithinYear(d);
      WithinYear(e);
      YearLength(e.year);
      YearsAccumulate(e.year + 1, d.year);
    } else if d.month < e.month {
      MonthsOrdered(d.year, d.month, e.month);
    } else if e.month < d.month {
      MonthsOrdered(d.year, e.month, d.month);
    }
  }

  /** Reference definition: the days of all years before `year`, counted
      one year at a time from year 1. */
  function YearDaysCounted(year: int): int
    requires MinYear <= year
    decreases year
  {
    if year == MinYear then 0 else YearDaysCounted(year - 1) + DaysInYear(year - 1)
  }

  /** Reference definition: the days of the months of `year` before `month`,
      counted one month at a time. */
  function MonthDaysCounted(year: int, month: int): int
    requires 1 <= month <= 12
    decreases month
  {
    if month == 1 then 0 else MonthDaysCounted(year, month - 1) + DaysInMonth(year, month - 1)
  }

  /** The closed formula for the days before a year counts every earlier year. */
  lemma {:induction false} DaysBeforeYearCounts(year: int)
    requires MinYear <= year
    ensures DaysBeforeYear(year) == YearDaysCounted(year)
    decreases year
  {
    if year > MinYear {
      DaysBeforeYearCounts(year - 1);
      YearLength(year - 1);
    }
  }

  /** The cumulative month table counts every earlier month of the year. */
  lemma {:induction false} DaysBeforeMonthCounts(year: int, month: int)
    requires 1 <= month <= 12
    ensures DaysBeforeMonth(year, month) == MonthDaysCounted(year, month)
    decreases month
  {
    if month > 1 {
      DaysBeforeMonthCounts(year, month - 1);
      MonthsAccumulate(year, month - 1);
    }
  }

  /** The day number of a date counts every day from 1 January of year 1 up
      to and including that date. */
  lemma OrdinalCountsDays(d: Date)
    requires ValidDate(d)
    ensures Ordinal(d) == YearDaysCounted(d.year) + MonthDaysCounted(d.year, d.month) + d.day
  {
    DaysBeforeYearCounts(d.year);
    DaysBeforeMonthCounts(d.year, d.month);
  }

  /** Day 1 is 1 January of year 1, a Monday. */
  lemma FirstDay()
    ensures ValidDate(Date(1, 1, 1)) && Ordinal(Date(1, 1, 1)) == 1 && Weekday(Date(1, 1, 1)) == Monday
  {
    var d := Date(1, 1, 1);
    assert ValidDate(d);
    var n := Ordinal(d);
    assert n == 1;
    assert Weekday(d) == (n + 6) % 7 == 0;
  }

  /** A naive date-time: Python's `datetime`. */
  datatype DateTime = DateTime(year: int, month: int, day: int,
                               hour: int, minute: int, second: int, microsecond: int)
  {
    /** The date part, as `datetime.date()` returns it. */
    function ToDate(): Date {
      Date(year, month, day)
    }
  }

  /** Python's `datetime(year, month, day, hour, minute, second, microsecond)`:
      it raises `ValueError` for any field outside its range. */
  function NewDateTime(year: int, month: int, day: int,
                       hour: int, minute: int, second: int, microsecond: int): (r: Result<DateTime>)
    ensures r.Ok? <==> (ValidDate(Date(year, month, day)) && 0 <= hour < 24 && 0 <= minute < 60
                        && 0 <= second < 60 && 0 <= microsecond < 1000000)
    ensures r.Err? ==> r.error == ValueError
    ensures r.Ok? ==> r.value.ToDate() == Date(year, month, day)
                      && r.value.hour == hour && r.value.minute == minute
                      && r.value.second == second && r.value.microsecond == microsecond
  {
    if !(MinYear <= year <= MaxYear) || !(1 <= month <= 12) || !(1 <= day <= DaysInMonth(year, month)) then
      Err(ValueError)
    else if !(0 <= hour <= 23) || !(0 <= minute <= 59) || !(0 <= second <= 59) || !(0 <= microsecond <= 999999) then
      Err(ValueError)
    else
      Ok(DateTime(year, month, day, hour, minute, second, microsecond))
  }
}
