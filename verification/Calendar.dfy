/** The civil calendar behind time.Time: dates, day numbers, and the units windows are made of.

    Day 0 is 1 January of the year 1, a Monday. */
module Calendar {

  datatype Date = Date(year: int, month: int, day: int)

  predicate IsLeap(year: int) {
    year % 4 == 0 && (year % 100 != 0 || year % 400 == 0)
  }

  function DaysIn(year: int, month: int): int {
    if month == 2 then (if IsLeap(year) then 29 else 28)
    else if month == 4 || month == 6 || month == 9 || month == 11 then 30
    else 31
  }

  predicate Valid(d: Date) {
    1 <= d.month <= 12 && 1 <= d.day <= DaysIn(d.year, d.month)
  }

  function DaysOfYear(year: int): int {
    if IsLeap(year) then 366 else 365
  }

  /** The days from 1 January of the year 1, negative before it. */
  function DaysBeforeYear(year: int): int
    decreases if year > 1 then year - 1 else 1 - year
  {
    if year == 1 then 0
    else if year > 1 then DaysBeforeYear(year - 1) + DaysOfYear(year - 1)
    else DaysBeforeYear(year + 1) - DaysOfYear(year)
  }

  function DaysBeforeMonth(year: int, month: int): int
    requires 1 <= month <= 13
  {
    if month == 1 then 0 else DaysBeforeMonth(year, month - 1) + DaysIn(year, month - 1)
  }

  /** The day number of a date; the day may lie outside its month. */
  function Ordinal(d: Date): int
    requires 1 <= d.month <= 12
  {
    DaysBeforeYear(d.year) + DaysBeforeMonth(d.year, d.month) + d.day - 1
  }

  function NextDay(d: Date): Date {
    if d.day < DaysIn(d.year, d.month) then d.(day := d.day + 1)
    else if d.month < 12 then Date(d.year, d.month + 1, 1)
    else Date(d.year + 1, 1, 1)
  }

  function PreviousDay(d: Date): Date {
    if d.day > 1 then d.(day := d.day - 1)
    else if d.month > 1 then Date(d.year, d.month - 1, DaysIn(d.year, d.month - 1))
    else Date(d.year - 1, 12, 31)
  }

  lemma YearLength(year: int)
    ensures DaysBeforeYear(year + 1) == DaysBeforeYear(year) + DaysOfYear(year)
  {
  }

  lemma MonthsOfYear(year: int)
    ensures DaysBeforeMonth(year, 13) == DaysOfYear(year)
  {
    MonthsBefore(year);
  }

  /** Years divisible by four have a day more, but of those divisible by a hundred only the ones
      divisible by four hundred. */
  lemma {:induction false} YearsBefore(year: int)
    ensures DaysBeforeYear(year) == 365 * (year - 1) + (year - 1) / 4 - (year - 1) / 100 + (year - 1) / 400
    decreases if year > 1 then year - 1 else 1 - year
  {
    if year > 1 {
      YearsBefore(year - 1);
      LeapDay(year - 1);
    } else if year < 1 {
      YearsBefore(year + 1);
      LeapDay(year);
    }
  }

  lemma LeapDay(year: int)
    ensures DaysOfYear(year)
         == 365 + (year / 4 - (year - 1) / 4) - (year / 100 - (year - 1) / 100) + (year / 400 - (year - 1) / 400)
  {
    Fours(year);
    Hundreds(year);
    FourHundreds(year);
    FourHundredsAreHundreds(year);
  }

  lemma Fours(n: int)
    ensures n / 4 - (n - 1) / 4 == if n % 4 == 0 then 1 else 0
    ensures n % 100 == 0 ==> n % 4 == 0
  {
  }

  lemma Hundreds(n: int)
    ensures n / 100 - (n - 1) / 100 == if n % 100 == 0 then 1 else 0
  {
  }

  lemma FourHundreds(n: int)
    ensures n / 400 - (n - 1) / 400 == if n % 400 == 0 then 1 else 0
  {
  }

  lemma FourHundredsAreHundreds(n: int)
    ensures n % 400 == 0 ==> n % 100 == 0
  {
    if n % 400 == 0 {
      assert n == 100 * (4 * (n / 400));
    }
  }

  /** The calendar repeats itself after 400 years of 146097 days, which is a number of weeks. */
  lemma FourHundredYears(year: int)
    ensures DaysBeforeYear(year + 400) == DaysBeforeYear(year) + 146097
    ensures Weekday(DaysBeforeYear(year + 400)) == Weekday(DaysBeforeYear(year))
  {
    YearsBefore(year);
    YearsBefore(year + 400);
    FourHundredMore(year - 1);
    WeeksMore(DaysBeforeYear(year), 20871);
  }

  lemma FourHundredMore(y: int)
    ensures (y + 400) / 4 == y / 4 + 100 && (y + 400) / 100 == y / 100 + 4 && (y + 400) / 400 == y / 400 + 1
  {
  }

  lemma WeeksMore(n: int, weeks: int)
    ensures Weekday(n + 7 * weeks) == Weekday(n)
  {
  }

  /** The lengths of the months. */
  lemma MonthsBefore(year: int)
    ensures var leap := if year % 4 == 0 && (year % 100 != 0 || year % 400 == 0) then 1 else 0;
            && DaysBeforeMonth(year, 1) == 0 && DaysBeforeMonth(year, 2) == 31
            && DaysBeforeMonth(year, 3) == 59 + leap && DaysBeforeMonth(year, 4) == 90 + leap
            && DaysBeforeMonth(year, 5) == 120 + leap && DaysBeforeMonth(year, 6) == 151 + leap
            && DaysBeforeMonth(year, 7) == 181 + leap && DaysBeforeMonth(year, 8) == 212 + leap
            && DaysBeforeMonth(year, 9) == 243 + leap && DaysBeforeMonth(year, 10) == 273 + leap
            && DaysBeforeMonth(year, 11) == 304 + leap && DaysBeforeMonth(year, 12) == 334 + leap
            && DaysBeforeMonth(year, 13) == 365 + leap
  {
    assert DaysBeforeMonth(year, 2) == 31;
    assert DaysBeforeMonth(year, 3) == 31 + DaysIn(year, 2);
    assert DaysBeforeMonth(year, 5) == 92 + DaysIn(year, 2);
    assert DaysBeforeMonth(year, 7) == 153 + DaysIn(year, 2);
    assert DaysBeforeMonth(year, 9) == 215 + DaysIn(year, 2);
    assert DaysBeforeMonth(year, 11) == 276 + DaysIn(year, 2);
  }

  /** 15 March 2024 is day 738959, a Friday, four days after a Monday. */
  lemma AFriday()
    ensures Ordinal(Date(2024, 3, 15)) == 738959
    ensures Weekday(738959) == 5 && DaysSinceLastMonday(738959) == 4
  {
    YearsBefore(2024);
    MonthsBefore(2024);
  }

  lemma NextDayOrdinal(d: Date)
    requires Valid(d)
    ensures Valid(NextDay(d)) && Ordinal(NextDay(d)) == Ordinal(d) + 1
  {
    if d.day == DaysIn(d.year, d.month) {
      if d.month < 12 {
        MonthLength(d.year, d.month);
      } else {
        NewYear(d.year);
      }
    }
  }

  lemma MonthLength(year: int, month: int)
    requires 1 <= month <= 12
    ensures DaysBeforeMonth(year, month + 1) == DaysBeforeMonth(year, month) + DaysIn(year, month)
  {
  }

  lemma NewYear(year: int)
    ensures Ordinal(Date(year + 1, 1, 1)) == Ordinal(Date(year, 12, 31)) + 1
  {
    YearLength(year);
    MonthsOfYear(year);
    MonthLength(year, 12);
  }

  lemma PreviousDayOrdinal(d: Date)
    requires Valid(d)
    ensures Valid(PreviousDay(d)) && Ordinal(PreviousDay(d)) == Ordinal(d) - 1
  {
    if d.day == 1 {
      if d.month > 1 {
        MonthLength(d.year, d.month - 1);
      } else {
        NewYear(d.year - 1);
      }
    }
  }

  /** The date of a day number. */
  function FromOrdinal(n: int): (d: Date)
    ensures Valid(d) && Ordinal(d) == n
    decreases if n < 0 then -n else n
  {
    if n == 0 then Date(1, 1, 1)
    else if n > 0 then
      NextDayOrdinal(FromOrdinal(n - 1));
      NextDay(FromOrdinal(n - 1))
    else
      PreviousDayOrdinal(FromOrdinal(n + 1));
      PreviousDay(FromOrdinal(n + 1))
  }

  // ----- Order -----

  predicate Before(a: Date, b: Date) {
    a.year < b.year || (a.year == b.year && (a.month < b.month || (a.month == b.month && a.day < b.day)))
  }

  lemma {:induction false} YearsGrow(a: int, b: int)
    requires a <= b
    ensures DaysBeforeYear(a) <= DaysBeforeYear(b)
    decreases b - a
  {
    if a < b {
      YearLength(a);
      YearsGrow(a + 1, b);
    }
  }

  lemma {:induction false} MonthsGrow(year: int, a: int, b: int)
    requires 1 <= a <= b <= 13
    ensures DaysBeforeMonth(year, a) <= DaysBeforeMonth(year, b)
    decreases b - a
  {
    if a < b {
      MonthsGrow(year, a + 1, b);
    }
  }

  /** Day numbers follow the calendar order. */
  lemma OrdinalFollowsCalendar(a: Date, b: Date)
    requires Valid(a) && Valid(b)
    ensures Before(a, b) <==> Ordinal(a) < Ordinal(b)
    ensures a == b <==> Ordinal(a) == Ordinal(b)
  {
    if Before(a, b) {
      OrdinalGrows(a, b);
    } else if Before(b, a) {
      OrdinalGrows(b, a);
    }
  }

  lemma OrdinalGrows(a: Date, b: Date)
    requires Valid(a) && Valid(b) && Before(a, b)
    ensures Ordinal(a) < Ordinal(b)
  {
    MonthsGrow(b.year, 1, b.month);
    if a.year < b.year {
      MonthsGrow(a.year, a.month + 1, 13);
      MonthsOfYear(a.year);
      YearLength(a.year);
      YearsGrow(a.year + 1, b.year);
    } else if a.month < b.month {
      MonthsGrow(a.year, a.month + 1, b.month);
    }
  }

  // ----- time.Date and AddDate -----

  /** time.Date at midnight, as a day number: months outside 1..12 and days outside the month
      carry over. */
  function DayNumber(year: int, month: int, day: int): int {
    Ordinal(Date(year + (month - 1) / 12, (month - 1) % 12 + 1, day))
  }

  /** The civil date of time.Date(year, month, 1). */
  function MonthStart(year: int, month: int): (d: Date)
    ensures Valid(d) && Ordinal(d) == DayNumber(year, month, 1)
  {
    Date(year + (month - 1) / 12, (month - 1) % 12 + 1, 1)
  }

  /** Time.AddDate at midnight, as a day number. */
  function AddDate(d: Date, years: int, months: int, days: int): int {
    DayNumber(d.year + years, d.month + months, d.day + days)
  }

  lemma AddDays(d: Date, days: int)
    requires Valid(d)
    ensures AddDate(d, 0, 0, days) == Ordinal(d) + days
    ensures DayNumber(d.year, d.month, days) == Ordinal(d.(day := days))
  {
    assert (d.month - 1) / 12 == 0 && (d.month - 1) % 12 == d.month - 1;
  }

  /** Weekday of a day number, Sunday being 0. */
  function Weekday(n: int): int {
    (n + 1) % 7
  }

  /** times.DaysSinceLastMonday. */
  function DaysSinceLastMonday(n: int): int {
    (Weekday(n) + 6) % 7
  }

  // ----- Units -----

  datatype Unit = Day | Week | Month | Quarter | Year

  /** Numbers the days, weeks, months, quarters and years consecutively. */
  function UnitIndex(u: Unit, d: Date): int
    requires Valid(d)
  {
    match u
    case Day => Ordinal(d)
    case Week => Ordinal(d) / 7
    case Month => 12 * d.year + d.month - 1
    case Quarter => 4 * d.year + (d.month - 1) / 3
    case Year => d.year
  }

  /** The first day of a month, quarter or year. */
  function FirstDate(u: Unit, index: int): (d: Date)
    requires !u.Day? && !u.Week?
    ensures Valid(d)
  {
    match u
    case Month => Date(index / 12, index % 12 + 1, 1)
    case Quarter => Date(index / 4, index % 4 * 3 + 1, 1)
    case Year => Date(index, 1, 1)
  }

  /** The day number a unit starts with. */
  function StartOf(u: Unit, index: int): int {
    match u
    case Day => index
    case Week => 7 * index
    case _ => Ordinal(FirstDate(u, index))
  }

  /** A day lies in a unit or a later one exactly when it is not before that unit's start. */
  lemma UnitStartsAt(u: Unit, index: int, x: Date)
    requires Valid(x)
    ensures UnitIndex(u, x) >= index <==> Ordinal(x) >= StartOf(u, index)
  {
    if !u.Day? && !u.Week? {
      OrdinalFollowsCalendar(x, FirstDate(u, index));
    }
  }

  lemma StartsGrow(u: Unit, i: int, j: int)
    ensures StartOf(u, i) < StartOf(u, j) <==> i < j
  {
    if !u.Day? && !u.Week? {
      OrdinalFollowsCalendar(FirstDate(u, i), FirstDate(u, j));
    }
  }

  lemma StartIsOwn(u: Unit, index: int, x: Date)
    requires Valid(x) && Ordinal(x) == StartOf(u, index)
    ensures UnitIndex(u, x) == index
  {
    StartsGrow(u, index, index + 1);
    UnitStartsAt(u, index, x);
    UnitStartsAt(u, index + 1, x);
  }

  lemma StartsDiffer(u: Unit, i: int, j: int)
    ensures StartOf(u, i) == StartOf(u, j) <==> i == j
  {
    StartsGrow(u, i, j);
    StartsGrow(u, j, i);
  }

  /** The first of a month, whatever month number time.Date is given. */
  lemma MonthIndex(year: int, month: int)
    ensures MonthStart(year, month) == FirstDate(Month, 12 * year + month - 1)
    ensures DayNumber(year, month, 1) == StartOf(Month, 12 * year + month - 1)
  {
    var y, m := year + (month - 1) / 12, (month - 1) % 12;
    assert 12 * year + month - 1 == 12 * y + m;
    assert (12 * y + m) / 12 == y && (12 * y + m) % 12 == m;
  }

  lemma MonthIndexOf(index: int)
    ensures var d := FirstDate(Month, index);
            12 * d.year + d.month - 1 == index
  {
  }

  lemma QuarterIsMonth(index: int)
    ensures FirstDate(Quarter, index) == FirstDate(Month, 3 * index)
  {
    var y, q := index / 4, index % 4;
    assert 3 * index == 12 * y + 3 * q;
    assert (12 * y + 3 * q) / 12 == y && (12 * y + 3 * q) % 12 == 3 * q;
  }
}
