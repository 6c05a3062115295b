/** The report and budget windows, as sets of days.

    A window is a pair of day numbers.  What it stands for is said with UnitIndex: the days of
    which units it holds. */
module TimeWindows {
  import opened Calendar
  import opened Wrappers

  datatype Window = Window(from: int, to: int)

  predicate Holds(w: Window, x: Date)
    requires Valid(x)
  {
    w.from <= Ordinal(x) <= w.to
  }

  function QuarterMonth(month: int): int {
    month - (month - 1) % 3
  }

  // ----- Report windows -----

  /** The from date of getTimeSettingsCurrentInterval. */
  function CurrentFrom(u: Unit, today: Date): int
    requires Valid(today)
  {
    match u
    case Day => DayNumber(today.year, today.month, today.day)
    case Week => AddDate(today, 0, 0, -DaysSinceLastMonday(Ordinal(today)))
    case Month => DayNumber(today.year, today.month, 1)
    case Quarter => DayNumber(today.year, QuarterMonth(today.month), 1)
    case Year => DayNumber(today.year, 1, 1)
  }

  /** getTimeSettingsCurrentInterval. */
  function CurrentInterval(u: Unit, today: Date): Window
    requires Valid(today)
  {
    Window(CurrentFrom(u, today), Ordinal(today))
  }

  /** How many units back a "last N" window starts. */
  function UnitsBack(amount: int, includeCurrent: bool): int {
    if !includeCurrent then amount else if amount - 1 < 1 then 1 else amount - 1
  }

  /** The from date of getTimeSettingsLastInterval. */
  function LastFrom(u: Unit, amount: int, today: Date): int
    requires Valid(today)
  {
    match u
    case Day => AddDate(today, 0, 0, -amount)
    case Week => AddDate(today, 0, 0, -(7 * amount + DaysSinceLastMonday(Ordinal(today))))
    case Month => AddDate(MonthStart(today.year, today.month), 0, -amount, 0)
    case Quarter => AddDate(MonthStart(today.year, QuarterMonth(today.month)), 0, -3 * amount, 0)
    case Year => DayNumber(today.year - amount, 1, 1)
  }

  /** The to date of getTimeSettingsLastInterval without the current unit. */
  function LastTo(u: Unit, today: Date): int
    requires Valid(today)
  {
    match u
    case Day => AddDate(today, 0, 0, -1)
    case Week => AddDate(today, 0, 0, -(DaysSinceLastMonday(Ordinal(today)) + 1))
    case Month => DayNumber(today.year, today.month, 0)
    case Quarter => DayNumber(today.year, QuarterMonth(today.month), 0)
    case Year => DayNumber(today.year, 1, 0)
  }

  /** getTimeSettingsLastInterval. */
  function LastInterval(u: Unit, n: int, includeCurrent: bool, today: Date): Window
    requires Valid(today)
  {
    var to := if includeCurrent then Ordinal(today) else LastTo(u, today);
    Window(LastFrom(u, UnitsBack(n, includeCurrent), today), to)
  }

  lemma MondayOffset(n: int)
    ensures DaysSinceLastMonday(n) == n % 7 && n - n % 7 == 7 * (n / 7)
  {
  }

  lemma QuarterOf(d: Date)
    requires Valid(d)
    ensures MonthStart(d.year, QuarterMonth(d.month)) == FirstDate(Quarter, UnitIndex(Quarter, d))
    ensures 12 * d.year + QuarterMonth(d.month) - 1 == 3 * UnitIndex(Quarter, d)
  {
    var q := (d.month - 1) / 3;
    assert QuarterMonth(d.month) == 3 * q + 1;
    MonthIndex(d.year, QuarterMonth(d.month));
    QuarterIsMonth(UnitIndex(Quarter, d));
  }

  lemma MonthsBack(index: int, months: int)
    ensures AddDate(FirstDate(Month, index), 0, months, 0) == StartOf(Month, index + months)
  {
    var d := FirstDate(Month, index);
    MonthIndex(d.year, d.month + months);
    MonthIndexOf(index);
  }

  lemma QuartersBack(index: int, quarters: int)
    ensures AddDate(FirstDate(Quarter, index), 0, 3 * quarters, 0) == StartOf(Quarter, index + quarters)
  {
    QuarterIsMonth(index);
    MonthsBack(3 * index, 3 * quarters);
    QuarterIsMonth(index + quarters);
  }

  lemma YearStart(year: int)
    ensures DayNumber(year, 1, 1) == StartOf(Year, year)
  {
  }

  /** The current window starts with the current unit. */
  lemma CurrentStart(u: Unit, today: Date)
    requires Valid(today)
    ensures CurrentFrom(u, today) == StartOf(u, UnitIndex(u, today))
  {
    match u
    case Day => AddDays(today, today.day);
    case Week =>
      MondayOffset(Ordinal(today));
      AddDays(today, -DaysSinceLastMonday(Ordinal(today)));
    case Month => MonthIndex(today.year, today.month);
    case Quarter => QuarterOf(today);
    case Year => YearStart(today.year);
  }

  lemma LastDayStart(amount: int, today: Date)
    requires Valid(today)
    ensures LastFrom(Day, amount, today) == StartOf(Day, UnitIndex(Day, today) - amount)
  {
    AddDays(today, -amount);
  }

  lemma LastWeekStart(amount: int, today: Date)
    requires Valid(today)
    ensures LastFrom(Week, amount, today) == StartOf(Week, UnitIndex(Week, today) - amount)
  {
    MondayOffset(Ordinal(today));
    AddDays(today, -(7 * amount + DaysSinceLastMonday(Ordinal(today))));
  }

  lemma LastMonthStart(amount: int, today: Date)
    requires Valid(today)
    ensures LastFrom(Month, amount, today) == StartOf(Month, UnitIndex(Month, today) - amount)
  {
    MonthIndex(today.year, today.month);
    MonthsBack(UnitIndex(Month, today), -amount);
  }

  lemma LastQuarterStart(amount: int, today: Date)
    requires Valid(today)
    ensures LastFrom(Quarter, amount, today) == StartOf(Quarter, UnitIndex(Quarter, today) - amount)
  {
    QuarterOf(today);
    QuartersBack(UnitIndex(Quarter, today), -amount);
  }

  lemma LastYearStart(amount: int, today: Date)
    requires Valid(today)
    ensures LastFrom(Year, amount, today) == StartOf(Year, UnitIndex(Year, today) - amount)
  {
    YearStart(today.year - amount);
  }

  /** A "last N" window starts with the unit exactly as many units back as it says. */
  lemma LastStart(u: Unit, amount: int, today: Date)
    requires Valid(today)
    ensures LastFrom(u, amount, today) == StartOf(u, UnitIndex(u, today) - amount)
  {
    hide LastFrom, StartOf, UnitIndex;
    match u
    case Day => LastDayStart(amount, today);
    case Week => LastWeekStart(amount, today);
    case Month => LastMonthStart(amount, today);
    case Quarter => LastQuarterStart(amount, today);
    case Year => LastYearStart(amount, today);
  }

  lemma DayZero(year: int, month: int)
    ensures DayNumber(year, month, 0) == DayNumber(year, month, 1) - 1
  {
  }

  /** Without the current unit, a "last N" window ends the day before the current one starts. */
  lemma LastEnd(u: Unit, today: Date)
    requires Valid(today)
    ensures LastTo(u, today) + 1 == CurrentFrom(u, today)
  {
    match u
    case Day => AddDays(today, -1); AddDays(today, today.day);
    case Week =>
      AddDays(today, -(DaysSinceLastMonday(Ordinal(today)) + 1));
      AddDays(today, -DaysSinceLastMonday(Ordinal(today)));
    case Month => DayZero(today.year, today.month);
    case Quarter => DayZero(today.year, QuarterMonth(today.month));
    case Year => DayZero(today.year, 1);
  }

  lemma LastBounds(u: Unit, n: int, today: Date)
    requires Valid(today)
    ensures LastInterval(u, n, false, today).from == StartOf(u, UnitIndex(u, today) - n)
    ensures LastInterval(u, n, false, today).to + 1 == StartOf(u, UnitIndex(u, today))
  {
    LastStart(u, n, today);
    LastEnd(u, today);
    CurrentStart(u, today);
  }

  /** A "last N" window without the current unit holds exactly the days of the N units before
      today's: it abuts the current window, and starts N units earlier, through month and year
      borders and leap years.  For N of zero or less it holds nothing. */
  lemma LastHoldsUnits(u: Unit, n: int, today: Date, x: Date)
    requires Valid(today) && Valid(x)
    ensures Holds(LastInterval(u, n, false, today), x)
       <==> UnitIndex(u, today) - n <= UnitIndex(u, x) < UnitIndex(u, today)
  {
    hide LastInterval, StartOf, UnitIndex, Holds;
    LastBounds(u, n, today);
    HoldsUnits(u, LastInterval(u, n, false, today), UnitIndex(u, today) - n, UnitIndex(u, today), x);
  }

  lemma HoldsUnits(u: Unit, w: Window, first: int, end: int, x: Date)
    requires Valid(x) && w.from == StartOf(u, first) && w.to + 1 == StartOf(u, end)
    ensures Holds(w, x) <==> first <= UnitIndex(u, x) < end
  {
    hide StartOf, UnitIndex;
    UnitStartsAt(u, first, x);
    UnitStartsAt(u, end, x);
  }

  /** The current window holds the current unit up to today. */
  lemma CurrentHoldsUnit(u: Unit, today: Date, x: Date)
    requires Valid(today) && Valid(x)
    ensures Holds(CurrentInterval(u, today), x)
       <==> UnitIndex(u, x) == UnitIndex(u, today) && Ordinal(x) <= Ordinal(today)
  {
    CurrentStart(u, today);
    UnitStartsAt(u, UnitIndex(u, today), x);
    UnitStartsAt(u, UnitIndex(u, today) + 1, x);
    UnitStartsAt(u, UnitIndex(u, today) + 1, today);
  }

  /** With the current unit included, a "last N" window holds the days up to today of the
      current unit and the N - 1 units before it, but always of one ... */
  lemma LastWithCurrentHolds(u: Unit, n: int, today: Date, x: Date)
    requires Valid(today) && Valid(x)
    ensures n >= 2 ==>
              (Holds(LastInterval(u, n, true, today), x)
               <==> UnitIndex(u, today) - (n - 1) <= UnitIndex(u, x) && Ordinal(x) <= Ordinal(today))
    ensures n < 2 ==>
              (Holds(LastInterval(u, n, true, today), x)
               <==> UnitIndex(u, today) - 1 <= UnitIndex(u, x) && Ordinal(x) <= Ordinal(today))
  {
    hide StartOf, UnitIndex, LastFrom;
    LastStart(u, UnitsBack(n, true), today);
    UnitStartsAt(u, UnitIndex(u, today) - UnitsBack(n, true), x);
  }

  /** ... which makes N units in all exactly when N is at least two: asked for the last one
      unit including the current, it starts a unit too early. */
  lemma LastWithCurrentCountsFromTwo(u: Unit, n: int, today: Date)
    requires Valid(today)
    ensures LastInterval(u, n, true, today).from == StartOf(u, UnitIndex(u, today) - (n - 1)) <==> n >= 2
  {
    LastStartWithCurrent(u, n, today);
    StartsDiffer(u, UnitIndex(u, today) - UnitsBack(n, true), UnitIndex(u, today) - (n - 1));
    BackCount(n);
  }

  /** On 15 March 2024 the last one month, including the current one, starts in February. */
  lemma LastOneMonthIsTwo()
    ensures var today := Date(2024, 3, 15);
            Valid(today) && LastInterval(Month, 1, true, today).from == Ordinal(Date(2024, 2, 1))
  {
    LastStartWithCurrent(Month, 1, Date(2024, 3, 15));
  }

  lemma LastStartWithCurrent(u: Unit, n: int, today: Date)
    requires Valid(today)
    ensures LastInterval(u, n, true, today).from == StartOf(u, UnitIndex(u, today) - UnitsBack(n, true))
  {
    LastStart(u, UnitsBack(n, true), today);
  }

  lemma BackCount(n: int)
    ensures UnitsBack(n, true) == n - 1 <==> n >= 2
  {
  }

  // ----- Budget windows -----

  /** Moving within a week. */
  lemma WeekPosition(n: int, k: int)
    requires 0 <= n % 7 + k <= 6
    ensures (n + k) % 7 == n % 7 + k && (n + k) / 7 == n / 7
    ensures Weekday(n + k) == if n % 7 + k == 6 then 0 else n % 7 + k + 1
  {
  }

  /** getWeekIntervalTimeSettings, on day numbers. */
  method WeekInterval(start: int) returns (from: int, to: int)
    ensures Weekday(from) == 1 && Weekday(to) == 0
    ensures to == from + 6 && from <= start <= to
    ensures from == 7 * (start / 7)
  {
    from, to := start, start;
    for i := 0 to 7
      invariant to == start + i && start % 7 + i <= 6
    {
      WeekPosition(start, i);
      if Weekday(to) == 0 {
        break;
      }
      to := to + 1;
    }
    for i := 0 to 7
      invariant from == start - i && start % 7 - i >= 0
    {
      WeekPosition(start, -i);
      if Weekday(from) == 1 {
        break;
      }
      from := from - 1;
    }
  }

  /** The window of a recurring budget, from its start date: a day, month, quarter or year up
      to the first day of the next one; a week up to its Sunday. */
  function BudgetInterval(u: Unit, start: Date): Window
    requires Valid(start)
  {
    var next := StartOf(u, UnitIndex(u, start) + 1);
    Window(StartOf(u, UnitIndex(u, start)), if u.Week? then next - 1 else next)
  }

  lemma DayInterval(start: Date)
    requires Valid(start)
    ensures BudgetInterval(Day, start) == Window(Ordinal(start), AddDate(start, 0, 0, 1))
  {
    AddDays(start, 1);
  }

  lemma MonthInterval(start: Date)
    requires Valid(start)
    ensures BudgetInterval(Month, start)
         == Window(DayNumber(start.year, start.month, 1), DayNumber(start.year, start.month + 1, 1))
  {
    MonthIndex(start.year, start.month);
    MonthIndex(start.year, start.month + 1);
  }

  lemma YearInterval(start: Date)
    requires Valid(start)
    ensures var from := MonthStart(start.year, 1);
            BudgetInterval(Year, start) == Window(Ordinal(from), AddDate(from, 1, 0, 0))
  {
    YearStart(start.year);
    YearStart(start.year + 1);
  }

  lemma WeekStart(start: Date)
    requires Valid(start)
    ensures BudgetInterval(Week, start) == var from := 7 * (Ordinal(start) / 7); Window(from, from + 6)
  {
  }

  /** A point in time: a day number and a time of day, in whatever unit. */
  datatype Moment = Moment(day: int, time: nat)

  /** Days and weeks keep the time of day they start at; the other periods start at midnight. */
  function TimeKept(u: Unit, time: nat): nat {
    if u.Day? || u.Week? then time else 0
  }

  /** The window of a recurring budget that starts at a time of day. */
  function BudgetWindow(u: Unit, start: Date, time: nat): (Moment, Moment)
    requires Valid(start)
  {
    var w := BudgetInterval(u, start);
    (Moment(w.from, TimeKept(u, time)), Moment(w.to, TimeKept(u, time)))
  }

  /** The window of a month, quarter or year starts and ends at midnight whenever it is made; that
      of a day or a week at the time of day of its start. */
  lemma BudgetTimes(u: Unit, start: Date, time: nat)
    requires Valid(start)
    ensures var (from, to) := BudgetWindow(u, start, time);
            && (u == Month || u == Quarter || u == Year ==> from.time == 0 && to.time == 0)
            && (u == Day || u == Week ==> from.time == time && to.time == time)
  {
  }

  datatype BudgetType = Fixed | Recurring | OtherType

  /** A given start: its date and its time of day. */
  datatype Start = Start(date: Date, time: nat)

  /** The zero time.Time. */
  const ZERO_START := Start(Date(1, 1, 1), 0)

  /** The start that getTimeSettings works with. */
  function StartOr(start: Option<Start>): Start {
    if start.Some? then start.value else ZERO_START
  }

  lemma ZeroStart()
    ensures Valid(ZERO_START.date) && Ordinal(ZERO_START.date) == 0 && ZERO_START.time == 0
  {
  }

  /** getTimeSettings; the period is None when it is none of the five. */
  method GetTimeSettings(start: Option<Start>, end: Option<Moment>, budgetType: BudgetType, period: Option<Unit>)
    returns (startPeriod: Moment, endPeriod: Moment)
    requires start.Some? ==> Valid(start.value.date)
    ensures var s := StartOr(start);
            var given := Moment(Ordinal(s.date), s.time);
            && Valid(s.date) && (start.None? ==> given == Moment(0, 0)) && (start.Some? ==> s == start.value)
            && (!budgetType.Recurring? ==> startPeriod == given)
            && (budgetType.Fixed? ==> endPeriod == if end.Some? then end.value else Moment(0, 0))
            && (budgetType.OtherType? ==> endPeriod == Moment(0, 0))
            && (budgetType.Recurring? ==>
                  if period.Some? then (startPeriod, endPeriod) == BudgetWindow(period.value, s.date, s.time)
                  else startPeriod == endPeriod == given)
  {
    ZeroStart();
    var s := StartOr(start);
    startPeriod, endPeriod := Moment(Ordinal(s.date), s.time), Moment(0, 0);
    if budgetType.Fixed? && end.Some? {
      endPeriod := end.value;
    }
    if budgetType.Recurring? {
      endPeriod := startPeriod;
      if period.Some? {
        var w := RecurringWindow(s.date, period.value);
        var time := if period.value.Day? || period.value.Week? then s.time else 0;
        startPeriod, endPeriod := Moment(w.from, time), Moment(w.to, time);
      }
    }
  }

  /** The switch of the recurring branch, on dates. */
  method RecurringWindow(start: Date, period: Unit) returns (w: Window)
    requires Valid(start)
    ensures w == BudgetInterval(period, start)
  {
    match period {
      case Day =>
        DayInterval(start);
        w := Window(Ordinal(start), AddDate(start, 0, 0, 1));
      case Week =>
        WeekStart(start);
        var from, to := WeekInterval(Ordinal(start));
        w := Window(from, to);
      case Month =>
        MonthInterval(start);
        w := Window(DayNumber(start.year, start.month, 1), DayNumber(start.year, start.month + 1, 1));
      case Quarter =>
        w := QuarterInterval(start);
      case Year =>
        YearInterval(start);
        var from := MonthStart(start.year, 1);
        w := Window(Ordinal(from), AddDate(from, 1, 0, 0));
    }
  }

  /** getQuarterIntervalTimeSettings. */
  function QuarterInterval(start: Date): (w: Window)
    requires Valid(start)
    ensures w == BudgetInterval(Quarter, start)
  {
    var from := MonthStart(start.year, QuarterMonth(start.month));
    QuarterOf(start);
    QuartersBack(UnitIndex(Quarter, start), 1);
    Window(Ordinal(from), AddDate(from, 0, 3, 0))
  }

  /** The days of a budget window, its end excluded except for a week. */
  predicate Covers(u: Unit, w: Window, x: Date)
    requires Valid(x)
  {
    w.from <= Ordinal(x) < w.to + if u.Week? then 1 else 0
  }

  lemma BudgetSame(u: Unit, start: Date, x: Date)
    requires Valid(start) && Valid(x)
    ensures BudgetInterval(u, x) == BudgetInterval(u, start) <==> UnitIndex(u, x) == UnitIndex(u, start)
  {
    StartsDiffer(u, UnitIndex(u, x), UnitIndex(u, start));
  }

  lemma BudgetCovers(u: Unit, start: Date, x: Date)
    requires Valid(start) && Valid(x)
    ensures Covers(u, BudgetInterval(u, start), x) <==> UnitIndex(u, x) == UnitIndex(u, start)
  {
    UnitStartsAt(u, UnitIndex(u, start), x);
    UnitStartsAt(u, UnitIndex(u, start) + 1, x);
  }

  /** Budget windows tile the calendar: a window covers exactly the days of its start date's
      unit, so every day lies in one window and in no other. */
  lemma BudgetCoversUnit(u: Unit, start: Date, x: Date)
    requires Valid(start) && Valid(x)
    ensures Covers(u, BudgetInterval(u, start), x) <==> UnitIndex(u, x) == UnitIndex(u, start)
    ensures Covers(u, BudgetInterval(u, start), x) <==> BudgetInterval(u, x) == BudgetInterval(u, start)
  {
    BudgetCovers(u, start, x);
    BudgetSame(u, start, x);
  }

  predicate Earlier(a: Moment, b: Moment) {
    a.day < b.day || (a.day == b.day && a.time < b.time)
  }

  /** A window holds the moment it was made from; its end is later, except for a week, whose end
      may be that very moment. */
  lemma BudgetHoldsStart(u: Unit, start: Date, time: nat)
    requires Valid(start)
    ensures var (from, to) := BudgetWindow(u, start, time);
            var given := Moment(Ordinal(start), time);
            && (from.day < given.day || (from.day == given.day && from.time <= given.time))
            && (given.day < to.day
                || (given.day == to.day && (given.time < to.time || (u.Week? && given.time == to.time))))
  {
    BudgetCovers(u, start, start);
  }

  /** Two starts have the same window exactly when they lie in the same unit and, for days and
      weeks, at the same time of day. */
  lemma BudgetSameWindow(u: Unit, start: Date, time: nat, x: Date, timeX: nat)
    requires Valid(start) && Valid(x)
    ensures BudgetWindow(u, x, timeX) == BudgetWindow(u, start, time)
       <==> UnitIndex(u, x) == UnitIndex(u, start) && TimeKept(u, timeX) == TimeKept(u, time)
  {
    BudgetSame(u, start, x);
  }

  /** Recomputed from its own start, a window stays the same. */
  lemma BudgetFixed(u: Unit, start: Date, time: nat, first: Date)
    requires Valid(start) && Valid(first) && Ordinal(first) == BudgetWindow(u, start, time).0.day
    ensures BudgetWindow(u, first, BudgetWindow(u, start, time).0.time) == BudgetWindow(u, start, time)
  {
    StartIsOwn(u, UnitIndex(u, start), first);
    BudgetSame(u, start, first);
  }

  /** Recomputed from its end it is the next window, which starts right there; except for a
      week, whose end is still its own. */
  lemma BudgetNext(u: Unit, start: Date, time: nat, last: Date)
    requires Valid(start) && Valid(last) && Ordinal(last) == BudgetWindow(u, start, time).1.day
    ensures var (from, to) := BudgetWindow(u, start, time);
            var next := BudgetWindow(u, last, to.time);
            if u.Week? then next == (from, to) else next.0 == to && Earlier(from, to)
  {
    NextInterval(u, start, last);
  }

  lemma NextInterval(u: Unit, start: Date, last: Date)
    requires Valid(start) && Valid(last) && Ordinal(last) == BudgetInterval(u, start).to
    ensures if u.Week? then BudgetInterval(u, last) == BudgetInterval(u, start)
            else BudgetInterval(u, last).from == BudgetInterval(u, start).to > BudgetInterval(u, start).from
  {
    NextUnit(u, start, last);
    if u.Week? {
      BudgetSame(u, start, last);
    } else {
      StartsGrow(u, UnitIndex(u, start), UnitIndex(u, start) + 1);
    }
  }

  lemma NextUnit(u: Unit, start: Date, last: Date)
    requires Valid(start) && Valid(last) && Ordinal(last) == BudgetInterval(u, start).to
    ensures UnitIndex(u, last) == UnitIndex(u, start) + if u.Week? then 0 else 1
  {
    var next := UnitIndex(u, start) + 1;
    if u.Week? {
      UnitStartsAt(u, next, last);
      UnitStartsAt(u, next - 1, last);
    } else {
      StartIsOwn(u, next, last);
    }
  }
}
