/** The hourly billing rows of one customer: a table that is only appended to, and the "recent"
    view that keeps the latest row of every hour.

    Hours are counted from a fixed midnight, days likewise; a month is its first day and the
    number of its days. */
module BillingExport {
  import opened GoMaps
  import opened Wrappers

  /** A billing row, as far as the export depends on it: the hour it starts and its cost. */
  datatype Row = Row(hour: int, cost: real)

  const HOURS_IN_A_DAY := 24
  const SIX_DECIMAL_PLACES := 1000000.0

  // ----- The view -----

  /** The latest row of every hour. */
  function View(rows: seq<Row>): map<int, real> {
    if rows == [] then map[]
    else
      var last := rows[|rows| - 1];
      View(rows[..|rows| - 1])[last.hour := last.cost]
  }

  datatype Month = Month(firstDay: int, length: nat)

  predicate InMonth(m: Month, hour: int) {
    HOURS_IN_A_DAY * m.firstDay <= hour < HOURS_IN_A_DAY * (m.firstDay + m.length)
  }

  /** The part of the view that checkForActiveOrderData queries. */
  function MonthView(rows: seq<Row>, m: Month): map<int, real> {
    map h | h in View(rows) && InMonth(m, h) :: View(rows)[h]
  }

  function HoursAt(view: map<int, real>, cost: real): set<int> {
    set h | h in view && view[h] == cost
  }

  /** What checkForActiveOrderData may return for a view: zeros when there is nothing, and else
      the size and the cost of one of the groups of equal cost; which one is not fixed. */
  predicate SavedGroup(view: map<int, real>, count: nat, cost: real) {
    if view == map[] then count == 0 && cost == 0.0
    else cost in view.Values && count == |HoursAt(view, cost)|
  }

  // ----- Rows -----

  /** n rows of the same cost for consecutive hours. */
  function HourRows(start: int, n: nat, cost: real): seq<Row> {
    seq(n, i => Row(start + i, cost))
  }

  function Clamp(hours: int, days: int): nat {
    var most := if days < 0 then 0 else HOURS_IN_A_DAY * days;
    if hours < 0 then 0 else if hours < most then hours else most
  }

  /** createNewBillingItemsForHours. */
  method CreateNewBillingItemsForHours(usageDay: int, hours: int, savings: real) returns (items: seq<Row>)
    ensures items == HourRows(HOURS_IN_A_DAY * usageDay, if hours < 0 then 0 else hours, savings)
  {
    items := [];
    var hour := 0;
    while hour < hours
      invariant 0 <= hour && (hour <= hours || hour == 0)
      invariant items == HourRows(HOURS_IN_A_DAY * usageDay, hour, savings)
    {
      items := items + [Row(HOURS_IN_A_DAY * usageDay + hour, savings)];
      hour := hour + 1;
    }
  }

  /** createNewBillingItemForDays: min(max(hours, 0), 24 * days) rows, one for every hour from
      the first midnight on. */
  method CreateNewBillingItemForDays(days: int, firstDay: int, hours: int, savings: real, given: seq<Row>)
    returns (items: seq<Row>)
    ensures items == given + HourRows(HOURS_IN_A_DAY * firstDay, Clamp(hours, days), savings)
  {
    items := given;
    var hoursLeft := hours;
    var hoursToCreate := HOURS_IN_A_DAY;
    var day := 0;
    assert items == given + HourRows(HOURS_IN_A_DAY * firstDay, 0, savings);
    while day < days
      invariant 0 <= day && (day <= days || day == 0)
      invariant hoursLeft == hours - HOURS_IN_A_DAY * day
      invariant hoursToCreate == HOURS_IN_A_DAY || (hoursToCreate < HOURS_IN_A_DAY && hoursLeft <= 0)
      invariant items == given + HourRows(HOURS_IN_A_DAY * firstDay, Clamp(hours, day), savings)
    {
      var usageDay := firstDay + day;
      if hoursLeft < HOURS_IN_A_DAY {
        hoursToCreate := hoursLeft;
      }
      var newItems := CreateNewBillingItemsForHours(usageDay, hoursToCreate, savings);
      HourRowsAppend(HOURS_IN_A_DAY * firstDay, Clamp(hours, day), |newItems|, savings);
      assert |newItems| == Clamp(hours, day + 1) - Clamp(hours, day);
      assert |newItems| > 0 ==> Clamp(hours, day) == HOURS_IN_A_DAY * day;
      items := items + newItems;
      hoursLeft := hoursLeft - HOURS_IN_A_DAY;
      day := day + 1;
    }
  }

  lemma HourRowsAppend(start: int, n: nat, m: nat, cost: real)
    ensures HourRows(start, n, cost) + HourRows(start + n, m, cost) == HourRows(start, n + m, cost)
  {
  }

  // ----- One run -----

  /** math.Round: to the nearest whole number, halves away from zero. */
  function Round(x: real): real {
    if x >= 0.0 then (x + 0.5).Floor as real else -((-x + 0.5).Floor as real)
  }

  /** The saving of one hour, in whole millionths. */
  function HourlySavings(total: real, day: nat): real
    requires day > 0
  {
    Round(total / (HOURS_IN_A_DAY * day) as real * SIX_DECIMAL_PLACES) / SIX_DECIMAL_PLACES
  }

  /** Nothing to do: the saving is unchanged and there is a row for every hour so far. */
  predicate UpToDate(total: real, day: nat, count: nat, saved: real)
    requires day > 0
  {
    count >= HOURS_IN_A_DAY * day && HourlySavings(total, day) == saved
  }

  /** The rows of a full rewrite. */
  function RewriteRows(m: Month, total: real, day: nat): seq<Row>
    requires day > 0
  {
    HourRows(HOURS_IN_A_DAY * m.firstDay, HOURS_IN_A_DAY * day, HourlySavings(total, day))
  }

  /** The rows a run appends, given what the query returned. */
  function NewRows(m: Month, total: real, day: nat, count: nat, saved: real): seq<Row>
    requires day > 0
  {
    var hours := HOURS_IN_A_DAY * day;
    var savings := HourlySavings(total, day);
    if UpToDate(total, day, count, saved) then []
    else if savings == saved then
      var missing := hours - count;
      var days := missing / HOURS_IN_A_DAY;
      HourRows(HOURS_IN_A_DAY * (m.firstDay + day - days), Clamp(missing, days), savings)
    else RewriteRows(m, total, day)
  }

  /** The table, append-only. */
  class BillingTable {
    var rows: seq<Row>

    constructor ()
      ensures rows == []
    {
      rows := [];
    }

    /** CreateBillingLineItems, on the day-th day of month m.  saved is what the query returned,
        or None when it failed; stored says whether the insertion succeeded.  A failed run
        leaves the table alone. */
    method CreateBillingLineItems(m: Month, totalSavings: real, day: nat, saved: Option<(nat, real)>, stored: bool)
      returns (ok: bool)
      requires 0 < day <= m.length
      requires saved.Some? ==> SavedGroup(MonthView(rows, m), saved.value.0, saved.value.1)
      modifies this
      ensures ok <==> saved.Some? && (stored || (saved.value.0 >= 24 * day
                                                 && HourlySavings(totalSavings, day) == saved.value.1))
      ensures ok == Succeeds(Run(day, totalSavings, saved, stored))
      ensures rows == AfterRun(old(rows), m, Run(day, totalSavings, saved, stored))
      ensures rows == if ok then old(rows) + NewRows(m, totalSavings, day, saved.value.0, saved.value.1) else old(rows)
    {
      var hoursSoFar := day * HOURS_IN_A_DAY;
      var savings := HourlySavings(totalSavings, day);
      if saved.None? {
        return false;
      }
      var (numberOfHoursSaved, savedSavings) := saved.value;
      if numberOfHoursSaved >= hoursSoFar && savings == savedSavings {
        return true;
      }
      var eligibleHours, days, firstDay := hoursSoFar, day, m.firstDay;
      if savings == savedSavings {
        eligibleHours := hoursSoFar - numberOfHoursSaved;
        days := eligibleHours / HOURS_IN_A_DAY;
        firstDay := m.firstDay + day - 1 + (-days + 1);
      }
      var items := CreateNewBillingItemForDays(days, firstDay, eligibleHours, savings, []);
      if !stored {
        return false;
      }
      rows := rows + items;
      return true;
    }
  }

  // ----- What the view holds -----

  predicate Within(h: int, start: int, n: nat) {
    start <= h < start + n
  }

  /** n consecutive hours of the same cost. */
  function Block(start: int, n: nat, cost: real): map<int, real> {
    map h | start <= h < start + n && Within(h, start, n) :: cost
  }

  /** Exactly one row for each hour of days 1..day of the month, all of the same cost. */
  function Uniform(m: Month, day: nat, cost: real): map<int, real> {
    Block(HOURS_IN_A_DAY * m.firstDay, HOURS_IN_A_DAY * day, cost)
  }

  lemma ViewPush(rows: seq<Row>, r: Row)
    ensures View(rows + [r]) == View(rows)[r.hour := r.cost]
  {
    assert (rows + [r])[..|rows|] == rows;
  }

  lemma BlockGrow(start: int, n: nat, cost: real)
    ensures Block(start, n + 1, cost) == Block(start, n, cost)[start + n := cost]
  {
  }

  lemma BlockOverNothing(view: map<int, real>, start: int, cost: real)
    ensures view + Block(start, 0, cost) == view
  {
  }

  lemma BlockOver(view: map<int, real>, start: int, n: nat, cost: real)
    ensures (view + Block(start, n, cost))[start + n := cost] == view + Block(start, n + 1, cost)
  {
    BlockGrow(start, n, cost);
    UpdateSum(view, Block(start, n, cost), start + n, cost);
  }

  lemma LastRow(rows: seq<Row>, start: int, n: nat, cost: real)
    ensures rows + HourRows(start, n + 1, cost) == (rows + HourRows(start, n, cost)) + [Row(start + n, cost)]
  {
  }

  lemma {:induction false} ViewAppend(rows: seq<Row>, start: int, n: nat, cost: real)
    ensures View(rows + HourRows(start, n, cost)) == View(rows) + Block(start, n, cost)
  {
    if n == 0 {
      assert rows + HourRows(start, 0, cost) == rows;
      BlockOverNothing(View(rows), start, cost);
    } else {
      ViewAppend(rows, start, n - 1, cost);
      ViewAppendOne(rows, start, n - 1, cost);
    }
  }

  lemma ViewAppendOne(rows: seq<Row>, start: int, n: nat, cost: real)
    requires View(rows + HourRows(start, n, cost)) == View(rows) + Block(start, n, cost)
    ensures View(rows + HourRows(start, n + 1, cost)) == View(rows) + Block(start, n + 1, cost)
  {
    LastRow(rows, start, n, cost);
    ViewPush(rows + HourRows(start, n, cost), Row(start + n, cost));
    BlockOver(View(rows), start, n, cost);
  }

  /** Appended rows of the month write over its view. */
  lemma MonthViewAppend(rows: seq<Row>, m: Month, start: int, n: nat, cost: real)
    requires n > 0 ==> InMonth(m, start) && InMonth(m, start + n - 1)
    ensures MonthView(rows + HourRows(start, n, cost), m) == MonthView(rows, m) + Block(start, n, cost)
  {
    ViewAppend(rows, start, n, cost);
    forall h | h in Block(start, n, cost) ensures InMonth(m, h) {
      assert Within(h, start, n);
    }
  }

  lemma UniformSize(m: Month, day: nat, cost: real)
    ensures |HoursAt(Uniform(m, day, cost), cost)| == HOURS_IN_A_DAY * day
    ensures day > 0 ==> Uniform(m, day, cost) != map[] && Uniform(m, day, cost).Values == {cost}
    ensures Uniform(m, 0, cost) == map[]
  {
    var first, u := HOURS_IN_A_DAY * m.firstDay, Uniform(m, day, cost);
    assert HoursAt(u, cost) == u.Keys;
    BlockSize(first, HOURS_IN_A_DAY * day, cost);
    if day > 0 {
      assert first in u && u[first] == cost;
    }
  }

  lemma {:induction false} BlockSize(start: int, n: nat, cost: real)
    ensures |Block(start, n, cost).Keys| == n
  {
    if n == 0 {
      assert Block(start, 0, cost).Keys == {};
    } else {
      BlockSize(start, n - 1, cost);
      BlockKeys(start, n - 1, cost);
    }
  }

  lemma BlockKeys(start: int, n: nat, cost: real)
    ensures start + n !in Block(start, n, cost)
    ensures Block(start, n + 1, cost).Keys == Block(start, n, cost).Keys + {start + n}
  {
    BlockGrow(start, n, cost);
  }

  /** What the query can return for a uniform view is fixed. */
  lemma SavedOfUniform(m: Month, day: nat, cost: real, count: nat, saved: real)
    requires SavedGroup(Uniform(m, day, cost), count, saved)
    ensures count == HOURS_IN_A_DAY * day && saved == if day == 0 then 0.0 else cost
  {
    UniformSize(m, day, cost);
  }

  /** The view holds the cost of the last row of an hour, for every hour that has one. */
  lemma {:induction false} ViewHolds(rows: seq<Row>, i: nat)
    requires i < |rows| && forall j | i < j < |rows| :: rows[j].hour != rows[i].hour
    ensures rows[i].hour in View(rows) && View(rows)[rows[i].hour] == rows[i].cost
    decreases |rows|
  {
    if i < |rows| - 1 {
      ViewHolds(rows[..|rows| - 1], i);
    }
  }

  lemma {:induction false} ViewHoldsOnly(rows: seq<Row>, h: int)
    requires forall j | 0 <= j < |rows| :: rows[j].hour != h
    ensures h !in View(rows)
    decreases |rows|
  {
    if rows != [] {
      ViewHoldsOnly(rows[..|rows| - 1], h);
    }
  }

  /** What the query is made over: the view from the first midnight of the month to the first of
      the next. */
  lemma MonthViewIs(rows: seq<Row>, m: Month, h: int)
    ensures h in MonthView(rows, m) <==> h in View(rows) && 24 * m.firstDay <= h < 24 * (m.firstDay + m.length)
    ensures h in MonthView(rows, m) ==> MonthView(rows, m)[h] == View(rows)[h]
  {
  }

  /** The rows a run appends: one for every hour, at the hour's saving, from the first midnight of
      the month when the saving has changed, else for as many whole days up to the run's as are
      missing. */
  lemma RowsAppended(m: Month, total: real, day: nat, count: nat, saved: real, h: int, x: real)
    requires day > 0
    ensures var s, rows := HourlySavings(total, day), NewRows(m, total, day, count, saved);
            var there := if s != saved then 0 else if count >= 24 * day then day else day - (24 * day - count) / 24;
            && |rows| == 24 * (day - there)
            && (Row(h, x) in rows <==> x == s && 24 * (m.firstDay + there) <= h < 24 * (m.firstDay + day))
  {
    NewRowsFrom(m, total, day, count, saved);
    var first := FirstAppended(m, total, day, count, saved);
    HourRowsHold(first, 24 * (m.firstDay + day) - first, HourlySavings(total, day), h, x);
  }

  lemma HourRowsHold(start: int, n: nat, cost: real, h: int, x: real)
    ensures Row(h, x) in HourRows(start, n, cost) <==> x == cost && start <= h < start + n
  {
    if x == cost && start <= h < start + n {
      assert HourRows(start, n, cost)[h - start] == Row(h, x);
    }
  }

  // ----- One run on any view -----

  /** The hour the rows of a run start with; they go on to the end of its day.  A run that
      appends nothing would start where it ends. */
  function FirstAppended(m: Month, total: real, day: nat, count: nat, saved: real): int
    requires day > 0
  {
    var hours := HOURS_IN_A_DAY * day;
    if HourlySavings(total, day) != saved then HOURS_IN_A_DAY * m.firstDay
    else if count >= hours then HOURS_IN_A_DAY * (m.firstDay + day)
    else HOURS_IN_A_DAY * (m.firstDay + day - (hours - count) / HOURS_IN_A_DAY)
  }

  lemma NewRowsFrom(m: Month, total: real, day: nat, count: nat, saved: real)
    requires day > 0
    ensures var first, end := FirstAppended(m, total, day, count, saved), HOURS_IN_A_DAY * (m.firstDay + day);
            && HOURS_IN_A_DAY * m.firstDay <= first <= end
            && NewRows(m, total, day, count, saved) == HourRows(first, end - first, HourlySavings(total, day))
  {
  }

  /** The view holds that cost at every hour of the range. */
  predicate HoldsBetween(view: map<int, real>, from: int, to: int, cost: real) {
    forall h | from <= h < to :: h in view && view[h] == cost
  }

  predicate NothingFrom(view: map<int, real>, end: int) {
    forall h | h in view :: h < end
  }

  /** What a run does not write is there already, at the saving it would have written. */
  predicate RestInPlace(view: map<int, real>, m: Month, total: real, day: nat, count: nat, saved: real)
    requires day > 0
  {
    HoldsBetween(view, HOURS_IN_A_DAY * m.firstDay, FirstAppended(m, total, day, count, saved),
                 HourlySavings(total, day))
  }

  lemma BlockAt(start: int, n: nat, cost: real, h: int)
    ensures h in Block(start, n, cost) <==> start <= h < start + n
    ensures h in Block(start, n, cost) ==> Block(start, n, cost)[h] == cost
  {
    assert start <= h < start + n ==> Within(h, start, n);
  }

  /** The hours from start to end, all of the same cost. */
  function Span(start: int, end: int, cost: real): map<int, real>
    requires start <= end
  {
    Block(start, end - start, cost)
  }

  /** Rows written from an hour on are as good as rows written from an earlier one exactly when
      what lies between is there already. */
  lemma LateStart(view: map<int, real>, first: int, start: int, end: int, cost: real)
    requires first <= start <= end
    ensures view + Span(start, end, cost) == view + Span(first, end, cost)
       <==> HoldsBetween(view, first, start, cost)
  {
    var late, all := view + Span(start, end, cost), view + Span(first, end, cost);
    if HoldsBetween(view, first, start, cost) {
      forall h ensures h in late <==> h in all
               ensures h in late ==> late[h] == all[h]
      {
        BlockAt(start, end - start, cost, h);
        BlockAt(first, end - first, cost, h);
      }
    } else {
      var h :| first <= h < start && !(h in view && view[h] == cost);
      BlockAt(start, end - start, cost, h);
      BlockAt(first, end - first, cost, h);
      assert h in all && all[h] == cost;
      assert !(h in late && late[h] == cost);
    }
  }

  /** The same, with nothing else in the view. */
  lemma LateStartUniform(view: map<int, real>, first: int, start: int, end: int, cost: real)
    requires first <= start <= end && forall h | h in view :: first <= h
    ensures view + Span(start, end, cost) == Span(first, end, cost)
       <==> HoldsBetween(view, first, start, cost) && NothingFrom(view, end)
  {
    var sum, all := view + Span(start, end, cost), Span(first, end, cost);
    if HoldsBetween(view, first, start, cost) && NothingFrom(view, end) {
      forall h ensures h in sum <==> h in all
               ensures h in sum ==> sum[h] == all[h]
      {
        BlockAt(start, end - start, cost, h);
        BlockAt(first, end - first, cost, h);
      }
    } else {
      var h := if NothingFrom(view, end) then NotHeld(view, first, start, cost) else Later(view, end);
      BlockAt(start, end - start, cost, h);
      BlockAt(first, end - first, cost, h);
      assert h in sum && h in all ==> sum[h] != all[h];
    }
  }

  ghost function NotHeld(view: map<int, real>, from: int, to: int, cost: real): (h: int)
    requires !HoldsBetween(view, from, to, cost)
    ensures from <= h < to && !(h in view && view[h] == cost)
  {
    var h :| from <= h < to && !(h in view && view[h] == cost);
    h
  }

  ghost function Later(view: map<int, real>, end: int): (h: int)
    requires !NothingFrom(view, end)
    ensures h in view && h >= end
  {
    var h :| h in view && h >= end;
    h
  }

  lemma ViewAfterRun(rows: seq<Row>, m: Month, total: real, day: nat, count: nat, saved: real)
    requires 0 < day <= m.length
    ensures var first, end := FirstAppended(m, total, day, count, saved), HOURS_IN_A_DAY * (m.firstDay + day);
            && first <= end
            && MonthView(rows + NewRows(m, total, day, count, saved), m)
               == MonthView(rows, m) + Span(first, end, HourlySavings(total, day))
  {
    NewRowsFrom(m, total, day, count, saved);
    var first, end := FirstAppended(m, total, day, count, saved), HOURS_IN_A_DAY * (m.firstDay + day);
    MonthViewAppend(rows, m, first, end - first, HourlySavings(total, day));
  }

  lemma ViewAfterRewrite(rows: seq<Row>, m: Month, total: real, day: nat)
    requires 0 < day <= m.length
    ensures var first, end := HOURS_IN_A_DAY * m.firstDay, HOURS_IN_A_DAY * (m.firstDay + day);
            MonthView(rows + RewriteRows(m, total, day), m)
            == MonthView(rows, m) + Span(first, end, HourlySavings(total, day))
  {
    MonthViewAppend(rows, m, HOURS_IN_A_DAY * m.firstDay, HOURS_IN_A_DAY * day, HourlySavings(total, day));
  }

  /** One run on any table, whatever the query answered and whichever path is taken: the view
      afterwards is that of a full rewrite exactly when the hours the run does not write are in
      place. */
  lemma RunIsRewrite(rows: seq<Row>, m: Month, total: real, day: nat, count: nat, saved: real)
    requires 0 < day <= m.length
    ensures MonthView(rows + NewRows(m, total, day, count, saved), m)
         == MonthView(rows + RewriteRows(m, total, day), m)
       <==> RestInPlace(MonthView(rows, m), m, total, day, count, saved)
  {
    var start, end := FirstAppended(m, total, day, count, saved), HOURS_IN_A_DAY * (m.firstDay + day);
    StartInRange(m, total, day, count, saved);
    ViewAfterRun(rows, m, total, day, count, saved);
    ViewAfterRewrite(rows, m, total, day);
    LateStart(MonthView(rows, m), HOURS_IN_A_DAY * m.firstDay, start, end, HourlySavings(total, day));
  }

  lemma StartInRange(m: Month, total: real, day: nat, count: nat, saved: real)
    requires day > 0
    ensures HOURS_IN_A_DAY * m.firstDay <= FirstAppended(m, total, day, count, saved)
    ensures FirstAppended(m, total, day, count, saved) <= HOURS_IN_A_DAY * (m.firstDay + day)
  {
  }

  /** And it holds exactly one row for each hour of days 1..day, all at the run's saving, exactly
      when moreover there was no row of a later hour. */
  lemma RunLeavesUniform(rows: seq<Row>, m: Month, total: real, day: nat, count: nat, saved: real)
    requires 0 < day <= m.length
    ensures MonthView(rows + NewRows(m, total, day, count, saved), m) == Uniform(m, day, HourlySavings(total, day))
       <==> && RestInPlace(MonthView(rows, m), m, total, day, count, saved)
            && NothingFrom(MonthView(rows, m), HOURS_IN_A_DAY * (m.firstDay + day))
  {
    var start, end := FirstAppended(m, total, day, count, saved), HOURS_IN_A_DAY * (m.firstDay + day);
    StartInRange(m, total, day, count, saved);
    ViewAfterRun(rows, m, total, day, count, saved);
    LateStartUniform(MonthView(rows, m), HOURS_IN_A_DAY * m.firstDay, start, end, HourlySavings(total, day));
  }

  lemma UniformReaches(m: Month, last: nat, cost: real, day: nat)
    ensures NothingFrom(Uniform(m, last, cost), HOURS_IN_A_DAY * (m.firstDay + day)) <==> last <= day
  {
    var end := HOURS_IN_A_DAY * (m.firstDay + day);
    BlockAt(HOURS_IN_A_DAY * m.firstDay, HOURS_IN_A_DAY * last, cost, end);
  }

  /** On a uniform view, which runs in order leave, only later days can be in the way: the query
      has one answer, and what a run does not write is in place. */
  lemma RunOnUniform(rows: seq<Row>, m: Month, last: nat, cost: real, total: real, day: nat, count: nat, saved: real)
    requires MonthView(rows, m) == Uniform(m, last, cost)
    requires 0 < day <= m.length && SavedGroup(MonthView(rows, m), count, saved)
    ensures MonthView(rows + NewRows(m, total, day, count, saved), m) == Uniform(m, day, HourlySavings(total, day))
       <==> last <= day
  {
    SavedOfUniform(m, last, cost, count, saved);
    RunLeavesUniform(rows, m, total, day, count, saved);
    UniformReaches(m, last, cost, day);
    if last <= day {
      UniformInPlace(m, last, cost, total, day);
    }
  }

  lemma UniformInPlace(m: Month, last: nat, cost: real, total: real, day: nat)
    requires 0 < day && last <= day
    ensures RestInPlace(Uniform(m, last, cost), m, total, day, HOURS_IN_A_DAY * last, if last == 0 then 0.0 else cost)
  {
    var saved := if last == 0 then 0.0 else cost;
    var first := FirstAppended(m, total, day, HOURS_IN_A_DAY * last, saved);
    if HourlySavings(total, day) == saved {
      assert first == HOURS_IN_A_DAY * (m.firstDay + last);
      forall h | HOURS_IN_A_DAY * m.firstDay <= h < first
        ensures h in Uniform(m, last, cost) && Uniform(m, last, cost)[h] == saved
      {
        BlockAt(HOURS_IN_A_DAY * m.firstDay, HOURS_IN_A_DAY * last, cost, h);
      }
    }
  }

  // ----- Runs over a month -----

  /** One run: its day and total, what it was told of the saved rows, and whether its rows
      were stored. */
  datatype Run = Run(day: nat, total: real, saved: Option<(nat, real)>, stored: bool)

  predicate Succeeds(r: Run)
    requires r.day > 0
  {
    r.saved.Some? && (r.stored || UpToDate(r.total, r.day, r.saved.value.0, r.saved.value.1))
  }

  function AfterRun(rows: seq<Row>, m: Month, r: Run): seq<Row>
    requires r.day > 0
  {
    if Succeeds(r) then rows + NewRows(m, r.total, r.day, r.saved.value.0, r.saved.value.1) else rows
  }

  function AfterRuns(rows: seq<Row>, m: Month, runs: seq<Run>): seq<Row>
    requires forall r | r in runs :: r.day > 0
  {
    if runs == [] then rows
    else AfterRun(AfterRuns(rows, m, runs[..|runs| - 1]), m, runs[|runs| - 1])
  }

  /** Every run is told the truth about the rows it finds. */
  predicate Informed(rows: seq<Row>, m: Month, runs: seq<Run>)
    requires forall r | r in runs :: r.day > 0
  {
    runs == [] ||
    var before, r := runs[..|runs| - 1], runs[|runs| - 1];
    && Informed(rows, m, before)
    && (r.saved.Some? ==> SavedGroup(MonthView(AfterRuns(rows, m, before), m), r.saved.value.0, r.saved.value.1))
  }

  predicate DaysNeverFall(m: Month, runs: seq<Run>) {
    && (forall i | 0 <= i < |runs| :: 0 < runs[i].day <= m.length)
    && forall i, j | 0 <= i < j < |runs| :: runs[i].day <= runs[j].day
  }

  /** The table of an export that rewrites the month whenever a run succeeds. */
  function Rewritten(rows: seq<Row>, m: Month, runs: seq<Run>): seq<Row>
    requires forall r | r in runs :: r.day > 0
  {
    if runs == [] then rows
    else
      var before, r := Rewritten(rows, m, runs[..|runs| - 1]), runs[|runs| - 1];
      if Succeeds(r) then
        before + RewriteRows(m, r.total, r.day)
      else before
  }

  /** The day and the hourly saving of the last run that succeeded; day 0 if none did. */
  function Current(runs: seq<Run>): (nat, real)
    requires forall r | r in runs :: r.day > 0
  {
    if runs == [] then (0, 0.0)
    else
      var r := runs[|runs| - 1];
      if Succeeds(r) then (r.day, HourlySavings(r.total, r.day)) else Current(runs[..|runs| - 1])
  }

  /** The incremental export refines the full rewrite.  From an empty month, over any runs
      whose days never fall, both views hold exactly one row for each hour up to the last
      successful run's day, at that run's saving, whichever of the three paths the runs took. */
  lemma {:induction false} IncrementalRefinesRewrite(rows: seq<Row>, m: Month, runs: seq<Run>)
    requires MonthView(rows, m) == map[] && DaysNeverFall(m, runs)
    requires Informed(rows, m, runs)
    ensures var (day, savings) := Current(runs);
            && day <= (if runs == [] then 0 else runs[|runs| - 1].day)
            && MonthView(AfterRuns(rows, m, runs), m) == Uniform(m, day, savings)
    ensures MonthView(Rewritten(rows, m, runs), m) == MonthView(AfterRuns(rows, m, runs), m)
    decreases |runs|
  {
    if runs == [] {
      UniformSize(m, 0, 0.0);
    } else {
      var before, r := runs[..|runs| - 1], runs[|runs| - 1];
      IncrementalRefinesRewrite(rows, m, before);
      if Succeeds(r) {
        var (last, cost) := Current(before);
        RunOnUniform(AfterRuns(rows, m, before), m, last, cost, r.total, r.day, r.saved.value.0, r.saved.value.1);
        RewriteOnUniform(Rewritten(rows, m, before), m, last, cost, r.total, r.day);
      }
    }
  }

  lemma RewriteOnUniform(rows: seq<Row>, m: Month, last: nat, cost: real, total: real, day: nat)
    requires MonthView(rows, m) == Uniform(m, last, cost) && last <= day && 0 < day <= m.length
    ensures MonthView(rows + RewriteRows(m, total, day), m) == Uniform(m, day, HourlySavings(total, day))
  {
    var first, end := HOURS_IN_A_DAY * m.firstDay, HOURS_IN_A_DAY * (m.firstDay + day);
    ViewAfterRewrite(rows, m, total, day);
    UniformReaches(m, last, cost, day);
    LateStartUniform(MonthView(rows, m), first, first, end, HourlySavings(total, day));
  }

  // ----- Runs in any order -----

  predicate WithinMonth(m: Month, runs: seq<Run>) {
    forall r | r in runs :: 0 < r.day <= m.length
  }

  /** Every run that succeeded found the hours it did not write in place. */
  predicate AllInPlace(rows: seq<Row>, m: Month, runs: seq<Run>)
    requires WithinMonth(m, runs)
  {
    runs == [] ||
    var before, r := runs[..|runs| - 1], runs[|runs| - 1];
    && AllInPlace(rows, m, before)
    && (Succeeds(r) ==>
          RestInPlace(MonthView(AfterRuns(rows, m, before), m), m, r.total, r.day, r.saved.value.0, r.saved.value.1))
  }

  /** After every run the view was that of the export that rewrites the month. */
  predicate SameViews(rows: seq<Row>, m: Month, runs: seq<Run>)
    requires WithinMonth(m, runs)
  {
    && MonthView(AfterRuns(rows, m, runs), m) == MonthView(Rewritten(rows, m, runs), m)
    && (runs == [] || SameViews(rows, m, runs[..|runs| - 1]))
  }

  lemma SameRewrite(a: seq<Row>, b: seq<Row>, m: Month, total: real, day: nat)
    requires MonthView(a, m) == MonthView(b, m) && 0 < day <= m.length
    ensures MonthView(a + RewriteRows(m, total, day), m) == MonthView(b + RewriteRows(m, total, day), m)
  {
    ViewAfterRewrite(a, m, total, day);
    ViewAfterRewrite(b, m, total, day);
  }

  lemma OneRunMore(table: seq<Row>, rewritten: seq<Row>, m: Month, r: Run)
    requires MonthView(table, m) == MonthView(rewritten, m) && 0 < r.day <= m.length && Succeeds(r)
    ensures MonthView(AfterRun(table, m, r), m) == MonthView(rewritten + RewriteRows(m, r.total, r.day), m)
       <==> RestInPlace(MonthView(table, m), m, r.total, r.day, r.saved.value.0, r.saved.value.1)
  {
    RunIsRewrite(table, m, r.total, r.day, r.saved.value.0, r.saved.value.1);
    SameRewrite(table, rewritten, m, r.total, r.day);
  }

  /** Over any runs on any table, in whatever order their days come and whatever the query
      answered, the incremental export keeps the view of the rewriting one exactly when every run
      finds in place what it does not write. */
  lemma {:induction false} IncrementalIsRewriteIff(rows: seq<Row>, m: Month, runs: seq<Run>)
    requires WithinMonth(m, runs)
    ensures SameViews(rows, m, runs) <==> AllInPlace(rows, m, runs)
    decreases |runs|
  {
    if runs != [] {
      var before, r := runs[..|runs| - 1], runs[|runs| - 1];
      IncrementalIsRewriteIff(rows, m, before);
      if Succeeds(r) && SameViews(rows, m, before) {
        OneRunMore(AfterRuns(rows, m, before), Rewritten(rows, m, before), m, r);
      }
    }
  }

  // ----- Days that fall -----

  lemma FallingSavings()
    ensures HourlySavings(120.0, 5) == 1.0 && HourlySavings(144.0, 3) == 2.0 && HourlySavings(144.0, 6) == 1.0
  {
    assert 120.0 / 120.0 == 1.0 && 144.0 / 72.0 == 2.0 && 144.0 / 144.0 == 1.0;
    assert Round(1000000.0) == 1000000.0 && Round(2000000.0) == 2000000.0;
  }

  /** A month of two savings, as a run on an earlier day leaves it: day 5 at 1, then day 3 at 2. */
  function Mixed(m: Month): map<int, real> {
    Uniform(m, 5, 1.0) + Uniform(m, 3, 2.0)
  }

  lemma MixedAt(m: Month, h: int)
    ensures var first := HOURS_IN_A_DAY * m.firstDay;
            && (h in Mixed(m) <==> first <= h < first + 120)
            && (h in Mixed(m) ==> Mixed(m)[h] == if h < first + 72 then 2.0 else 1.0)
  {
    BlockAt(HOURS_IN_A_DAY * m.firstDay, 120, 1.0, h);
    BlockAt(HOURS_IN_A_DAY * m.firstDay, 72, 2.0, h);
  }

  lemma MixedGroup(m: Month)
    ensures SavedGroup(Mixed(m), 48, 1.0)
  {
    var start := HOURS_IN_A_DAY * m.firstDay + 72;
    var group := HoursAt(Mixed(m), 1.0);
    forall h ensures h in group <==> h in Block(start, 48, 1.0).Keys {
      MixedAt(m, h);
      BlockAt(start, 48, 1.0, h);
    }
    assert group == Block(start, 48, 1.0).Keys;
    BlockSize(start, 48, 1.0);
    MixedAt(m, start);
    assert start in Mixed(m) && Mixed(m)[start] == 1.0;
  }

  /** Three runs, each told the truth, each storing its rows: days 5, 3 and 6. */
  const FALLING: seq<Run> := [Run(5, 120.0, Some((0, 0.0)), true), Run(3, 144.0, Some((120, 1.0)), true),
                              Run(6, 144.0, Some((48, 1.0)), true)]

  lemma FirstTwoTables(m: Month)
    requires m.length >= 6
    ensures AfterRuns([], m, FALLING[..1]) == RewriteRows(m, 120.0, 5)
    ensures AfterRuns([], m, FALLING[..2]) == RewriteRows(m, 120.0, 5) + RewriteRows(m, 144.0, 3)
  {
    FallingSavings();
    assert FALLING[..1][..0] == [] && FALLING[..2][..1] == FALLING[..1];
    assert AfterRuns([], m, []) == [] && [] + RewriteRows(m, 120.0, 5) == RewriteRows(m, 120.0, 5);
  }

  lemma FirstTwoRuns(m: Month)
    requires m.length >= 6
    ensures MonthView(AfterRuns([], m, FALLING[..1]), m) == Uniform(m, 5, 1.0)
    ensures MonthView(AfterRuns([], m, FALLING[..2]), m) == Mixed(m)
  {
    FirstTwoTables(m);
    FallingSavings();
    assert MonthView([], m) == Uniform(m, 0, 0.0) == map[];
    assert [] + RewriteRows(m, 120.0, 5) == RewriteRows(m, 120.0, 5);
    RewriteOnUniform([], m, 0, 0.0, 120.0, 5);
    ViewAfterRewrite(RewriteRows(m, 120.0, 5), m, 144.0, 3);
  }

  lemma FallingInformed(m: Month)
    requires m.length >= 6
    ensures Informed([], m, FALLING)
  {
    FirstTwoRuns(m);
    var two := FALLING[..2];
    assert FALLING[..|FALLING| - 1] == two && two[..|two| - 1] == FALLING[..1] && FALLING[..1][..0] == [];
    assert AfterRuns([], m, []) == [] && MonthView([], m) == map[];
    UniformSize(m, 5, 1.0);
    MixedGroup(m);
    assert Informed([], m, []);
    assert Informed([], m, FALLING[..1]);
    assert Informed([], m, two);
  }

  /** When days fall, a run can be wrong although no later day was exported: before the third of
      these runs no row lies behind its day 6, and afterwards days 1 and 2 keep the saving of
      the second. */
  lemma FallingDaysMixSavings(m: Month)
    requires m.length >= 6
    ensures Informed([], m, FALLING)
    ensures NothingFrom(MonthView(AfterRuns([], m, FALLING[..2]), m), HOURS_IN_A_DAY * (m.firstDay + 6))
    ensures MonthView(AfterRuns([], m, FALLING), m) != Uniform(m, 6, HourlySavings(144.0, 6))
  {
    FallingInformed(m);
    FirstTwoRuns(m);
    forall h | h in Mixed(m) ensures h < HOURS_IN_A_DAY * (m.firstDay + 6) {
      MixedAt(m, h);
    }
    FallingSavings();
    MixedAt(m, HOURS_IN_A_DAY * m.firstDay);
    RunLeavesUniform(AfterRuns([], m, FALLING[..2]), m, 144.0, 6, 48, 1.0);
    assert FALLING[..|FALLING| - 1] == FALLING[..2];
  }

  // ----- Exactness -----

  function TotalCost(rows: seq<Row>): real {
    if rows == [] then 0.0 else TotalCost(rows[..|rows| - 1]) + rows[|rows| - 1].cost
  }

  lemma {:induction false} HourRowsCost(start: int, n: nat, cost: real)
    ensures TotalCost(HourRows(start, n, cost)) == n as real * cost
  {
    if n > 0 {
      assert HourRows(start, n, cost)[..n - 1] == HourRows(start, n - 1, cost);
      HourRowsCost(start, n - 1, cost);
    }
  }

  /** Rounding gives the nearest whole number, and from the middle between two the one away from
      zero. */
  lemma RoundNear(x: real)
    ensures Round(x) == Round(x).Floor as real
    ensures x >= 0.0 ==> Round(x) - 0.5 <= x < Round(x) + 0.5
    ensures x <= 0.0 ==> Round(x) - 0.5 < x <= Round(x) + 0.5
    ensures -0.5 <= Round(x) - x <= 0.5
  {
    Whole(if x >= 0.0 then (x + 0.5).Floor else -((-x + 0.5).Floor));
  }

  lemma Whole(k: int)
    ensures (k as real).Floor == k
  {
  }

  /** The saving written for an hour is a whole number of millionths: the nearest to the hour's
      share of the total, and of two equally near the one away from zero. */
  lemma HourlySavingsAre(total: real, day: nat)
    requires day > 0
    ensures var millionths := HourlySavings(total, day) * 1000000.0;
            var share := total / (24 * day) as real * 1000000.0;
            && millionths == millionths.Floor as real
            && (share >= 0.0 ==> millionths - 0.5 <= share < millionths + 0.5)
            && (share <= 0.0 ==> millionths - 0.5 < share <= millionths + 0.5)
  {
    RoundNear(total / (24 * day) as real * 1000000.0);
  }

  lemma HourlyNear(total: real, day: nat)
    requires day > 0
    ensures -0.0000005 <= HourlySavings(total, day) - total / (HOURS_IN_A_DAY * day) as real <= 0.0000005
  {
    var share := total / (HOURS_IN_A_DAY * day) as real;
    RoundNear(share * SIX_DECIMAL_PLACES);
  }

  /** The rows of a full rewrite add up to the requested total, to within half a millionth for
      every hour. */
  lemma RewriteNearlyExact(m: Month, total: real, day: nat)
    requires day > 0
    ensures var hours := HOURS_IN_A_DAY * day;
            var sum := TotalCost(RewriteRows(m, total, day));
            -0.0000005 * hours as real <= sum - total <= 0.0000005 * hours as real
  {
    HourRowsCost(HOURS_IN_A_DAY * m.firstDay, HOURS_IN_A_DAY * day, HourlySavings(total, day));
    HourlyNear(total, day);
    ScaleError((HOURS_IN_A_DAY * day) as real, total, HourlySavings(total, day), 0.0000005);
  }

  /** n times a share that is nearly total / n is nearly total. */
  lemma ScaleError(n: real, total: real, share: real, bound: real)
    requires n > 0.0 && -bound <= share - total / n <= bound
    ensures -bound * n <= n * share - total <= bound * n
  {
    var exact := total / n;
    assert n * exact == total;
    ScaleBounds(n, share - exact, bound);
    assert n * (share - exact) == n * share - n * exact;
  }

  lemma ScaleBounds(n: real, x: real, bound: real)
    requires n >= 0.0 && -bound <= x <= bound
    ensures -bound * n <= n * x <= bound * n
  {
  }
}
