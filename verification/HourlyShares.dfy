/** How an hour's usage is shared out over the orders of a group, as values.

    Times are minutes; the day and the hour of a time stand for the strings they are
    formatted as. */
module HourlyShares {
  import opened GoMaps
  import opened Wrappers
  import opened HourlyUsage

  /** The fixed part of an order. endDay and endMonth describe its last month: the day of the
      month it ends on, and the day its month starts with. */
  datatype OrderTerms = OrderTerms(start: int, end: int, endDay: nat, endMonth: int, unitsPerHour: real,
                                   factor: real, savingsRate: real, penaltyRate: real)

  /** One time dimension of the usage report and its data; time is None when its name does not
      parse. */
  datatype Reading = Reading(excluded: bool, time: Option<int>, usage: real)

  function DayOfTime(t: int): int {
    t / 1440
  }

  function HourOfTime(t: int): int {
    t % 1440 / 60
  }

  /** A time is its day, its hour of 24 and a minute of 60. */
  lemma TimeParts(t: int)
    ensures 0 <= HourOfTime(t) < 24
    ensures 0 <= t - 1440 * DayOfTime(t) - 60 * HourOfTime(t) < 60
  {
  }

  /** t is in that hour of that day. */
  predicate InHour(t: int, day: int, hour: int) {
    0 <= hour < 24 && 1440 * day + 60 * hour <= t < 1440 * day + 60 * hour + 60
  }

  /** A time is written to the day and the hour it lies in, and to no other. */
  lemma ClockHour(t: int, day: int, hour: int)
    ensures InHour(t, day, hour) <==> DayOfTime(t) == day && HourOfTime(t) == hour
  {
    TimeParts(t);
  }

  predicate Eligible(o: OrderTerms, t: int) {
    !(t < o.start || t > o.end)
  }

  /** What an order leaves of the usage it is offered. */
  function LeftBy(o: OrderTerms, t: int, offered: real): real {
    if !Eligible(o, t) || offered <= 0.0 then offered
    else if offered >= o.unitsPerHour then offered - o.unitsPerHour
    else 0.0
  }

  /** What an eligible order takes of it. */
  function TakenBy(o: OrderTerms, offered: real): real {
    if offered <= 0.0 then 0.0 else if offered >= o.unitsPerHour then o.unitsPerHour else offered
  }

  /** An order's workspace after it was offered usage for the hour of t. */
  function Offered(u: Usage, o: OrderTerms, t: int, offered: real): Usage {
    if Eligible(o, t) then Put(u, DayOfTime(t), HourOfTime(t), TakenBy(o, offered)) else u
  }

  /** What is left of the hour's usage before order k takes its share. */
  function Left(orders: seq<OrderTerms>, t: int, usage: real, k: nat): real
    requires k <= |orders|
  {
    if k == 0 then usage else LeftBy(orders[k - 1], t, Left(orders, t, usage, k - 1))
  }

  /** The share of order k. */
  function Share(orders: seq<OrderTerms>, t: int, usage: real, k: nat): real
    requires k < |orders|
  {
    TakenBy(orders[k], Left(orders, t, usage, k))
  }

  /** The effect of one hour on the workspace of order k. */
  function AfterHour(u: Usage, orders: seq<OrderTerms>, t: int, usage: real, k: nat): Usage
    requires k < |orders|
  {
    Offered(u, orders[k], t, Left(orders, t, usage, k))
  }

  /** A reading is used when it is neither excluded nor too recent. */
  predicate Used(r: Reading, mtd: int) {
    !r.excluded && r.time.Some? && r.time.value < mtd
  }

  /** A reading counts for an order when it is used and falls into the order's period. */
  predicate Counted(orders: seq<OrderTerms>, r: Reading, mtd: int, k: nat)
    requires k < |orders|
  {
    !r.excluded && r.time.Some? && r.time.value < mtd && orders[k].start <= r.time.value <= orders[k].end
  }

  function AfterReading(u: Usage, orders: seq<OrderTerms>, r: Reading, mtd: int, k: nat): Usage
    requires k < |orders|
  {
    if Used(r, mtd) then AfterHour(u, orders, r.time.value, r.usage, k) else u
  }

  /** The effect of the first n readings. */
  function AfterReadings(u: Usage, orders: seq<OrderTerms>, report: seq<Reading>, mtd: int, k: nat, n: nat): Usage
    requires k < |orders| && n <= |report|
  {
    if n == 0 then u else AfterReading(AfterReadings(u, orders, report, mtd, k, n - 1), orders, report[n - 1], mtd, k)
  }

  predicate Unparsed(r: Reading) {
    !r.excluded && r.time.None?
  }

  /** How many readings come before the first whose name does not parse. */
  function ParsedPrefix(report: seq<Reading>): (n: nat)
    ensures n <= |report|
  {
    if report == [] || Unparsed(report[0]) then 0 else 1 + ParsedPrefix(report[1..])
  }

  /** The moment of a run as far as an empty report depends on it: mtd, the day of the month
      just before it, and the day 32 days back with its day of the month. */
  datatype Clock = Clock(mtd: int, lastDay: nat, back: int, backDay: nat)

  /** The first day an empty report sets to zero, and how many from there. */
  function ZeroRange(o: OrderTerms, c: Clock): (int, nat) {
    var end := if c.mtd > o.end then o.endDay else c.lastDay;
    var first := if c.mtd > o.end && c.back > o.start then c.backDay else 1;
    (o.endMonth + first - 1, if end < first then 0 else end - first + 1)
  }

  function Zeroed(u: Usage, o: OrderTerms, c: Clock): Usage {
    ZeroDays(u, ZeroRange(o, c).0, ZeroRange(o, c).1)
  }

  /** The day of the month that an empty report zeroes from and to: for an order that has ended by
      mtd from 32 days back, if it had started by then, to its last day; else from the first day to
      the one before mtd.  The days of that range hold 24 hours without usage afterwards, and every
      other day what it held before. */
  lemma ZeroedDays(u: Usage, o: OrderTerms, c: Clock, d: int)
    ensures var z := Zeroed(u, o, c);
            var last := if c.mtd > o.end then o.endDay else c.lastDay;
            var first := if c.mtd > o.end && c.back > o.start then c.backDay else 1;
            if first <= d - o.endMonth + 1 <= last then
              d in z && (forall h :: h in z[d] <==> 0 <= h < 24) && forall h | h in z[d] :: z[d][h] == 0.0
            else
              DayOf(z, d) == DayOf(u, d) && (d in z <==> d in u)
  {
    var (first, count) := ZeroRange(o, c);
    ZeroDaysAt(u, first, count, d);
    forall h ensures h in ZeroHours(24) <==> 0 <= h < 24 {
      assert 0 <= h < 24 ==> IsHour(h, 24);
    }
  }

  lemma {:induction false} ZeroDaysAt(u: Usage, first: int, count: nat, d: int)
    ensures var z := ZeroDays(u, first, count);
            if first <= d < first + count then d in z && z[d] == ZeroHours(24)
            else DayOf(z, d) == DayOf(u, d) && (d in z <==> d in u)
  {
    if count > 0 {
      ZeroDaysAt(u, first, count - 1, d);
    }
  }

  /** How many orders come before the first that has not started. */
  function StartedPrefix(orders: seq<OrderTerms>, mtd: int): (n: nat)
    ensures n <= |orders|
  {
    if orders == [] || mtd < orders[0].start then 0 else 1 + StartedPrefix(orders[1..], mtd)
  }

  /** All before that order have started, and that order has not. */
  lemma {:induction false} StartedPrefixIs(orders: seq<OrderTerms>, mtd: int)
    ensures var n := StartedPrefix(orders, mtd);
            && (forall j | 0 <= j < n :: orders[j].start <= mtd)
            && (n < |orders| ==> mtd < orders[n].start)
  {
    if orders != [] && !(mtd < orders[0].start) {
      StartedPrefixIs(orders[1..], mtd);
    }
  }

  // ----- One hour -----

  predicate Sized(orders: seq<OrderTerms>) {
    forall o | o in orders :: o.unitsPerHour >= 0.0
  }

  function SharesUpTo(orders: seq<OrderTerms>, t: int, usage: real, k: nat): real
    requires k <= |orders|
  {
    if k == 0 then 0.0
    else
      SharesUpTo(orders, t, usage, k - 1)
      + if Eligible(orders[k - 1], t) then Share(orders, t, usage, k - 1) else 0.0
  }

  function CapacityUpTo(orders: seq<OrderTerms>, t: int, k: nat): real
    requires k <= |orders|
  {
    if k == 0 then 0.0
    else
      CapacityUpTo(orders, t, k - 1) + if Eligible(orders[k - 1], t) then orders[k - 1].unitsPerHour else 0.0
  }

  function MinReal(a: real, b: real): real {
    if a < b then a else b
  }

  function MaxReal(a: real, b: real): real {
    if a < b then b else a
  }

  /** An hour conserves its usage: the eligible orders together get it all, up to what they
      can hold; a negative reading counts as none. */
  lemma {:induction false} SharesConserveUsage(orders: seq<OrderTerms>, t: int, usage: real, k: nat)
    requires Sized(orders) && k <= |orders|
    ensures CapacityUpTo(orders, t, k) >= 0.0
    ensures SharesUpTo(orders, t, usage, k) == MinReal(MaxReal(usage, 0.0), CapacityUpTo(orders, t, k))
    ensures MaxReal(Left(orders, t, usage, k), 0.0) == MaxReal(usage, 0.0) - SharesUpTo(orders, t, usage, k)
  {
    if k > 0 {
      SharesConserveUsage(orders, t, usage, k - 1);
      assert orders[k - 1] in orders;
    }
  }

  /** The orders are filled in order: when a later one gets anything, every earlier one is
      full.  So there is at most one partial fill, with full orders before it and empty ones
      after it. */
  lemma SharesFillInOrder(orders: seq<OrderTerms>, t: int, usage: real, i: nat, j: nat)
    requires Sized(orders) && i < j < |orders|
    requires Eligible(orders[i], t)
    ensures 0.0 <= Share(orders, t, usage, i) <= orders[i].unitsPerHour
    ensures Share(orders, t, usage, j) > 0.0 ==> Share(orders, t, usage, i) == orders[i].unitsPerHour
  {
    assert orders[i] in orders;
    LeftNeverGrows(orders, t, usage, i + 1, j);
  }

  lemma {:induction false} LeftNeverGrows(orders: seq<OrderTerms>, t: int, usage: real, i: nat, j: nat)
    requires Sized(orders) && i <= j <= |orders|
    ensures Left(orders, t, usage, j) <= Left(orders, t, usage, i)
    decreases j
  {
    if i < j {
      LeftNeverGrows(orders, t, usage, i, j - 1);
      assert orders[j - 1] in orders;
    }
  }

  // ----- The whole report -----

  /** A reading that counts, in that hour. */
  predicate CountedIn(orders: seq<OrderTerms>, r: Reading, mtd: int, k: nat, day: int, hour: int)
    requires k < |orders|
  {
    Counted(orders, r, mtd, k) && InHour(r.time.value, day, hour)
  }

  /** The hour a reading falls in holds the order's share of it, unless a later reading of the
      same hour replaces it: readings of different hours are all kept. */
  lemma {:induction false} HourHoldsShare(u: Usage, orders: seq<OrderTerms>, report: seq<Reading>, mtd: int, k: nat,
                                          i: nat, n: nat, day: int, hour: int)
    requires k < |orders| && i < n <= |report|
    requires CountedIn(orders, report[i], mtd, k, day, hour)
    requires forall j | i < j < n :: !CountedIn(orders, report[j], mtd, k, day, hour)
    ensures var after := AfterReadings(u, orders, report, mtd, k, n);
            && day in after && hour in after[day]
            && after[day][hour] == Share(orders, report[i].time.value, report[i].usage, k)
  {
    if report[n - 1].time.Some? {
      ClockHour(report[n - 1].time.value, day, hour);
    }
    if i < n - 1 {
      HourHoldsShare(u, orders, report, mtd, k, i, n - 1, day, hour);
    }
  }

  /** What u holds for an hour, if anything. */
  function HourIn(u: Usage, day: int, hour: int): Option<real> {
    if day in u && hour in u[day] then Some(u[day][hour]) else None
  }

  /** An hour without a reading that counts is as it was. */
  lemma {:induction false} HourUntouched(u: Usage, orders: seq<OrderTerms>, report: seq<Reading>, mtd: int, k: nat,
                                         n: nat, day: int, hour: int)
    requires k < |orders| && n <= |report|
    requires forall j | 0 <= j < n :: !CountedIn(orders, report[j], mtd, k, day, hour)
    ensures HourIn(AfterReadings(u, orders, report, mtd, k, n), day, hour) == HourIn(u, day, hour)
  {
    if n > 0 {
      HourUntouched(u, orders, report, mtd, k, n - 1, day, hour);
      if report[n - 1].time.Some? {
        TimeParts(report[n - 1].time.value);
        ClockHour(report[n - 1].time.value, day, hour);
      }
    }
  }

  /** A report writes over what was there: its effect is a merge that does not depend on it. */
  lemma {:induction false} ReadingsOverwrite(u: Usage, orders: seq<OrderTerms>, report: seq<Reading>, mtd: int,
                                             k: nat, n: nat)
    requires k < |orders| && n <= |report|
    ensures AfterReadings(u, orders, report, mtd, k, n)
         == Merge(u, AfterReadings(map[], orders, report, mtd, k, n))
  {
    if n == 0 {
      MergeNothing(u);
    } else {
      ReadingsOverwrite(u, orders, report, mtd, k, n - 1);
      var w := AfterReadings(map[], orders, report, mtd, k, n - 1);
      var r := report[n - 1];
      if Counted(orders, r, mtd, k) {
        PutMerge(u, w, DayOfTime(r.time.value), HourOfTime(r.time.value), Share(orders, r.time.value, r.usage, k));
      }
    }
  }

  lemma PutMerge(u: Usage, w: Usage, day: int, hour: int, x: real)
    ensures Put(Merge(u, w), day, hour, x) == Merge(u, Put(w, day, hour, x))
  {
    var left, right := Put(Merge(u, w), day, hour, x), Merge(u, Put(w, day, hour, x));
    assert left.Keys == right.Keys;
    forall d | d in left ensures left[d] == right[d] {
      DayOfMerge(u, w, d);
      if d == day {
        UpdateSum(DayOf(u, day), DayOf(w, day), hour, x);
      } else {
        assert DayOf(Put(w, day, hour, x), d) == DayOf(w, d);
      }
    }
  }

  /** Running the same report again changes nothing. */
  lemma ReadingsIdempotent(u: Usage, orders: seq<OrderTerms>, report: seq<Reading>, mtd: int, k: nat)
    requires k < |orders|
    ensures AfterReadings(AfterReadings(u, orders, report, mtd, k, |report|), orders, report, mtd, k, |report|)
         == AfterReadings(u, orders, report, mtd, k, |report|)
  {
    var n := |report|;
    var once, w := AfterReadings(u, orders, report, mtd, k, n), AfterReadings(map[], orders, report, mtd, k, n);
    ReadingsOverwrite(u, orders, report, mtd, k, n);
    ReadingsOverwrite(once, orders, report, mtd, k, n);
    var twice := Merge(once, w);
    assert twice.Keys == once.Keys;
    forall d | d in once ensures twice[d] == once[d] {
      assert DayOf(u, d) + DayOf(w, d) + DayOf(w, d) == DayOf(u, d) + DayOf(w, d);
    }
  }

  /** Copying the workspace back over what it was copied from leaves the workspace. */
  lemma {:induction false} ReadingsExtend(u: Usage, orders: seq<OrderTerms>, report: seq<Reading>, mtd: int, k: nat,
                                          n: nat)
    requires k < |orders| && n <= |report|
    ensures Merge(u, AfterReadings(u, orders, report, mtd, k, n)) == AfterReadings(u, orders, report, mtd, k, n)
  {
    ReadingsOverwrite(u, orders, report, mtd, k, n);
    var w := AfterReadings(map[], orders, report, mtd, k, n);
    var left, right := Merge(u, Merge(u, w)), Merge(u, w);
    assert left.Keys == right.Keys;
    forall d | d in left ensures left[d] == right[d] {
      assert DayOf(u, d) + (DayOf(u, d) + DayOf(w, d)) == DayOf(u, d) + DayOf(w, d);
    }
  }
}
