/** What a run of the autopilot guarantees about an order group, in terms of the stored usage
    and the costs that AutopilotGroup.Update leaves. */
module AutopilotResults {
  import opened Wrappers
  import opened HourlyUsage
  import opened LineUnits
  import opened HourlyShares
  import opened Autopilot
  import opened AutopilotGroup
  import opened OrderPricing

  // ----- What is stored for an hour -----

  /** Every stored hour of every order, after a report that parses: the order's share of the last
      reading that counts in that hour, and what was stored before when there is none. */
  lemma ReportedHour(stored: seq<Usage>, terms: seq<OrderTerms>, report: seq<Reading>, mtd: int, i: nat,
                     day: int, hour: int)
    requires |stored| == |terms| && i < |terms|
    ensures (forall j | 0 <= j < |report| :: !CountedIn(terms, report[j], mtd, i, day, hour)) ==>
              HourIn(Reported(stored, terms, report, mtd)[i], day, hour) == HourIn(stored[i], day, hour)
    ensures forall n | 0 <= n < |report| && CountedIn(terms, report[n], mtd, i, day, hour)
              && forall j | n < j < |report| :: !CountedIn(terms, report[j], mtd, i, day, hour) ::
              HourIn(Reported(stored, terms, report, mtd)[i], day, hour)
              == Some(Share(terms, report[n].time.value, report[n].usage, i))
  {
    if forall j | 0 <= j < |report| :: !CountedIn(terms, report[j], mtd, i, day, hour) {
      HourUntouched(stored[i], terms, report, mtd, i, |report|, day, hour);
    }
    forall n | 0 <= n < |report| && CountedIn(terms, report[n], mtd, i, day, hour)
      && forall j | n < j < |report| :: !CountedIn(terms, report[j], mtd, i, day, hour)
      ensures HourIn(Reported(stored, terms, report, mtd)[i], day, hour)
           == Some(Share(terms, report[n].time.value, report[n].usage, i))
    {
      HourHoldsShare(stored[i], terms, report, mtd, i, n, |report|, day, hour);
    }
  }

  /** The reading of an hour that counts: used, and not followed by another one of that hour. */
  ghost predicate LastOfHour(report: seq<Reading>, mtd: int, n: nat, day: int, hour: int)
    requires n < |report|
  {
    && !report[n].excluded && report[n].time.Some? && report[n].time.value < mtd
    && InHour(report[n].time.value, day, hour)
    && forall j | n < j < |report| && !report[j].excluded && report[j].time.Some? && report[j].time.value < mtd ::
         !InHour(report[j].time.value, day, hour)
  }

  /** What the orders that run at time t have stored for an hour, over the first k orders. */
  function StoredUpTo(after: seq<Usage>, terms: seq<OrderTerms>, t: int, day: int, hour: int, k: nat): real
    requires |after| == |terms| && k <= |terms|
  {
    if k == 0 then 0.0
    else
      StoredUpTo(after, terms, t, day, hour, k - 1)
      + if terms[k - 1].start <= t <= terms[k - 1].end && HourIn(after[k - 1], day, hour).Some? then
          HourIn(after[k - 1], day, hour).value
        else 0.0
  }

  /** The stored hours conserve the reported usage: every order that runs has stored something,
      and together they have stored it all, up to what these orders can hold. */
  lemma StoredHourConserves(stored: seq<Usage>, terms: seq<OrderTerms>, report: seq<Reading>, mtd: int, n: nat,
                            day: int, hour: int)
    requires |stored| == |terms| && Sized(terms) && n < |report| && LastOfHour(report, mtd, n, day, hour)
    ensures var t, after := report[n].time.value, Reported(stored, terms, report, mtd);
            && (forall i | 0 <= i < |terms| && terms[i].start <= t <= terms[i].end ::
                  HourIn(after[i], day, hour).Some?)
            && StoredUpTo(after, terms, t, day, hour, |terms|)
               == MinReal(MaxReal(report[n].usage, 0.0), CapacityUpTo(terms, t, |terms|))
  {
    forall i | 0 <= i < |terms| && terms[i].start <= report[n].time.value <= terms[i].end
      ensures HourIn(Reported(stored, terms, report, mtd)[i], day, hour).Some?
    {
      StoredIsShare(stored, terms, report, mtd, n, day, hour, i);
    }
    StoredAreShares(stored, terms, report, mtd, n, day, hour, |terms|);
    SharesConserveUsage(terms, report[n].time.value, report[n].usage, |terms|);
  }

  lemma StoredIsShare(stored: seq<Usage>, terms: seq<OrderTerms>, report: seq<Reading>, mtd: int, n: nat,
                      day: int, hour: int, i: nat)
    requires |stored| == |terms| && n < |report| && LastOfHour(report, mtd, n, day, hour) && i < |terms|
    requires terms[i].start <= report[n].time.value <= terms[i].end
    ensures HourIn(Reported(stored, terms, report, mtd)[i], day, hour)
         == Some(Share(terms, report[n].time.value, report[n].usage, i))
  {
    assert CountedIn(terms, report[n], mtd, i, day, hour);
    ReportedHour(stored, terms, report, mtd, i, day, hour);
  }

  lemma {:induction false} StoredAreShares(stored: seq<Usage>, terms: seq<OrderTerms>, report: seq<Reading>, mtd: int,
                                           n: nat, day: int, hour: int, k: nat)
    requires |stored| == |terms| && n < |report| && LastOfHour(report, mtd, n, day, hour) && k <= |terms|
    ensures var t := report[n].time.value;
            StoredUpTo(Reported(stored, terms, report, mtd), terms, t, day, hour, k)
            == SharesUpTo(terms, t, report[n].usage, k)
  {
    if k > 0 {
      StoredAreShares(stored, terms, report, mtd, n, day, hour, k - 1);
      if terms[k - 1].start <= report[n].time.value <= terms[k - 1].end {
        StoredIsShare(stored, terms, report, mtd, n, day, hour, k - 1);
      }
    }
  }

  /** After an empty report: the days of its range hold zeros for every order up to the first that
      has not started by mtd, and everything else is as it was. */
  lemma ZeroedOrder(stored: seq<Usage>, terms: seq<OrderTerms>, c: Clock, i: nat, d: int)
    requires |stored| == |terms| && i < |terms|
    ensures var o, z := terms[i], ZeroedUpTo(stored, terms, c, StartedPrefix(terms, c.mtd))[i];
            var last := if c.mtd > o.end then o.endDay else c.lastDay;
            var first := if c.mtd > o.end && c.back > o.start then c.backDay else 1;
            if (forall j | 0 <= j <= i :: terms[j].start <= c.mtd) && first <= d - o.endMonth + 1 <= last then
              d in z && (forall h :: h in z[d] <==> 0 <= h < 24) && forall h | h in z[d] :: z[d][h] == 0.0
            else
              DayOf(z, d) == DayOf(stored[i], d) && (d in z <==> d in stored[i])
  {
    StartedPrefixIs(terms, c.mtd);
    ZeroedDays(stored[i], terms[i], c, d);
  }

  // ----- Ranges, and complete drains -----

  ghost predicate InRange(u: Usage, cap: real) {
    forall x | Occurs(u, x) :: 0.0 <= x <= cap
  }

  lemma PutInRange(u: Usage, d: int, h: int, x: real, cap: real)
    requires InRange(u, cap) && 0.0 <= x <= cap
    ensures InRange(Put(u, d, h, x), cap)
  {
    var after := Put(u, d, h, x);
    forall y | Occurs(after, y) ensures 0.0 <= y <= cap {
      var d', h' :| d' in after && h' in after[d'] && after[d'][h'] == y;
      if d' != d || h' != h {
        assert Occurs(u, u[d'][h']);
      }
    }
  }

  /** A report keeps every stored hour within the order's units per hour. */
  lemma {:induction false} ReadingsInRange(u: Usage, terms: seq<OrderTerms>, report: seq<Reading>, mtd: int, k: nat,
                                           n: nat)
    requires k < |terms| && n <= |report| && terms[k].unitsPerHour >= 0.0
    requires InRange(u, terms[k].unitsPerHour)
    ensures InRange(AfterReadings(u, terms, report, mtd, k, n), terms[k].unitsPerHour)
  {
    if n > 0 {
      ReadingsInRange(u, terms, report, mtd, k, n - 1);
      var r := report[n - 1];
      if Counted(terms, r, mtd, k) {
        PutInRange(AfterReadings(u, terms, report, mtd, k, n - 1), DayOfTime(r.time.value), HourOfTime(r.time.value),
                   Share(terms, r.time.value, r.usage, k), terms[k].unitsPerHour);
      }
    }
  }

  /** An order sized by activation: a positive factor, whole when above one, and units per
      hour for a whole number of instances. */
  ghost predicate Activated(o: OrderTerms, instances: nat) {
    && o.factor > 0.0 && (o.factor > 1.0 ==> o.factor == o.factor.Floor as real)
    && o.unitsPerHour == o.factor * instances as real
  }

  lemma ActivatedLines(o: OrderTerms, instances: nat)
    requires Activated(o, instances)
    ensures o.unitsPerHour == Level(Iterations(o), Increment(o)) >= 0.0 && Increment(o) > 0.0
  {
    LinesCoverOrder(o.factor, instances);
    LevelStep(Iterations(o), Increment(o));
  }

  /** After a report, the drain of an activated order leaves an empty workspace, and what it
      found exceeds the stored usage by less than one increment for each busy hour. */
  lemma RunDrainsCompletely(u: Usage, terms: seq<OrderTerms>, report: seq<Reading>, mtd: int, mtdDay: nat, k: nat,
                            instances: nat)
    requires k < |terms| && Activated(terms[k], instances) && InRange(u, terms[k].unitsPerHour)
    ensures InRange(AfterReadings(u, terms, report, mtd, k, |report|), terms[k].unitsPerHour)
    ensures var after := AfterReadings(u, terms, report, mtd, k, |report|);
            forall x | Occurs(Drained(after, Iterations(terms[k]), Increment(terms[k])), x) :: x == 0.0
    ensures var after := AfterReadings(u, terms, report, mtd, k, |report|);
            var c := QualifiedCosts(after, terms[k], mtd, mtdDay);
            Total(after, Positive()) <= c.qualified + c.unqualified <= Total(after, PositivePlus(Increment(terms[k])))
    ensures var after := AfterReadings(u, terms, report, mtd, k, |report|);
            var c := QualifiedCosts(after, terms[k], mtd, mtdDay);
            (exists x :: Occurs(after, x) && x > 0.0) ==>
              c.qualified + c.unqualified < Total(after, PositivePlus(Increment(terms[k])))
  {
    ActivatedLines(terms[k], instances);
    ReadingsInRange(u, terms, report, mtd, k, |report|);
    var after := AfterReadings(u, terms, report, mtd, k, |report|);
    DrainComplete(after, LineTerms(terms[k], mtd, mtdDay), Iterations(terms[k]));
  }

  // ----- Costs in the order's own terms -----

  /** The days of the month that count: those before mtd while the order runs, and all of its last
      month before and after. */
  function CountedDays(o: OrderTerms, mtd: int, mtdDay: nat): int {
    if mtd <= o.start || o.end <= mtd then o.endDay else mtdDay - 1
  }

  /** The lines whose savings, at the order's savings rate for the hours they find, reach what the
      rest of the month costs at its penalty rate. */
  ghost function WorthKeeping(u: Usage, o: OrderTerms, mtd: int, mtdDay: nat): set<int>
    requires o.factor > 0.0
  {
    var month := CountedDays(o, mtd, mtdDay) as real * 24.0 * Increment(o);
    set k: int | 0 <= k < Iterations(o) &&
                 var hours := HoursUtilized(u, k, Increment(o));
                 o.savingsRate * hours >= o.penaltyRate * (month - hours)
  }

  lemma KeptAreWorthKeeping(u: Usage, o: OrderTerms, mtd: int, mtdDay: nat)
    requires o.factor > 0.0
    ensures KeptLines(u, LineTerms(o, mtd, mtdDay), Iterations(o)) == WorthKeeping(u, o, mtd, mtdDay)
  {
    var days := CountedDays(o, mtd, mtdDay) as real;
    assert LineTerms(o, mtd, mtdDay) == Terms(Increment(o), o.savingsRate, o.penaltyRate, days * 24.0);
    forall k: nat | k < Iterations(o)
      ensures Qualifies(u, LineTerms(o, mtd, mtdDay), k) <==> k in WorthKeeping(u, o, mtd, mtdDay)
    {
      QualifiesExplicitly(u, o.savingsRate, o.penaltyRate, days, Increment(o), k);
    }
  }

  lemma QualifiesExplicitly(u: Usage, savingsRate: real, penaltyRate: real, days: real, increment: real, k: nat)
    ensures Qualifies(u, Terms(increment, savingsRate, penaltyRate, days * 24.0), k) <==>
              var hours := HoursUtilized(u, k, increment);
              savingsRate * hours >= penaltyRate * (days * 24.0 * increment - hours)
  {
  }

  /** What is recorded for an order: the number of the lines worth keeping and their hours, ... */
  lemma LinesOfCosts(u: Usage, o: OrderTerms, mtd: int, mtdDay: nat)
    requires o.factor > 0.0
    ensures var c, kept := QualifiedCosts(u, o, mtd, mtdDay), WorthKeeping(u, o, mtd, mtdDay);
            c.lineUnits == |kept| as real && c.qualified == HoursOf(u, Increment(o), kept, Iterations(o))
  {
    KeptLinesRecorded(u, LineTerms(o, mtd, mtdDay), Iterations(o));
    KeptAreWorthKeeping(u, o, mtd, mtdDay);
  }

  /** ... what these hours save at the savings rate, and what the rest of the month of just these
      lines costs at the penalty rate; and the same for the discarded lines.  month is how many
      hours a line has: those of the days that count, each for one increment. */
  lemma CostsOfOrder(u: Usage, o: OrderTerms, mtd: int, mtdDay: nat, c: Costs, month: real)
    requires o.factor > 0.0 && c == QualifiedCosts(u, o, mtd, mtdDay)
    requires month == (if mtd <= o.start || o.end <= mtd then o.endDay else mtdDay - 1) as real * 24.0 * Increment(o)
    ensures c.savings == o.savingsRate * c.qualified
    ensures c.penalty == o.penaltyRate * (month * c.lineUnits - c.qualified)
    ensures c.discardedSavings == o.savingsRate * c.unqualified
    ensures c.discardedPenalty == o.penaltyRate * (month * (Iterations(o) as real - c.lineUnits) - c.unqualified)
  {
    hide CostsAfter, Iterations, Increment;
    CostsFollowHours(u, LineTerms(o, mtd, mtdDay), Iterations(o));
    FollowExplicitly(c, LineTerms(o, mtd, mtdDay), o.savingsRate, o.penaltyRate, month, Iterations(o) as real);
  }

  lemma FollowExplicitly(c: Costs, t: Terms, savingsRate: real, penaltyRate: real, month: real, n: real)
    requires FollowHours(c, t, n)
    requires t.savingsRate == savingsRate && t.penaltyRate == penaltyRate && t.monthHours * t.increment == month
    ensures c.savings == savingsRate * c.qualified
    ensures c.penalty == penaltyRate * (month * c.lineUnits - c.qualified)
    ensures c.discardedSavings == savingsRate * c.unqualified
    ensures c.discardedPenalty == penaltyRate * (month * (n - c.lineUnits) - c.unqualified)
  {
  }

  /** An order has as many lines as whole increments fit into its units per hour, an increment
      being its factor, but at most one. */
  lemma LinesOfOrder(o: OrderTerms)
    requires o.factor > 0.0
    ensures Increment(o) == if o.factor > 1.0 then 1.0 else o.factor
    ensures o.unitsPerHour >= 0.0 ==>
              Iterations(o) as real * Increment(o) <= o.unitsPerHour < (Iterations(o) + 1) as real * Increment(o)
    ensures o.unitsPerHour <= 0.0 ==> Iterations(o) == 0
  {
    LinesFit(o.unitsPerHour, o.factor);
  }

  // ----- Rates -----

  /** With rates from activation the lines kept are always the first ones, whatever the
      reserved price and the percentage. */
  lemma ActivatedKeepsPrefix(u: Usage, o: OrderTerms, mtd: int, mtdDay: nat, onDemand: real, reserved: real,
                             discount: real, percentage: real, k: nat)
    requires o.factor > 0.0 && onDemand >= 0.0 && discount <= 100.0
    requires var p := PricingOf(onDemand, reserved, discount, percentage, o.factor);
             o.savingsRate == p.savingsPerHourNormalized && o.penaltyRate == p.flexibleNormalized
    requires k < Iterations(o)
    ensures Qualifies(u, LineTerms(o, mtd, mtdDay), k) <==> k as real < QualifiedCosts(u, o, mtd, mtdDay).lineUnits
  {
    RatesAddUp(onDemand, reserved, discount, percentage, o.factor);
    KeptLinesArePrefix(u, LineTerms(o, mtd, mtdDay), Iterations(o));
  }

  // ----- Adjustments -----

  /** The summing of rollupAutopilotSavingsToInvoiceAdjustments. */
  ghost function Rollup(usages: seq<Usage>, terms: seq<OrderTerms>, mtd: int, mtdDay: nat): real
    requires |usages| == |terms| && Factored(terms)
  {
    if usages == [] then 0.0
    else
      var c := QualifiedCosts(usages[0], terms[0], mtd, mtdDay);
      c.penalty - c.savings + Rollup(usages[1..], terms[1..], mtd, mtdDay)
  }

  /** Order by order it adds what was recorded as penalty less what was recorded as savings. */
  lemma {:induction false} RollupAdds(usages: seq<Usage>, terms: seq<OrderTerms>, u: Usage, o: OrderTerms, mtd: int,
                                      mtdDay: nat)
    requires |usages| == |terms| && Factored(terms) && o.factor > 0.0
    ensures Factored(terms + [o]) && Rollup([], [], mtd, mtdDay) == 0.0
    ensures var c := QualifiedCosts(u, o, mtd, mtdDay);
            Rollup(usages + [u], terms + [o], mtd, mtdDay) == Rollup(usages, terms, mtd, mtdDay) + c.penalty - c.savings
    decreases |usages|
  {
    hide QualifiedCosts;
    if usages == [] {
      assert [u][1..] == [] && [o][1..] == [] && usages + [u] == [u] && terms + [o] == [o];
    } else {
      assert (usages + [u])[1..] == usages[1..] + [u] && (terms + [o])[1..] == terms[1..] + [o];
      RollupAdds(usages[1..], terms[1..], u, o, mtd, mtdDay);
    }
  }

  /** No invoice adjustment is ever a charge. */
  lemma {:induction false} RollupNeverPositive(usages: seq<Usage>, terms: seq<OrderTerms>, mtd: int, mtdDay: nat)
    requires |usages| == |terms| && Factored(terms)
    ensures Rollup(usages, terms, mtd, mtdDay) <= 0.0
  {
    if usages != [] {
      AdjustmentNeverPositive(usages[0], LineTerms(terms[0], mtd, mtdDay), Iterations(terms[0]));
      RollupNeverPositive(usages[1..], terms[1..], mtd, mtdDay);
    }
  }
}
