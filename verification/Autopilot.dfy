/** The autopilot run over one group of orders, on the heap: Utilization is what is kept,
    Updates is the workspace that is filled from it, shared out into, copied back and drained. */
module Autopilot {
  import opened HourlyUsage
  import opened LineUnits
  import opened UsageMaps
  import opened HourlyShares

  /** An order with its autopilot record; utilization is null when there is no record yet, or a
      record without utilization. */
  class FlexRIOrder {
    const terms: OrderTerms
    var utilization: DayMap?
    var updates: DayMap?
    var costs: Costs
    ghost var Repr: set<object>

    constructor (terms: OrderTerms, utilization: DayMap?)
      requires utilization != null ==> utilization.Valid()
      ensures this.terms == terms && this.utilization == utilization && Loaded()
    {
      this.terms := terms;
      this.utilization := utilization;
      updates := null;
      costs := NO_COSTS;
      new;
      Repr := {this} + if utilization == null then {} else utilization.Repr;
    }

    /** As loaded from storage. */
    ghost predicate Loaded()
      reads this, Repr
    {
      && this in Repr
      && (utilization != null ==>
            utilization in Repr && utilization.Repr <= Repr && this !in utilization.Repr && utilization.Valid())
    }

    /** The persisted map and the workspace are two sound maps that share no inner map. */
    ghost predicate Ready()
      reads this, Repr
    {
      && Loaded()
      && utilization != null && updates != null
      && updates in Repr && updates.Repr <= Repr && this !in updates.Repr && updates.Valid()
      && utilization.Repr !! updates.Repr
    }

    ghost function Stored(): Usage
      requires Loaded()
      reads this, Repr
    {
      if utilization == null then map[] else utilization.View()
    }

    /** The first loop of distributeAutopilotUtilizationPerHour, for one order. */
    method Prepare()
      requires Loaded()
      modifies this`utilization, this`updates, this`Repr
      ensures Ready() && fresh(Repr - old(Repr)) && old(Repr) <= Repr
      ensures Stored() == old(Stored()) && updates.View() == Stored()
    {
      if utilization == null {
        utilization := new DayMap();
        updates := new DayMap();
        Repr := Repr + utilization.Repr + updates.Repr;
      } else {
        CopyToWorkspace();
      }
    }

    method CopyToWorkspace()
      requires Loaded() && utilization != null
      modifies this`updates, this`Repr
      ensures Ready() && fresh(Repr - old(Repr)) && old(Repr) <= Repr
      ensures Stored() == old(Stored()) && updates.View() == Stored()
    {
      ghost var stored := utilization.View();
      MergeIntoEmpty(stored);
      var copy := new DayMap();
      copy.CopyFrom(utilization);
      assert copy.View() == stored == utilization.View();
      updates := copy;
      Repr := Repr + updates.Repr;
    }

    /** One assignment to the workspace; the persisted map is not written to. */
    method Allocate(day: int, hour: int, x: real)
      requires Ready()
      modifies this`Repr, updates.Repr
      ensures Ready() && fresh(Repr - old(Repr)) && old(Repr) <= Repr
      ensures Stored() == old(Stored()) && updates.View() == Put(old(updates.View()), day, hour, x)
    {
      updates.Store(day, hour, x);
      Repr := Repr + updates.Repr;
    }

    /** The body of the loop over the orders, for one hour: takes the order's share of what the
        orders before it left. */
    method TakeShare(dayTime: int, hourlyUtilization: real) returns (rest: real)
      requires Ready()
      modifies this`Repr, updates.Repr
      ensures Ready() && fresh(Repr - old(Repr)) && old(Repr) <= Repr
      ensures rest == LeftBy(terms, dayTime, hourlyUtilization)
      ensures Stored() == old(Stored())
      ensures updates.View() == Offered(old(updates.View()), terms, dayTime, hourlyUtilization)
    {
      rest := hourlyUtilization;
      if dayTime < terms.start || dayTime > terms.end {
        return;
      }
      var allocation := 0.0;
      if hourlyUtilization > 0.0 {
        if hourlyUtilization >= terms.unitsPerHour {
          allocation := terms.unitsPerHour;
          rest := hourlyUtilization - terms.unitsPerHour;
        } else {
          allocation := hourlyUtilization;
          rest := 0.0;
        }
      }
      Allocate(DayOfTime(dayTime), HourOfTime(dayTime), allocation);
    }

    /** The copy back at the end of distributeUtilization. */
    method Keep()
      requires Ready()
      modifies this`Repr, utilization.Repr
      ensures Ready() && fresh(Repr - old(Repr)) && old(Repr) <= Repr
      ensures Stored() == Merge(old(Stored()), old(updates.View())) && updates.View() == old(updates.View())
    {
      ghost var stored, work := utilization.View(), updates.View();
      utilization.CopyFrom(updates);
      assert utilization.View() == Merge(stored, work) && updates.View() == work;
      Repr := Repr + utilization.Repr;
    }

    /** One day of distributeEmptyUtilization: each map gets zeros of its own. */
    method ZeroDay(day: int)
      requires Ready()
      modifies this`Repr, utilization, updates
      ensures Ready() && fresh(Repr - old(Repr)) && old(Repr) <= Repr
      ensures Stored() == old(Stored())[day := ZeroHours(24)]
      ensures updates.View() == old(updates.View())[day := ZeroHours(24)]
    {
      utilization.ZeroDay(day);
      updates.ZeroDay(day);
      Repr := Repr + utilization.Repr + updates.Repr;
    }

    /** The days of distributeEmptyUtilization for one order. */
    method ZeroAll(first: int, count: nat)
      requires Ready()
      modifies Repr
      ensures Ready() && fresh(Repr - old(Repr)) && old(Repr) <= Repr
      ensures Stored() == ZeroDays(old(Stored()), first, count)
      ensures updates.View() == ZeroDays(old(updates.View()), first, count)
    {
      for i := 0 to count
        invariant Ready() && fresh(Repr - old(Repr)) && old(Repr) <= Repr
        invariant Stored() == ZeroDays(old(Stored()), first, i)
        invariant updates.View() == ZeroDays(old(updates.View()), first, i)
      {
        ZeroDay(first + i);
      }
    }

    /** The accounting of one line: kept when its savings reach its penalty. */
    method AccountLine(hoursUtilized: real, currentMonthDays: real, increment: real)
      modifies this`costs
      ensures costs == AddLine(old(costs), MonthTerms(terms, currentMonthDays, increment),
                               hoursUtilized)
    {
      var normalizedUnitSavings := terms.savingsRate * hoursUtilized;
      var totalHours := currentMonthDays * 24.0 * increment;
      var normalizedUnitPenalty := terms.penaltyRate * (totalHours - hoursUtilized);
      if normalizedUnitSavings >= normalizedUnitPenalty {
        costs := costs.(savings := costs.savings + normalizedUnitSavings,
                        qualified := costs.qualified + hoursUtilized,
                        penalty := costs.penalty + normalizedUnitPenalty,
                        lineUnits := costs.lineUnits + 1.0);
      } else {
        costs := costs.(discardedSavings := costs.discardedSavings + normalizedUnitSavings,
                        discardedPenalty := costs.discardedPenalty + normalizedUnitPenalty,
                        unqualified := costs.unqualified + hoursUtilized);
      }
    }

    /** Line itr of usage u comes next: the workspace and the costs are what the first itr lines
        leave. */
    ghost predicate AtLine(u: Usage, t: Terms, itr: nat)
      reads this, Repr
    {
      Ready() && updates.View() == Drained(u, itr, t.increment) && costs == CostsAfter(u, t, itr)
    }

    /** One iteration. */
    method DrainLine(itr: nat, currentMonthDays: real, increment: real, ghost u: Usage)
      requires increment > 0.0 && AtLine(u, MonthTerms(terms, currentMonthDays, increment), itr)
      modifies this`costs, updates.Repr - {updates}
      ensures AtLine(u, MonthTerms(terms, currentMonthDays, increment), itr + 1)
      ensures Stored() == old(Stored())
    {
      DrainStep(u, itr, increment);
      var hoursUtilized := updates.TakeLine(increment);
      assert updates.View() == Drained(u, itr + 1, increment) && hoursUtilized == HoursUtilized(u, itr, increment);
      AccountLine(hoursUtilized, currentMonthDays, increment);
    }

    /** The loop over the line units. */
    method DrainLines(iterations: int, currentMonthDays: real, increment: real)
      requires Ready() && increment > 0.0 && costs == NO_COSTS
      modifies this`costs, updates.Repr - {updates}
      ensures AtLine(old(updates.View()), MonthTerms(terms, currentMonthDays, increment), NotNegative(iterations))
      ensures Stored() == old(Stored())
    {
      ghost var u, stored, t := updates.View(), Stored(), MonthTerms(terms, currentMonthDays, increment);
      ghost var drained := updates.Repr;
      DrainNothing(u, increment);
      assert AtLine(u, t, 0);
      var itr := 0;
      while itr < iterations
        invariant 0 <= itr <= NotNegative(iterations)
        invariant updates == old(updates) && updates.Repr == drained
        invariant AtLine(u, t, itr)
        invariant Stored() == stored
      {
        DrainLine(itr, currentMonthDays, increment, u);
        itr := itr + 1;
      }
      assert itr == NotNegative(iterations);
    }

    /** The body of calculateAutopilotQualifiedCosts, given the day of the month of mtd. */
    method CalculateQualifiedCosts(mtd: int, mtdDay: nat)
      requires Ready() && terms.factor > 0.0
      modifies this`costs, updates.Repr - {updates}
      ensures Ready()
      ensures Stored() == old(Stored())
      ensures costs == QualifiedCosts(old(updates.View()), terms, mtd, mtdDay)
      ensures updates.View() == Drained(old(updates.View()), Iterations(terms), Increment(terms))
    {
      costs := NO_COSTS;
      var currentMonthDays := terms.endDay as real;
      if mtd > terms.start && mtd < terms.end {
        currentMonthDays := (mtdDay - 1) as real;
      }
      var (iterations, increment) := FindIncrementAndIterations(terms.unitsPerHour, terms.factor);
      DrainLines(iterations, currentMonthDays, increment);
    }
  }

  function MonthTerms(o: OrderTerms, days: real, increment: real): Terms {
    Terms(increment, o.savingsRate, o.penaltyRate, days * 24.0)
  }

  function Iterations(o: OrderTerms): nat
    requires o.factor > 0.0
  {
    NotNegative(FindIncrementAndIterations(o.unitsPerHour, o.factor).0)
  }

  function NotNegative(n: int): nat {
    if n < 0 then 0 else n
  }

  function Increment(o: OrderTerms): real
    requires o.factor > 0.0
  {
    FindIncrementAndIterations(o.unitsPerHour, o.factor).1
  }

  function LineTerms(o: OrderTerms, mtd: int, mtdDay: nat): Terms
    requires o.factor > 0.0
  {
    var days := if mtd > o.start && mtd < o.end then mtdDay - 1 else o.endDay;
    MonthTerms(o, days as real, Increment(o))
  }

  ghost function QualifiedCosts(u: Usage, o: OrderTerms, mtd: int, mtdDay: nat): Costs
    requires o.factor > 0.0
  {
    CostsAfter(u, LineTerms(o, mtd, mtdDay), Iterations(o))
  }
}
