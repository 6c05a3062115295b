/** The nested maps of an autopilot record, on the heap: a map from days to maps from hours,
    where the inner maps are objects that two outer maps could share. */
module UsageMaps {
  import opened GoMaps
  import opened HourlyUsage
  import opened LineUnits

  class HourMap {
    var hours: Hours

    constructor ()
      ensures hours == map[]
    {
      hours := map[];
    }

    /** The inner loop of copyFromTo. */
    method CopyFrom(from: HourMap)
      requires from != this
      modifies this
      ensures hours == old(hours) + from.hours
    {
      var todo := from.hours.Keys;
      while todo != {}
        invariant todo <= from.hours.Keys
        invariant hours == old(hours) + (from.hours - todo)
      {
        var hour := Next(todo);
        hours := hours[hour := from.hours[hour]];
        todo := todo - {hour};
      }
    }

    /** Zeros for all hours of a day, in a new map. */
    method FillZeros()
      requires hours == map[]
      modifies this
      ensures hours == ZeroHours(24)
    {
      ZeroHoursStep(0);
      for hour := 0 to 24
        invariant hours == ZeroHours(hour)
      {
        ZeroHoursStep(hour);
        hours := hours[hour := 0.0];
      }
    }

    /** The innermost loop of calculateAutopilotQualifiedCosts: takes one increment out of
        every hour with usage, and adds what it took to hoursUtilized. */
    method TakeLine(increment: real, hoursUtilized: real) returns (total: real)
      modifies this
      ensures hours == MapHours(old(hours), Drain(increment))
      ensures total == hoursUtilized + DayTotal(old(hours), UsedAbove(0.0, increment))
    {
      ghost var was := hours;
      var todo := hours.Keys;
      total := hoursUtilized;
      assert was - todo == map[];
      while todo != {}
        invariant todo <= was.Keys == hours.Keys
        invariant forall h | h in todo :: hours[h] == was[h]
        invariant forall h | h in was && h !in todo :: hours[h] == DrainBy(was[h], increment)
        invariant total == hoursUtilized + DayTotal(was - todo, UsedAbove(0.0, increment))
      {
        var hour := Next(todo);
        var used := hours[hour];
        DayTotalGrow(was, todo, UsedAbove(0.0, increment), hour);
        if used > 0.0 {
          var remaining := used - increment;
          hours := hours[hour := if remaining > 0.0 then remaining else 0.0];
          total := total + increment;
        }
        todo := todo - {hour};
      }
      assert was - {} == was;
      assert MapHours(was, Drain(increment)).Keys == hours.Keys;
      assert forall h | h in was :: MapHours(was, Drain(increment))[h] == hours[h];
    }
  }

  class DayMap {
    var days: map<int, HourMap>
    ghost var Repr: set<object>

    constructor ()
      ensures Valid() && fresh(Repr)
      ensures View() == map[]
    {
      days := map[];
      Repr := {this};
    }

    /** No two days share an inner map, and Repr is all that is written to. */
    ghost predicate Valid()
      reads this, Repr
      ensures Valid() ==> this in Repr
    {
      && this in Repr
      && (forall d | d in days :: days[d] in Repr)
      && forall d, e | d in days && e in days && days[d] == days[e] :: d == e
    }

    ghost function View(): Usage
      requires Valid()
      reads this, Repr
    {
      map d | d in days :: days[d].hours
    }

    /** mapRef[day] = mallocMapOfFloatsIfAbsent(day, mapRef). */
    method RowOf(day: int) returns (row: HourMap)
      requires Valid()
      modifies this
      ensures Valid() && fresh(Repr - old(Repr)) && old(Repr) <= Repr
      ensures days == old(days)[day := row]
      ensures row.hours == DayOf(old(View()), day)
      ensures View() == old(View())[day := row.hours]
    {
      if day in days {
        row := days[day];
      } else {
        row := new HourMap();
        Repr := Repr + {row};
      }
      days := days[day := row];
    }

    /** mapRef[day][hour] = x, the day being created if absent. */
    method Store(day: int, hour: int, x: real)
      requires Valid()
      modifies Repr
      ensures Valid() && fresh(Repr - old(Repr)) && old(Repr) <= Repr
      ensures View() == Put(old(View()), day, hour, x)
    {
      var row := RowOf(day);
      ghost var rest := View();
      row.hours := row.hours[hour := x];
      assert View().Keys == rest.Keys;
      assert forall d | d in days && d != day :: View()[d] == rest[d];
    }

    /** mapRef[day] = a new map with zeros for all hours of a day. */
    method ZeroDay(day: int)
      requires Valid()
      modifies this
      ensures Valid() && fresh(Repr - old(Repr)) && old(Repr) <= Repr
      ensures View() == old(View())[day := ZeroHours(24)]
    {
      var row := new HourMap();
      row.FillZeros();
      Repr := Repr + {row};
      days := days[day := row];
    }

    /** One day of copyFromTo. */
    method CopyDay(from: DayMap, day: int)
      requires Valid() && from.Valid() && Repr !! from.Repr
      requires day in from.days
      modifies Repr
      ensures Valid() && fresh(Repr - old(Repr)) && old(Repr) <= Repr
      ensures View() == old(View())[day := DayOf(old(View()), day) + from.View()[day]]
    {
      var row := RowOf(day);
      ghost var rest, source := View(), from.View();
      assert days[day] == row && row in Repr && from.days[day] in from.Repr;
      row.CopyFrom(from.days[day]);
      assert row.hours == rest[day] + source[day];
      assert forall d | d in days && d != day :: days[d].hours == rest[d];
      assert View() == rest[day := rest[day] + source[day]];
    }

    /** copyFromTo. */
    method CopyFrom(from: DayMap)
      requires Valid() && from.Valid() && Repr !! from.Repr
      modifies Repr
      ensures Valid() && fresh(Repr - old(Repr)) && old(Repr) <= Repr
      ensures View() == Merge(old(View()), from.View())
    {
      var todo := from.days.Keys;
      ghost var source, target := from.View(), View();
      MergeNone(target, source);
      while todo != {}
        invariant todo <= from.days.Keys
        invariant Valid() && fresh(Repr - old(Repr)) && old(Repr) <= Repr
        invariant Repr !! from.Repr && from.Valid() && from.View() == source
        invariant View() == Merge(target, source - todo)
      {
        var day := Next(todo);
        MergeDay(target, source, todo, day);
        CopyDay(from, day);
        todo := todo - {day};
      }
      MergeAll(target, source);
    }

    /** One iteration of the drain: every hour of every day. */
    method TakeLine(increment: real) returns (hoursUtilized: real)
      requires Valid()
      modifies Repr - {this}
      ensures Valid()
      ensures View() == MapUsage(old(View()), Drain(increment))
      ensures hoursUtilized == Total(old(View()), UsedAbove(0.0, increment))
    {
      ghost var was := View();
      var todo := days.Keys;
      hoursUtilized := 0.0;
      assert was - todo == map[];
      while todo != {}
        invariant todo <= days.Keys && Valid()
        invariant forall d | d in todo :: days[d].hours == was[d]
        invariant forall d | d in days && d !in todo :: days[d].hours == MapHours(was[d], Drain(increment))
        invariant hoursUtilized == Total(was - todo, UsedAbove(0.0, increment))
      {
        var day := Next(todo);
        TotalGrow(was, todo, UsedAbove(0.0, increment), day);
        hoursUtilized := days[day].TakeLine(increment, hoursUtilized);
        todo := todo - {day};
      }
      assert was - {} == was;
      MapUsageIs(was, Drain(increment), View());
    }
  }
}
