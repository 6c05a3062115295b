/** Utilization per day and hour as a value, and totals over it.

    Days and hours are the numbers their date and hour strings stand for. */
module HourlyUsage {

  type Hours = map<int, real>
  type Usage = map<int, Hours>

  // ----- Updates -----

  function DayOf(u: Usage, day: int): Hours {
    if day in u then u[day] else map[]
  }

  /** u with one hour set; the day is created when it is not there yet. */
  function Put(u: Usage, day: int, hour: int, x: real): Usage {
    u[day := DayOf(u, day)[hour := x]]
  }

  /** The hours of from written over those of to. */
  function Merge(to: Usage, from: Usage): Usage {
    map d | d in to.Keys + from.Keys :: DayOf(to, d) + DayOf(from, d)
  }

  lemma HoursPlusNone(h: Hours)
    ensures h + map[] == h && map[] + h == h
  {
  }

  lemma DayOfMerge(to: Usage, from: Usage, d: int)
    ensures DayOf(Merge(to, from), d) == DayOf(to, d) + DayOf(from, d)
  {
    HoursPlusNone(map[]);
  }

  lemma MergeNothing(u: Usage)
    ensures Merge(u, map[]) == u
  {
    assert Merge(u, map[]).Keys == u.Keys;
    forall d | d in u ensures Merge(u, map[])[d] == u[d] {
      HoursPlusNone(u[d]);
    }
  }

  lemma MergeNone(to: Usage, from: Usage)
    ensures Merge(to, from - from.Keys) == to
  {
    assert from - from.Keys == map[];
    MergeNothing(to);
  }

  lemma MergeAll(to: Usage, from: Usage)
    ensures Merge(to, from - {}) == Merge(to, from)
  {
    assert from - {} == from;
  }

  lemma MergeIntoEmpty(u: Usage)
    ensures Merge(map[], u) == u
  {
    assert Merge(map[], u).Keys == u.Keys;
    forall d | d in u ensures Merge(map[], u)[d] == u[d] {
      HoursPlusNone(u[d]);
    }
  }

  /** Merging one day more. */
  lemma MergeDay(to: Usage, from: Usage, todo: set<int>, d: int)
    requires d in todo && d in from
    ensures var before := Merge(to, from - todo);
            Merge(to, from - (todo - {d})) == before[d := DayOf(before, d) + from[d]]
  {
    var before, after := Merge(to, from - todo), Merge(to, from - (todo - {d}));
    DayOfMerge(to, from - todo, d);
    HoursPlusNone(DayOf(to, d));
    assert after.Keys == before.Keys + {d};
  }

  /** A day of 24 hours without usage. */
  function ZeroHours(n: int): Hours {
    map h | 0 <= h < n && IsHour(h, n) :: 0.0
  }

  predicate IsHour(h: int, n: int) {
    0 <= h < n
  }

  lemma ZeroHoursStep(n: nat)
    ensures ZeroHours(0) == map[] && ZeroHours(n + 1) == ZeroHours(n)[n := 0.0]
  {
  }

  /** u with count days from the given one on set to zero usage. */
  function ZeroDays(u: Usage, first: int, count: nat): Usage {
    if count == 0 then u else ZeroDays(u, first, count - 1)[first + count - 1 := ZeroHours(24)]
  }

  /** Every value of u changed by f. */
  function MapHours(h: Hours, f: real -> real): Hours {
    map k | k in h :: f(h[k])
  }

  function MapUsage(u: Usage, f: real -> real): Usage {
    map d | d in u :: MapHours(u[d], f)
  }

  lemma MapUsageIs(u: Usage, f: real -> real, changed: Usage)
    requires changed.Keys == u.Keys && forall d | d in u :: changed[d] == MapHours(u[d], f)
    ensures changed == MapUsage(u, f)
  {
    var m := MapUsage(u, f);
    assert m.Keys == changed.Keys;
    forall d | d in m ensures m[d] == changed[d] {}
  }

  // ----- Totals -----

  /** Some element of a set: Go iterates over maps in no fixed order. */
  ghost function AnyOf<T>(s: set<T>): (x: T)
    requires s != {}
    ensures x in s
  {
    var x :| x in s;
    x
  }

  ghost function AnyKey<V>(m: map<int, V>): (k: int)
    requires m != map[]
    ensures k in m
  {
    assert m.Keys == {} ==> m == map[];
    AnyOf(m.Keys)
  }

  /** The sum of f over the hours of a day, in whatever order they are taken. */
  ghost function DayTotal(h: Hours, f: real -> real): real
    decreases |h|
  {
    if h == map[] then 0.0
    else
      var k := AnyKey(h);
      f(h[k]) + DayTotal(h - {k}, f)
  }

  /** The sum of f over all hours of all days. */
  ghost function Total(u: Usage, f: real -> real): real
    decreases |u|
  {
    if u == map[] then 0.0
    else
      var d := AnyKey(u);
      DayTotal(u[d], f) + Total(u - {d}, f)
  }

  lemma {:induction false} DayTotalTake(h: Hours, f: real -> real, k: int)
    requires k in h
    ensures DayTotal(h, f) == f(h[k]) + DayTotal(h - {k}, f)
    decreases |h|
  {
    var k' := AnyKey(h);
    if k' != k {
      DayTotalTake(h - {k'}, f, k);
      DayTotalTake(h - {k}, f, k');
      assert h - {k'} - {k} == h - {k} - {k'};
    }
  }

  lemma {:induction false} TotalTake(u: Usage, f: real -> real, d: int)
    requires d in u
    ensures Total(u, f) == DayTotal(u[d], f) + Total(u - {d}, f)
    decreases |u|
  {
    var d' := AnyKey(u);
    if d' != d {
      TotalTake(u - {d'}, f, d);
      TotalTake(u - {d}, f, d');
      assert u - {d'} - {d} == u - {d} - {d'};
    }
  }

  /** Taking one key out of todo, in a sum over the keys not in todo. */
  lemma DayTotalGrow(h: Hours, todo: set<int>, f: real -> real, k: int)
    requires k in todo && k in h
    ensures DayTotal(h - (todo - {k}), f) == DayTotal(h - todo, f) + f(h[k])
  {
    DayTotalTake(h - (todo - {k}), f, k);
    assert h - (todo - {k}) - {k} == h - todo;
  }

  lemma TotalGrow(u: Usage, todo: set<int>, f: real -> real, d: int)
    requires d in todo && d in u
    ensures Total(u - (todo - {d}), f) == Total(u - todo, f) + DayTotal(u[d], f)
  {
    TotalTake(u - (todo - {d}), f, d);
    assert u - (todo - {d}) - {d} == u - todo;
  }

  /** x is the value of some hour of u. */
  ghost predicate Occurs(u: Usage, x: real) {
    exists d, h :: d in u && h in u[d] && u[d][h] == x
  }

  lemma {:induction false} DayTotalSum(h: Hours, f: real -> real, g: real -> real, s: real -> real)
    requires forall k | k in h :: s(h[k]) == f(h[k]) + g(h[k])
    ensures DayTotal(h, s) == DayTotal(h, f) + DayTotal(h, g)
    decreases |h|
  {
    if h != map[] {
      var k := AnyKey(h);
      DayTotalTake(h, f, k);
      DayTotalTake(h, g, k);
      DayTotalTake(h, s, k);
      DayTotalSum(h - {k}, f, g, s);
    }
  }

  lemma {:induction false} TotalSum(u: Usage, f: real -> real, g: real -> real, s: real -> real)
    requires forall x | Occurs(u, x) :: s(x) == f(x) + g(x)
    ensures Total(u, s) == Total(u, f) + Total(u, g)
    decreases |u|
  {
    if u != map[] {
      var d := AnyKey(u);
      TotalTake(u, f, d);
      TotalTake(u, g, d);
      TotalTake(u, s, d);
      forall k | k in u[d] ensures Occurs(u, u[d][k]) {}
      DayTotalSum(u[d], f, g, s);
      OccursRest(u, d);
      TotalSum(u - {d}, f, g, s);
    }
  }

  lemma OccursRest(u: Usage, d: int)
    ensures forall x | Occurs(u - {d}, x) :: Occurs(u, x)
  {
    forall x | Occurs(u - {d}, x) ensures Occurs(u, x) {
      var d', h :| d' in u - {d} && h in (u - {d})[d'] && (u - {d})[d'][h] == x;
      assert u[d'][h] == x;
    }
  }

  lemma {:induction false} DayTotalMono(h: Hours, f: real -> real, g: real -> real)
    requires forall k | k in h :: f(h[k]) <= g(h[k])
    ensures DayTotal(h, f) <= DayTotal(h, g)
    decreases |h|
  {
    if h != map[] {
      var k := AnyKey(h);
      DayTotalTake(h, f, k);
      DayTotalTake(h, g, k);
      DayTotalMono(h - {k}, f, g);
    }
  }

  lemma {:induction false} TotalMono(u: Usage, f: real -> real, g: real -> real)
    requires forall x | Occurs(u, x) :: f(x) <= g(x)
    ensures Total(u, f) <= Total(u, g)
    decreases |u|
  {
    if u != map[] {
      var d := AnyKey(u);
      TotalTake(u, f, d);
      TotalTake(u, g, d);
      forall k | k in u[d] ensures Occurs(u, u[d][k]) {}
      DayTotalMono(u[d], f, g);
      OccursRest(u, d);
      TotalMono(u - {d}, f, g);
    }
  }

  /** Monotonicity is strict as soon as one hour is. */
  lemma TotalMonoStrict(u: Usage, f: real -> real, g: real -> real, d: int, h: int)
    requires forall x | Occurs(u, x) :: f(x) <= g(x)
    requires d in u && h in u[d] && f(u[d][h]) < g(u[d][h])
    ensures Total(u, f) < Total(u, g)
  {
    TotalTake(u, f, d);
    TotalTake(u, g, d);
    OccursRest(u, d);
    TotalMono(u - {d}, f, g);
    DayTotalTake(u[d], f, h);
    DayTotalTake(u[d], g, h);
    forall k | k in u[d] ensures Occurs(u, u[d][k]) {}
    DayTotalMono(u[d] - {h}, f, g);
  }

  lemma {:induction false} DayTotalOfMap(h: Hours, f: real -> real, g: real -> real, fg: real -> real)
    requires forall x: real :: fg(x) == f(g(x))
    ensures DayTotal(MapHours(h, g), f) == DayTotal(h, fg)
    decreases |h|
  {
    var m := MapHours(h, g);
    if h != map[] {
      var k := AnyKey(h);
      DayTotalTake(m, f, k);
      DayTotalTake(h, fg, k);
      var x := h[k];
      assert fg(x) == f(g(x));
      assert m[k] == g(x);
      assert m - {k} == MapHours(h - {k}, g);
      DayTotalOfMap(h - {k}, f, g, fg);
    } else {
      assert m == map[];
    }
  }

  lemma {:induction false} TotalOfMap(u: Usage, f: real -> real, g: real -> real, fg: real -> real)
    requires forall x: real :: fg(x) == f(g(x))
    ensures Total(MapUsage(u, g), f) == Total(u, fg)
    decreases |u|
  {
    var m := MapUsage(u, g);
    if u != map[] {
      var d := AnyKey(u);
      TotalTake(m, f, d);
      TotalTake(u, fg, d);
      assert m - {d} == MapUsage(u - {d}, g);
      DayTotalOfMap(u[d], f, g, fg);
      TotalOfMap(u - {d}, f, g, fg);
    } else {
      assert m == map[];
    }
  }
}
