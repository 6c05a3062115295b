/** How an order's usage is drained one line unit at a time, and what each line is worth.

    The k-th line (from 0) takes one increment out of every hour that still has usage.  It is
    kept when its savings reach its penalty. */
module LineUnits {
  import opened HourlyUsage

  /** int64(x): towards zero. */
  function Truncated(x: real): int {
    if x >= 0.0 then x.Floor else -((-x).Floor)
  }

  /** findIncrementAndIterations. */
  function FindIncrementAndIterations(unitsPerHour: real, factor: real): (r: (int, real))
    requires factor > 0.0
  {
    var iterations := unitsPerHour / factor;
    if factor > 1.0 then (Truncated(iterations * factor), 1.0) else (Truncated(iterations), factor)
  }

  lemma ProductQuotient(x: real, y: real)
    requires x > 0.0
    ensures x * y / x == y
  {
    var q := x * y / x;
    assert q * x == x * y == y * x;
    Cancel(q, y, x);
  }

  lemma Cancel(a: real, b: real, x: real)
    requires x > 0.0 && a * x == b * x
    ensures a == b
  {
    assert (a - b) * x == 0.0;
  }

  lemma {:induction false} WholeProduct(a: int, n: nat)
    ensures (a * n) as real == a as real * n as real
  {
    if n > 0 {
      WholeProduct(a, n - 1);
      assert a * n == a * (n - 1) + a;
      assert a as real * n as real == a as real * (n - 1) as real + a as real;
    }
  }

  /** For an order sized as activation sizes it, the lines add up to its units per hour. */
  lemma LinesCoverOrder(factor: real, instances: nat)
    requires factor > 0.0
    requires factor > 1.0 ==> factor == factor.Floor as real
    ensures var (iterations, increment) := FindIncrementAndIterations(factor * instances as real, factor);
            iterations >= 0 && 0.0 < increment <= 1.0 && iterations as real * increment == factor * instances as real
  {
    var units := factor * instances as real;
    ProductQuotient(factor, instances as real);
    if factor > 1.0 {
      var lines := factor.Floor * instances;
      WholeUnits(factor.Floor, instances);
      assert units / factor * factor == units;
      FindMany(units, factor, lines);
      assert lines as real * 1.0 == units;
    } else {
      FindFew(units, factor, instances);
    }
  }

  /** Truncation goes towards zero by less than one. */
  lemma TruncatedIs(x: real)
    ensures x >= 0.0 ==> 0.0 <= Truncated(x) as real <= x < (Truncated(x) + 1) as real
    ensures x <= 0.0 ==> (Truncated(x) - 1) as real < x <= Truncated(x) as real <= 0.0
  {
  }

  /** The lines are as many as whole increments fit into the units per hour. */
  predicate Fits(units: real, lines: int, increment: real) {
    && (units >= 0.0 ==> 0 <= lines && lines as real * increment <= units < (lines + 1) as real * increment)
    && (units <= 0.0 ==> lines <= 0)
  }

  lemma LinesFit(units: real, factor: real)
    requires factor > 0.0
    ensures var (iterations, increment) := FindIncrementAndIterations(units, factor);
            increment == (if factor > 1.0 then 1.0 else factor) && Fits(units, iterations, increment)
  {
    var q := units / factor;
    assert q * factor == units;
    TruncatedIs(q);
    TruncatedIs(units);
    QuotientFits(units, q, Truncated(q), factor);
  }

  lemma QuotientFits(units: real, q: real, n: int, x: real)
    requires x > 0.0 && q * x == units
    requires q >= 0.0 ==> 0.0 <= n as real <= q < (n + 1) as real
    requires q <= 0.0 ==> n as real <= 0.0
    ensures Fits(units, n, x)
  {
    if q >= 0.0 {
      TimesBound(n as real, q, x);
      TimesBound(q, (n + 1) as real, x);
      TimesBound(0.0, q, x);
    } else {
      TimesBound(q, 0.0, x);
    }
  }

  lemma TimesBound(a: real, b: real, x: real)
    requires x > 0.0
    ensures a <= b ==> a * x <= b * x
    ensures a < b ==> a * x < b * x
  {
    if a <= b {
      assert (b - a) * x >= 0.0;
    }
  }

  lemma FindFew(units: real, factor: real, lines: nat)
    requires 0.0 < factor <= 1.0 && units / factor == lines as real
    ensures FindIncrementAndIterations(units, factor) == (lines, factor)
  {
    TruncatedWhole(lines);
  }

  lemma FindMany(units: real, factor: real, lines: nat)
    requires factor > 1.0 && units / factor * factor == lines as real
    ensures FindIncrementAndIterations(units, factor) == (lines, 1.0)
  {
    TruncatedWhole(lines);
  }

  lemma TruncatedWhole(k: nat)
    ensures Truncated(k as real) == k
  {
  }

  lemma WholeUnits(factor: nat, instances: nat)
    ensures factor as real * instances as real == (factor * instances) as real
    ensures Truncated((factor * instances) as real) == factor * instances >= 0
  {
    WholeProduct(factor, instances);
    TruncatedWhole(factor * instances);
  }

  // ----- One line -----

  /** What is left of x once amount has been drained; usage below zero is never touched. */
  function DrainBy(x: real, amount: real): real {
    if x <= 0.0 then x else if x - amount > 0.0 then x - amount else 0.0
  }

  function Drain(amount: real): real -> real {
    x => DrainBy(x, amount)
  }

  /** One increment for an hour that holds more than limit. */
  function UsedAbove(limit: real, increment: real): real -> real {
    x => if x > limit then increment else 0.0
  }

  function Level(k: int, increment: real): real {
    k as real * increment
  }

  lemma LevelStep(k: int, increment: real)
    ensures Level(k + 1, increment) == Level(k, increment) + increment
    ensures Level(0, increment) == 0.0
    ensures k >= 0 && increment >= 0.0 ==> Level(k, increment) >= 0.0
  {
  }

  /** Usage after k lines. */
  function Drained(u: Usage, k: nat, increment: real): Usage {
    MapUsage(u, Drain(Level(k, increment)))
  }

  /** What line k takes out of u: one increment for every hour with more than k increments. */
  ghost function HoursUtilized(u: Usage, k: nat, increment: real): real {
    Total(u, UsedAbove(Level(k, increment), increment))
  }

  lemma DrainByTwice(a: real, b: real)
    requires a >= 0.0 && b >= 0.0
    ensures forall x: real :: DrainBy(DrainBy(x, a), b) == DrainBy(x, a + b)
  {
  }

  lemma DrainTwice(u: Usage, a: real, b: real)
    requires a >= 0.0 && b >= 0.0
    ensures MapUsage(MapUsage(u, Drain(a)), Drain(b)) == MapUsage(u, Drain(a + b))
  {
    DrainByTwice(a, b);
    var left, right := MapUsage(MapUsage(u, Drain(a)), Drain(b)), MapUsage(u, Drain(a + b));
    assert left.Keys == right.Keys;
    forall d | d in u ensures left[d] == right[d] {
      assert left[d].Keys == right[d].Keys;
      forall h | h in left[d] ensures left[d][h] == right[d][h] {
        assert left[d][h] == DrainBy(DrainBy(u[d][h], a), b);
      }
    }
  }

  /** Draining once more, as the program does it on what is left. */
  lemma DrainStep(u: Usage, k: nat, increment: real)
    requires increment > 0.0
    ensures MapUsage(Drained(u, k, increment), Drain(increment)) == Drained(u, k + 1, increment)
    ensures Total(Drained(u, k, increment), UsedAbove(0.0, increment)) == HoursUtilized(u, k, increment)
  {
    DrainStepUsage(u, k, increment);
    DrainStepHours(u, k, increment);
  }

  lemma DrainStepUsage(u: Usage, k: nat, increment: real)
    requires increment > 0.0
    ensures MapUsage(Drained(u, k, increment), Drain(increment)) == Drained(u, k + 1, increment)
  {
    LevelStep(k, increment);
    DrainTwice(u, Level(k, increment), increment);
  }

  lemma DrainStepHours(u: Usage, k: nat, increment: real)
    requires increment > 0.0
    ensures Total(Drained(u, k, increment), UsedAbove(0.0, increment)) == HoursUtilized(u, k, increment)
  {
    LevelStep(k, increment);
    var a := Level(k, increment);
    UsedAfterDrain(a, increment);
    TotalOfMap(u, UsedAbove(0.0, increment), Drain(a), UsedAbove(a, increment));
  }

  lemma UsedAfterDrain(a: real, increment: real)
    requires a >= 0.0
    ensures forall x: real :: UsedAbove(a, increment)(x) == UsedAbove(0.0, increment)(Drain(a)(x))
  {
  }

  lemma DrainNothing(u: Usage, increment: real)
    ensures Drained(u, 0, increment) == u
  {
    LevelStep(0, increment);
    assert Drained(u, 0, increment).Keys == u.Keys;
    forall d | d in u ensures Drained(u, 0, increment)[d] == u[d] {
      assert Drained(u, 0, increment)[d].Keys == u[d].Keys;
    }
  }

  // ----- All lines -----

  /** What a line depends on besides the usage: the increment, the two normalized rates and
      the hours of the month so far. */
  datatype Terms = Terms(increment: real, savingsRate: real, penaltyRate: real, monthHours: real)

  datatype Costs = Costs(savings: real, penalty: real, qualified: real, unqualified: real, lineUnits: real,
                         discardedSavings: real, discardedPenalty: real)

  function LineSavings(t: Terms, hours: real): real {
    t.savingsRate * hours
  }

  function LinePenalty(t: Terms, hours: real): real {
    t.penaltyRate * (t.monthHours * t.increment - hours)
  }

  const NO_COSTS := Costs(0.0, 0.0, 0.0, 0.0, 0.0, 0.0, 0.0)

  /** The running account after one more line of the given hours. */
  function AddLine(c: Costs, t: Terms, hours: real): Costs {
    var s, p := LineSavings(t, hours), LinePenalty(t, hours);
    if s >= p then
      c.(savings := c.savings + s, penalty := c.penalty + p,
         qualified := c.qualified + hours, lineUnits := c.lineUnits + 1.0)
    else
      c.(discardedSavings := c.discardedSavings + s, discardedPenalty := c.discardedPenalty + p,
         unqualified := c.unqualified + hours)
  }

  ghost function CostsAfter(u: Usage, t: Terms, n: nat): Costs {
    if n == 0 then NO_COSTS else AddLine(CostsAfter(u, t, n - 1), t, HoursUtilized(u, n - 1, t.increment))
  }

  ghost predicate Qualifies(u: Usage, t: Terms, k: nat) {
    var hours := HoursUtilized(u, k, t.increment);
    LineSavings(t, hours) >= LinePenalty(t, hours)
  }

  // ----- Accounting -----

  function Min(a: int, b: int): int {
    if a < b then a else b
  }

  function Ceil(x: real): int {
    -((-x).Floor)
  }

  /** How many of the first n lines find usage x in an hour: the increments it takes to
      cover x, but no more than there are lines. */
  function Blocks(x: real, increment: real, n: nat): int
    requires increment > 0.0
  {
    if x <= 0.0 then 0 else Min(n, Ceil(x / increment))
  }

  function BlockUnits(increment: real, n: nat): real -> real
    requires increment > 0.0
  {
    x => Level(Blocks(x, increment, n), increment)
  }

  lemma Quotient(x: real, increment: real, k: int)
    requires increment > 0.0
    ensures x > Level(k, increment) <==> x / increment > k as real
    ensures x == Level(k, increment) <==> x / increment == k as real
  {
    var q := x / increment;
    assert x == q * increment;
    if q > k as real {
      assert (q - k as real) * increment > 0.0;
    } else if q < k as real {
      assert (k as real - q) * increment > 0.0;
    }
  }

  lemma BlocksStep(x: real, increment: real, n: nat)
    requires increment > 0.0
    ensures BlockUnits(increment, n + 1)(x)
         == BlockUnits(increment, n)(x) + UsedAbove(Level(n, increment), increment)(x)
  {
    Quotient(x, increment, n);
    LevelStep(n, increment);
  }

  /** Drain accounting: what the lines find, kept or not, is one increment for every block of
      every hour. */
  lemma {:induction false} DrainAccounting(u: Usage, t: Terms, n: nat)
    requires t.increment > 0.0
    ensures var c := CostsAfter(u, t, n);
            c.qualified + c.unqualified == Total(u, BlockUnits(t.increment, n))
  {
    var inc := t.increment;
    if n == 0 {
      var none := BlockUnits(inc, 0);
      forall x: real ensures none(x) == 0.0 {
        Quotient(x, inc, 0);
        LevelStep(0, inc);
      }
      TotalSum(u, none, none, none);
    } else {
      DrainAccounting(u, t, n - 1);
      forall x: real
        ensures BlockUnits(inc, n)(x) == BlockUnits(inc, n - 1)(x) + UsedAbove(Level(n - 1, inc), inc)(x)
      {
        BlocksStep(x, inc, n - 1);
      }
      TotalSum(u, BlockUnits(inc, n - 1), UsedAbove(Level(n - 1, inc), inc), BlockUnits(inc, n));
    }
  }

  /** The usage of an hour, and the same plus an increment when there is any. */
  function Positive(): real -> real {
    x => if x > 0.0 then x else 0.0
  }

  function PositivePlus(increment: real): real -> real {
    x => if x > 0.0 then x + increment else 0.0
  }

  lemma BlocksRoundUp(x: real, increment: real, n: nat)
    requires increment > 0.0 && x <= Level(n, increment)
    ensures Positive()(x) <= BlockUnits(increment, n)(x) <= PositivePlus(increment)(x)
    ensures x > 0.0 ==> BlockUnits(increment, n)(x) < PositivePlus(increment)(x)
  {
    Quotient(x, increment, n);
    LevelStep(0, increment);
    if x > 0.0 {
      var b := Ceil(x / increment);
      Quotient(x, increment, b);
      Quotient(x, increment, b - 1);
      LevelStep(b - 1, increment);
    }
  }

  /** When no hour holds more than the lines can take, everything is drained, and rounding up
      adds less than one increment for every busy hour. */
  lemma DrainComplete(u: Usage, t: Terms, n: nat)
    requires t.increment > 0.0
    requires forall x | Occurs(u, x) :: 0.0 <= x <= Level(n, t.increment)
    ensures forall x | Occurs(Drained(u, n, t.increment), x) :: x == 0.0
    ensures var c := CostsAfter(u, t, n);
            Total(u, Positive()) <= c.qualified + c.unqualified <= Total(u, PositivePlus(t.increment))
    ensures (exists x :: Occurs(u, x) && x > 0.0) ==>
              CostsAfter(u, t, n).qualified + CostsAfter(u, t, n).unqualified < Total(u, PositivePlus(t.increment))
  {
    var inc := t.increment;
    var blocks, bound := BlockUnits(inc, n), PositivePlus(inc);
    DrainAccounting(u, t, n);
    forall x | Occurs(u, x)
      ensures Positive()(x) <= blocks(x) <= bound(x)
      ensures x > 0.0 ==> blocks(x) < bound(x)
    {
      BlocksRoundUp(x, inc, n);
    }
    TotalMono(u, Positive(), blocks);
    TotalMono(u, blocks, bound);
    if x :| Occurs(u, x) && x > 0.0 {
      var d, h :| d in u && h in u[d] && u[d][h] == x;
      TotalMonoStrict(u, blocks, bound, d, h);
    }
    DrainedToZero(u, n, inc);
  }

  lemma DrainedToZero(u: Usage, n: nat, increment: real)
    requires forall x | Occurs(u, x) :: 0.0 <= x <= Level(n, increment)
    ensures forall x | Occurs(Drained(u, n, increment), x) :: x == 0.0
  {
    var left := Drained(u, n, increment);
    forall x | Occurs(left, x) ensures x == 0.0 {
      var d, h :| d in left && h in left[d] && left[d][h] == x;
      assert Occurs(u, u[d][h]);
    }
  }

  /** What a number of lines cost for the rest of the month, of which hours were used. */
  function LinesPenalty(t: Terms, lines: real, hours: real): real {
    t.penaltyRate * (t.monthHours * t.increment * lines - hours)
  }

  lemma LinesPenaltyStep(t: Terms, lines: real, before: real, hours: real)
    ensures LinesPenalty(t, lines, before) + LinePenalty(t, hours) == LinesPenalty(t, lines + 1.0, before + hours)
  {
    var lineHours := t.monthHours * t.increment;
    assert lineHours * (lines + 1.0) == lineHours * lines + lineHours;
    CommonFactor(t.penaltyRate, lineHours * lines - before, lineHours - hours);
  }

  lemma CommonFactor(a: real, x: real, y: real)
    ensures a * x + a * y == a * (x + y)
  {
  }

  /** Savings and penalties follow from the hours and the number of the lines, for the kept ones
      and for the discarded ones. */
  ghost predicate FollowHours(c: Costs, t: Terms, n: real) {
    && c.savings == LineSavings(t, c.qualified) && c.penalty == LinesPenalty(t, c.lineUnits, c.qualified)
    && c.discardedSavings == LineSavings(t, c.unqualified)
    && c.discardedPenalty == LinesPenalty(t, n - c.lineUnits, c.unqualified)
  }

  lemma AddLineFollows(c: Costs, t: Terms, n: real, hours: real)
    requires FollowHours(c, t, n)
    ensures FollowHours(AddLine(c, t, hours), t, n + 1.0)
  {
    if LineSavings(t, hours) >= LinePenalty(t, hours) {
      LinesPenaltyStep(t, c.lineUnits, c.qualified, hours);
      CommonFactor(t.savingsRate, c.qualified, hours);
    } else {
      LinesPenaltyStep(t, n - c.lineUnits, c.unqualified, hours);
      CommonFactor(t.savingsRate, c.unqualified, hours);
    }
  }

  /** The hours of kept lines are what is saved on, and the rest of the month of just these
      lines is what is paid for. */
  lemma {:induction false} CostsFollowHours(u: Usage, t: Terms, n: nat)
    ensures FollowHours(CostsAfter(u, t, n), t, n as real)
  {
    if n > 0 {
      CostsFollowHours(u, t, n - 1);
      AddLineFollows(CostsAfter(u, t, n - 1), t, (n - 1) as real, HoursUtilized(u, n - 1, t.increment));
    }
  }

  // ----- Which lines are kept -----

  /** Line by line there is never more usage left. */
  lemma HoursNeverGrow(u: Usage, k: nat, increment: real)
    requires increment > 0.0
    ensures HoursUtilized(u, k + 1, increment) <= HoursUtilized(u, k, increment)
  {
    LevelStep(k, increment);
    TotalMono(u, UsedAbove(Level(k + 1, increment), increment), UsedAbove(Level(k, increment), increment));
  }

  lemma QualifiesEarlier(u: Usage, t: Terms, k: nat)
    requires t.increment > 0.0 && t.savingsRate + t.penaltyRate >= 0.0
    requires Qualifies(u, t, k + 1)
    ensures Qualifies(u, t, k)
  {
    HoursNeverGrow(u, k, t.increment);
    var more, less := HoursUtilized(u, k, t.increment), HoursUtilized(u, k + 1, t.increment);
    assert (t.savingsRate + t.penaltyRate) * less <= (t.savingsRate + t.penaltyRate) * more;
    assert (t.savingsRate + t.penaltyRate) * less == t.savingsRate * less + t.penaltyRate * less;
    assert (t.savingsRate + t.penaltyRate) * more == t.savingsRate * more + t.penaltyRate * more;
    var all := t.monthHours * t.increment;
    assert t.penaltyRate * (all - less) == t.penaltyRate * all - t.penaltyRate * less;
    assert t.penaltyRate * (all - more) == t.penaltyRate * all - t.penaltyRate * more;
  }

  /** The lines kept are the first ones, and MTDQualifiedLineUnits says how many. */
  lemma {:induction false} KeptLinesArePrefix(u: Usage, t: Terms, n: nat)
    requires t.increment > 0.0 && t.savingsRate + t.penaltyRate >= 0.0
    ensures 0.0 <= CostsAfter(u, t, n).lineUnits <= n as real
    ensures forall k: nat | k < n :: Qualifies(u, t, k) <==> k as real < CostsAfter(u, t, n).lineUnits
  {
    if n > 0 {
      KeptLinesArePrefix(u, t, n - 1);
      if Qualifies(u, t, n - 1) {
        AllEarlierQualify(u, t, n - 1);
        AllKept(u, t, n - 1);
      }
    }
  }

  lemma {:induction false} AllEarlierQualify(u: Usage, t: Terms, k: nat)
    requires t.increment > 0.0 && t.savingsRate + t.penaltyRate >= 0.0
    requires Qualifies(u, t, k)
    ensures forall j: nat | j <= k :: Qualifies(u, t, j)
  {
    if k > 0 {
      QualifiesEarlier(u, t, k - 1);
      AllEarlierQualify(u, t, k - 1);
    }
  }

  lemma {:induction false} AllKept(u: Usage, t: Terms, n: nat)
    requires forall j: nat | j < n :: Qualifies(u, t, j)
    ensures CostsAfter(u, t, n).lineUnits == n as real
  {
    if n > 0 {
      AllKept(u, t, n - 1);
      assert Qualifies(u, t, n - 1);
    }
  }

  /** Net savings of the lines chosen among the first n. */
  ghost function NetSavings(u: Usage, t: Terms, chosen: set<int>, n: nat): real {
    if n == 0 then 0.0
    else
      var hours := HoursUtilized(u, n - 1, t.increment);
      NetSavings(u, t, chosen, n - 1)
      + if n - 1 in chosen then LineSavings(t, hours) - LinePenalty(t, hours) else 0.0
  }

  /** No choice of lines, in particular none with a kept line left out or a discarded one put
      in, saves more than the lines that were kept. */
  lemma {:induction false} KeptLinesAreOptimal(u: Usage, t: Terms, chosen: set<int>, n: nat)
    ensures var c := CostsAfter(u, t, n);
            NetSavings(u, t, chosen, n) <= c.savings - c.penalty
  {
    if n > 0 {
      KeptLinesAreOptimal(u, t, chosen, n - 1);
    }
  }

  ghost function KeptLines(u: Usage, t: Terms, n: nat): set<int> {
    set k: int | 0 <= k < n && Qualifies(u, t, k)
  }

  /** The hours of the chosen lines among the first n. */
  ghost function HoursOf(u: Usage, increment: real, chosen: set<int>, n: nat): real {
    if n == 0 then 0.0
    else
      HoursOf(u, increment, chosen, n - 1) + if n - 1 in chosen then HoursUtilized(u, n - 1, increment) else 0.0
  }

  /** The hours recorded as qualified are those of the kept lines, and MTDQualifiedLineUnits is
      their number. */
  lemma KeptLinesRecorded(u: Usage, t: Terms, n: nat)
    ensures CostsAfter(u, t, n).lineUnits == |KeptLines(u, t, n)| as real
    ensures CostsAfter(u, t, n).qualified == HoursOf(u, t.increment, KeptLines(u, t, n), n)
  {
    KeptLinesRecordedAmong(u, t, KeptLines(u, t, n), n, n);
  }

  lemma {:induction false} KeptLinesRecordedAmong(u: Usage, t: Terms, kept: set<int>, n: nat, m: nat)
    requires n <= m && kept == KeptLines(u, t, m)
    ensures CostsAfter(u, t, n).lineUnits == |KeptLines(u, t, n)| as real
    ensures CostsAfter(u, t, n).qualified == HoursOf(u, t.increment, kept, n)
  {
    if n == 0 {
      assert KeptLines(u, t, 0) == {};
    } else {
      KeptLinesRecordedAmong(u, t, kept, n - 1, m);
      OneLineMore(u, t, n - 1, m);
      OneLineRecorded(u, t, n - 1);
      hide CostsAfter;
      hide KeptLines;
    }
  }

  lemma OneLineRecorded(u: Usage, t: Terms, n: nat)
    ensures var before, after := CostsAfter(u, t, n), CostsAfter(u, t, n + 1);
            if Qualifies(u, t, n) then
              && after.lineUnits == before.lineUnits + 1.0
              && after.qualified == before.qualified + HoursUtilized(u, n, t.increment)
            else after.lineUnits == before.lineUnits && after.qualified == before.qualified
  {
  }

  lemma OneLineMore(u: Usage, t: Terms, n: nat, m: nat)
    requires n < m
    ensures |KeptLines(u, t, n + 1)| == |KeptLines(u, t, n)| + if Qualifies(u, t, n) then 1 else 0
    ensures n in KeptLines(u, t, m) <==> Qualifies(u, t, n)
  {
    var before, after := KeptLines(u, t, n), KeptLines(u, t, n + 1);
    assert n as int !in before;
    assert after == before + if Qualifies(u, t, n) then {n as int} else {};
  }

  /** The kept lines, as a choice, save exactly what is recorded. */
  lemma KeptLinesAttain(u: Usage, t: Terms, n: nat)
    ensures var c := CostsAfter(u, t, n);
            NetSavings(u, t, KeptLines(u, t, n), n) == c.savings - c.penalty
  {
    KeptLinesAttainAmong(u, t, KeptLines(u, t, n), n, n);
  }

  lemma {:induction false} KeptLinesAttainAmong(u: Usage, t: Terms, kept: set<int>, n: nat, m: nat)
    requires n <= m && kept == KeptLines(u, t, m)
    ensures var c := CostsAfter(u, t, n);
            NetSavings(u, t, kept, n) == c.savings - c.penalty
  {
    if n > 0 {
      KeptLinesAttainAmong(u, t, kept, n - 1, m);
      assert n - 1 in kept <==> Qualifies(u, t, n - 1);
    }
  }

  /** Hence no order is ever charged: penalty - savings is never positive. */
  lemma {:induction false} AdjustmentNeverPositive(u: Usage, t: Terms, n: nat)
    ensures CostsAfter(u, t, n).penalty - CostsAfter(u, t, n).savings <= 0.0
  {
    KeptLinesAreOptimal(u, t, {}, n);
    NothingChosen(u, t, n);
  }

  lemma {:induction false} NothingChosen(u: Usage, t: Terms, n: nat)
    ensures NetSavings(u, t, {}, n) == 0.0
  {
    if n > 0 {
      NothingChosen(u, t, n - 1);
    }
  }
}
