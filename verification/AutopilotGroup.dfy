/** The autopilot run over a group of orders.

    State says what the persisted maps and the workspaces of a group hold, as values; every
    method ties the state it leaves to the one it found. */
module AutopilotGroup {
  import opened HourlyUsage
  import opened LineUnits
  import opened HourlyShares
  import opened Autopilot

  function TermsOf(orders: seq<FlexRIOrder>): seq<OrderTerms> {
    seq(|orders|, i requires 0 <= i < |orders| => orders[i].terms)
  }

  ghost function Footprint(orders: seq<FlexRIOrder>): set<object>
    reads orders
  {
    set o, x | o in orders && x in o.Repr :: x
  }

  /** No two orders share anything. */
  ghost predicate Apart(orders: seq<FlexRIOrder>)
    reads orders
  {
    forall i, j | 0 <= i < j < |orders| :: orders[i].Repr !! orders[j].Repr
  }

  /** The group as loaded: stored[i] is the persisted usage of order i. */
  ghost predicate LoadedState(orders: seq<FlexRIOrder>, stored: seq<Usage>)
    reads orders, Footprint(orders)
  {
    && Apart(orders) && |stored| == |orders|
    && forall i | 0 <= i < |orders| :: orders[i].Loaded() && orders[i].Stored() == stored[i]
  }

  /** The group at work: work[i] is the workspace of order i. */
  ghost predicate Holds(orders: seq<FlexRIOrder>, stored: seq<Usage>, work: seq<Usage>)
    reads orders, Footprint(orders)
  {
    && Apart(orders) && |stored| == |work| == |orders|
    && forall i | 0 <= i < |orders| ::
         orders[i].Ready() && orders[i].Stored() == stored[i] && orders[i].updates.View() == work[i]
  }

  /** The same, order by order. */
  ghost predicate State(orders: seq<FlexRIOrder>, stored: seq<Usage>, work: seq<Usage>)
    reads orders, Footprint(orders)
  {
    && |orders| == |stored| == |work|
    && (orders != [] ==>
      && (forall j | 1 <= j < |orders| :: orders[0].Repr !! orders[j].Repr)
      && orders[0].Ready() && orders[0].Stored() == stored[0] && orders[0].updates.View() == work[0]
      && State(orders[1..], stored[1..], work[1..]))
  }

  lemma {:induction false} StateHolds(orders: seq<FlexRIOrder>, stored: seq<Usage>, work: seq<Usage>)
    ensures State(orders, stored, work) <==> Holds(orders, stored, work)
  {
    if orders != [] && |orders| == |stored| == |work| {
      StateHolds(orders[1..], stored[1..], work[1..]);
      if Holds(orders, stored, work) {
        assert Holds(orders[1..], stored[1..], work[1..]);
      }
      if State(orders, stored, work) {
        forall i, j | 0 <= i < j < |orders| ensures orders[i].Repr !! orders[j].Repr {
          if i > 0 {
            assert orders[1..][i - 1] == orders[i] && orders[1..][j - 1] == orders[j];
          }
        }
        forall i | 0 <= i < |orders|
          ensures orders[i].Ready() && orders[i].Stored() == stored[i] && orders[i].updates.View() == work[i]
        {
          if i > 0 {
            assert orders[1..][i - 1] == orders[i] && stored[1..][i - 1] == stored[i] && work[1..][i - 1] == work[i];
          }
        }
      }
    }
  }

  // ----- Preparing the workspaces -----

  method PrepareOne(orders: seq<FlexRIOrder>, k: nat, ghost stored: seq<Usage>)
    requires LoadedState(orders, stored) && k < |orders|
    modifies orders[k]
    ensures LoadedState(orders, stored)
    ensures orders[k].Ready() && orders[k].updates.View() == stored[k]
    ensures forall i | 0 <= i < |orders| ::
              fresh(orders[i].Repr - old(orders[i].Repr)) && orders[i].costs == old(orders[i].costs)
    ensures forall i, x | 0 <= i < |orders| && i != k && x in orders[i].Repr :: unchanged(x)
  {
    orders[k].Prepare();
  }

  /** The first loop of distributeAutopilotUtilizationPerHour: every workspace starts as a copy
      of what is stored. */
  method PrepareAll(orders: seq<FlexRIOrder>, ghost stored: seq<Usage>)
    requires LoadedState(orders, stored)
    modifies orders
    ensures State(orders, stored, stored)
    ensures forall i | 0 <= i < |orders| ::
              fresh(orders[i].Repr - old(orders[i].Repr)) && orders[i].costs == old(orders[i].costs)
  {
    for k := 0 to |orders|
      invariant LoadedState(orders, stored)
      invariant forall i | 0 <= i < k :: orders[i].Ready() && orders[i].updates.View() == stored[i]
      invariant forall i | 0 <= i < |orders| ::
              fresh(orders[i].Repr - old(orders[i].Repr)) && orders[i].costs == old(orders[i].costs)
    {
      PrepareOne(orders, k, stored);
    }
    StateHolds(orders, stored, stored);
  }

  // ----- Sharing out one hour -----

  /** The workspaces after the first k orders had their share. */
  function HourUpTo(work: seq<Usage>, terms: seq<OrderTerms>, t: int, usage: real, k: nat): seq<Usage>
    requires |work| == |terms|
  {
    seq(|work|, i requires 0 <= i < |work| => if i < k then AfterHour(work[i], terms, t, usage, i) else work[i])
  }

  lemma HourStart(work: seq<Usage>, terms: seq<OrderTerms>, t: int, usage: real)
    requires |work| == |terms|
    ensures HourUpTo(work, terms, t, usage, 0) == work
  {
  }

  lemma HourStep(work: seq<Usage>, terms: seq<OrderTerms>, t: int, usage: real, k: nat)
    requires |work| == |terms| && k < |terms|
    ensures var now := HourUpTo(work, terms, t, usage, k);
            HourUpTo(work, terms, t, usage, k + 1) == now[k := AfterHour(now[k], terms, t, usage, k)]
  {
  }

  /** One order is offered what is left of the hour; the others stay as they are. */
  method OfferTo(orders: seq<FlexRIOrder>, k: nat, dayTime: int, hourlyUtilization: real,
                 ghost stored: seq<Usage>, ghost work: seq<Usage>)
    returns (rest: real)
    requires Holds(orders, stored, work) && k < |orders|
    modifies orders[k].Repr
    ensures Holds(orders, stored, work[k := Offered(work[k], orders[k].terms, dayTime, hourlyUtilization)])
    ensures rest == LeftBy(orders[k].terms, dayTime, hourlyUtilization)
    ensures forall i | 0 <= i < |orders| ::
              fresh(orders[i].Repr - old(orders[i].Repr)) && orders[i].costs == old(orders[i].costs)
  {
    rest := orders[k].TakeShare(dayTime, hourlyUtilization);
  }

  /** The body of the loop over the orders. */
  method ShareOutOne(orders: seq<FlexRIOrder>, k: nat, dayTime: int, hourlyUtilization: real,
                     ghost stored: seq<Usage>, ghost work: seq<Usage>)
    returns (rest: real)
    requires State(orders, stored, work) && k < |orders| == |work|
    modifies orders[k].Repr
    ensures State(orders, stored, work[k := Offered(work[k], orders[k].terms, dayTime, hourlyUtilization)])
    ensures rest == LeftBy(orders[k].terms, dayTime, hourlyUtilization)
    ensures forall i | 0 <= i < |orders| ::
              fresh(orders[i].Repr - old(orders[i].Repr)) && orders[i].costs == old(orders[i].costs)
  {
    StateHolds(orders, stored, work);
    rest := OfferTo(orders, k, dayTime, hourlyUtilization, stored, work);
    StateHolds(orders, stored, work[k := Offered(work[k], orders[k].terms, dayTime, hourlyUtilization)]);
  }

  /** The loop over the orders of one hour. */
  method ShareOutHour(orders: seq<FlexRIOrder>, dayTime: int, usage: real,
                      ghost stored: seq<Usage>, ghost work: seq<Usage>)
    requires State(orders, stored, work)
    modifies Footprint(orders)
    ensures State(orders, stored, HourUpTo(work, TermsOf(orders), dayTime, usage, |orders|))
    ensures forall i | 0 <= i < |orders| ::
              fresh(orders[i].Repr - old(orders[i].Repr)) && orders[i].costs == old(orders[i].costs)
  {
    var hourlyUtilization := usage;
    ghost var terms, now := TermsOf(orders), work;
    HourStart(work, terms, dayTime, usage);
    for k := 0 to |orders|
      invariant now == HourUpTo(work, terms, dayTime, usage, k)
      invariant State(orders, stored, now)
      invariant hourlyUtilization == Left(terms, dayTime, usage, k)
      invariant forall i | 0 <= i < |orders| ::
              fresh(orders[i].Repr - old(orders[i].Repr)) && orders[i].costs == old(orders[i].costs)
    {
      HourStep(work, terms, dayTime, usage, k);
      hourlyUtilization := ShareOutOne(orders, k, dayTime, hourlyUtilization, stored, now);
      now := HourUpTo(work, terms, dayTime, usage, k + 1);
    }
  }

  // ----- The whole report -----

  /** The workspaces after the first n readings. */
  function ReportUpTo(work: seq<Usage>, terms: seq<OrderTerms>, report: seq<Reading>, mtd: int, n: nat): seq<Usage>
    requires |work| == |terms| && n <= |report|
  {
    seq(|work|, i requires 0 <= i < |work| => AfterReadings(work[i], terms, report, mtd, i, n))
  }

  function GroupAfterReading(work: seq<Usage>, terms: seq<OrderTerms>, r: Reading, mtd: int): seq<Usage>
    requires |work| == |terms|
  {
    if Used(r, mtd) then HourUpTo(work, terms, r.time.value, r.usage, |terms|) else work
  }

  lemma ReportStart(work: seq<Usage>, terms: seq<OrderTerms>, report: seq<Reading>, mtd: int)
    requires |work| == |terms|
    ensures ReportUpTo(work, terms, report, mtd, 0) == work
  {
  }

  lemma ReportStep(work: seq<Usage>, terms: seq<OrderTerms>, report: seq<Reading>, mtd: int, n: nat)
    requires |work| == |terms| && n < |report|
    ensures var now := ReportUpTo(work, terms, report, mtd, n);
            ReportUpTo(work, terms, report, mtd, n + 1) == GroupAfterReading(now, terms, report[n], mtd)
  {
  }

  lemma UnparsedChangesNothing(work: seq<Usage>, terms: seq<OrderTerms>, r: Reading, mtd: int)
    requires |work| == |terms| && Unparsed(r)
    ensures GroupAfterReading(work, terms, r, mtd) == work
  {
  }

  /** Every persisted map with its workspace copied over it. */
  function KeptUpTo(stored: seq<Usage>, work: seq<Usage>, k: nat): seq<Usage>
    requires |stored| == |work|
  {
    seq(|stored|, i requires 0 <= i < |stored| => if i < k then Merge(stored[i], work[i]) else stored[i])
  }

  lemma KeptStart(stored: seq<Usage>, work: seq<Usage>)
    requires |stored| == |work|
    ensures KeptUpTo(stored, work, 0) == stored
  {
  }

  lemma KeptStep(stored: seq<Usage>, work: seq<Usage>, k: nat)
    requires |stored| == |work| && k < |stored|
    ensures var now := KeptUpTo(stored, work, k);
            KeptUpTo(stored, work, k + 1) == now[k := Merge(now[k], work[k])]
  {
  }

  /** One workspace is copied back. */
  method KeepIn(orders: seq<FlexRIOrder>, k: nat, ghost stored: seq<Usage>, ghost work: seq<Usage>)
    requires Holds(orders, stored, work) && k < |orders|
    modifies orders[k].Repr
    ensures Holds(orders, stored[k := Merge(stored[k], work[k])], work)
    ensures forall i | 0 <= i < |orders| :: fresh(orders[i].Repr - old(orders[i].Repr))
  {
    orders[k].Keep();
  }

  method KeepOne(orders: seq<FlexRIOrder>, k: nat, ghost stored: seq<Usage>, ghost work: seq<Usage>)
    requires State(orders, stored, work) && k < |orders| == |stored| == |work|
    modifies orders[k].Repr
    ensures State(orders, stored[k := Merge(stored[k], work[k])], work)
    ensures forall i | 0 <= i < |orders| :: fresh(orders[i].Repr - old(orders[i].Repr))
  {
    StateHolds(orders, stored, work);
    KeepIn(orders, k, stored, work);
    StateHolds(orders, stored[k := Merge(stored[k], work[k])], work);
  }

  /** The last loop of distributeUtilization: the workspaces are copied back. */
  method KeepAll(orders: seq<FlexRIOrder>, ghost stored: seq<Usage>, ghost work: seq<Usage>)
    requires State(orders, stored, work)
    modifies Footprint(orders)
    ensures State(orders, KeptUpTo(stored, work, |orders|), work)
    ensures forall i | 0 <= i < |orders| :: fresh(orders[i].Repr - old(orders[i].Repr))
  {
    KeptStart(stored, work);
    ghost var now := stored;
    for k := 0 to |orders|
      invariant now == KeptUpTo(stored, work, k)
      invariant State(orders, now, work)
      invariant forall i | 0 <= i < |orders| :: fresh(orders[i].Repr - old(orders[i].Repr))
    {
      KeptStep(stored, work, k);
      KeepOne(orders, k, now, work);
      now := KeptUpTo(stored, work, k + 1);
    }
  }

  /** The readings before n parse, so n is where the first that does not may be. */
  lemma {:induction false} ParsedStep(report: seq<Reading>, n: nat)
    requires n < |report| && n <= ParsedPrefix(report)
    ensures ParsedPrefix(report) == n <==> Unparsed(report[n])
  {
    if n > 0 {
      ParsedStep(report[1..], n - 1);
    }
  }

  /** The body of the loop over the readings. */
  method ShareOutReading(orders: seq<FlexRIOrder>, timeDim: Reading, mtd: int, ghost stored: seq<Usage>,
                         ghost work: seq<Usage>)
    returns (ok: bool)
    requires State(orders, stored, work)
    modifies Footprint(orders)
    ensures ok <==> !Unparsed(timeDim)
    ensures State(orders, stored, GroupAfterReading(work, TermsOf(orders), timeDim, mtd))
    ensures forall i | 0 <= i < |orders| ::
              fresh(orders[i].Repr - old(orders[i].Repr)) && orders[i].costs == old(orders[i].costs)
  {
    if timeDim.excluded {
      return true;
    }
    if timeDim.time.None? {
      return false;
    }
    var dayTime := timeDim.time.value;
    if dayTime < mtd {
      ShareOutHour(orders, dayTime, timeDim.usage, stored, work);
    }
    return true;
  }

  /** The loop over the readings, up to the first whose name does not parse. */
  method ShareOutReport(orders: seq<FlexRIOrder>, report: seq<Reading>, mtd: int,
                        ghost stored: seq<Usage>, ghost work: seq<Usage>)
    returns (ok: bool)
    requires State(orders, stored, work)
    modifies Footprint(orders)
    ensures ok <==> ParsedPrefix(report) == |report|
    ensures State(orders, stored, ReportUpTo(work, TermsOf(orders), report, mtd, ParsedPrefix(report)))
    ensures forall i | 0 <= i < |orders| ::
              fresh(orders[i].Repr - old(orders[i].Repr)) && orders[i].costs == old(orders[i].costs)
  {
    ghost var terms, now := TermsOf(orders), work;
    ReportStart(work, terms, report, mtd);
    for n := 0 to |report|
      invariant now == ReportUpTo(work, terms, report, mtd, n)
      invariant State(orders, stored, now)
      invariant forall i | 0 <= i < |orders| ::
                  fresh(orders[i].Repr - old(orders[i].Repr)) && orders[i].costs == old(orders[i].costs)
      invariant n <= ParsedPrefix(report)
    {
      ReportStep(work, terms, report, mtd, n);
      ParsedStep(report, n);
      ok := ShareOutReading(orders, report[n], mtd, stored, now);
      if !ok {
        UnparsedChangesNothing(now, terms, report[n], mtd);
        return;
      }
      now := ReportUpTo(work, terms, report, mtd, n + 1);
    }
    return true;
  }

  /** distributeUtilization.  A name that does not parse ends it with an error, before any
      workspace has been copied back; then no persisted map has changed. */
  method DistributeUtilization(orders: seq<FlexRIOrder>, report: seq<Reading>, mtd: int,
                               ghost stored: seq<Usage>, ghost work: seq<Usage>)
    returns (ok: bool)
    requires State(orders, stored, work)
    modifies Footprint(orders)
    ensures ok <==> ParsedPrefix(report) == |report|
    ensures var done := ReportUpTo(work, TermsOf(orders), report, mtd, ParsedPrefix(report));
            State(orders, if ok then KeptUpTo(stored, done, |orders|) else stored, done)
    ensures forall i | 0 <= i < |orders| :: fresh(orders[i].Repr - old(orders[i].Repr))
    ensures !ok ==> forall i | 0 <= i < |orders| :: orders[i].costs == old(orders[i].costs)
  {
    ok := ShareOutReport(orders, report, mtd, stored, work);
    if ok {
      KeepAll(orders, stored, ReportUpTo(work, TermsOf(orders), report, mtd, |report|));
    }
  }

  // ----- An empty report -----

  function ZeroedUpTo(work: seq<Usage>, terms: seq<OrderTerms>, c: Clock, k: nat): seq<Usage>
    requires |work| == |terms|
  {
    seq(|work|, i requires 0 <= i < |work| => if i < k then Zeroed(work[i], terms[i], c) else work[i])
  }

  lemma ZeroedStart(work: seq<Usage>, terms: seq<OrderTerms>, c: Clock)
    requires |work| == |terms|
    ensures ZeroedUpTo(work, terms, c, 0) == work
  {
  }

  lemma ZeroedStep(work: seq<Usage>, terms: seq<OrderTerms>, c: Clock, k: nat)
    requires |work| == |terms| && k < |terms|
    ensures var now := ZeroedUpTo(work, terms, c, k);
            ZeroedUpTo(work, terms, c, k + 1) == now[k := Zeroed(now[k], terms[k], c)]
  {
  }

  lemma {:induction false} StartedStep(terms: seq<OrderTerms>, mtd: int, n: nat)
    requires n < |terms| && n <= StartedPrefix(terms, mtd)
    ensures StartedPrefix(terms, mtd) == n <==> mtd < terms[n].start
  {
    if n > 0 {
      StartedStep(terms[1..], mtd, n - 1);
    }
  }

  /** Both maps of one order get their zeros. */
  method ZeroIn(orders: seq<FlexRIOrder>, k: nat, c: Clock, ghost stored: seq<Usage>, ghost work: seq<Usage>)
    requires Holds(orders, stored, work) && k < |orders|
    modifies orders[k].Repr
    ensures Holds(orders, stored[k := Zeroed(stored[k], orders[k].terms, c)],
                  work[k := Zeroed(work[k], orders[k].terms, c)])
    ensures forall i | 0 <= i < |orders| :: fresh(orders[i].Repr - old(orders[i].Repr))
  {
    var (first, count) := ZeroRange(orders[k].terms, c);
    orders[k].ZeroAll(first, count);
  }

  method ZeroOne(orders: seq<FlexRIOrder>, k: nat, c: Clock, ghost stored: seq<Usage>, ghost work: seq<Usage>)
    requires State(orders, stored, work) && k < |orders| == |stored| == |work|
    modifies orders[k].Repr
    ensures State(orders, stored[k := Zeroed(stored[k], orders[k].terms, c)],
                  work[k := Zeroed(work[k], orders[k].terms, c)])
    ensures forall i | 0 <= i < |orders| :: fresh(orders[i].Repr - old(orders[i].Repr))
  {
    StateHolds(orders, stored, work);
    ZeroIn(orders, k, c, stored, work);
    StateHolds(orders, stored[k := Zeroed(stored[k], orders[k].terms, c)],
               work[k := Zeroed(work[k], orders[k].terms, c)]);
  }

  /** distributeEmptyUtilization: every order before the first that has not started gets zeros
      in both maps; they still share nothing. */
  method DistributeEmptyUtilization(orders: seq<FlexRIOrder>, c: Clock, ghost stored: seq<Usage>,
                                    ghost work: seq<Usage>)
    requires State(orders, stored, work)
    modifies Footprint(orders)
    ensures var n := StartedPrefix(TermsOf(orders), c.mtd);
            State(orders, ZeroedUpTo(stored, TermsOf(orders), c, n), ZeroedUpTo(work, TermsOf(orders), c, n))
    ensures forall i | 0 <= i < |orders| :: fresh(orders[i].Repr - old(orders[i].Repr))
  {
    ghost var terms := TermsOf(orders);
    ZeroedStart(stored, terms, c);
    ZeroedStart(work, terms, c);
    ghost var started := StartedPrefix(terms, c.mtd);
    ghost var kept, now := stored, work;
    var k := 0;
    while k < |orders| && c.mtd >= orders[k].terms.start
      invariant k <= started
      invariant kept == ZeroedUpTo(stored, terms, c, k) && now == ZeroedUpTo(work, terms, c, k)
      invariant State(orders, kept, now)
      invariant forall i | 0 <= i < |orders| :: fresh(orders[i].Repr - old(orders[i].Repr))
    {
      StartedStep(terms, c.mtd, k);
      ZeroedStep(stored, terms, c, k);
      ZeroedStep(work, terms, c, k);
      ZeroOne(orders, k, c, kept, now);
      kept, now := ZeroedUpTo(stored, terms, c, k + 1), ZeroedUpTo(work, terms, c, k + 1);
      k := k + 1;
    }
    if k < |orders| {
      StartedStep(terms, c.mtd, k);
    }
    assert k == started;
  }

  // ----- Costs -----

  predicate Factored(terms: seq<OrderTerms>) {
    forall i | 0 <= i < |terms| :: terms[i].factor > 0.0
  }

  function DrainedUpTo(work: seq<Usage>, terms: seq<OrderTerms>, k: nat): seq<Usage>
    requires |work| == |terms| && Factored(terms)
  {
    seq(|work|, i requires 0 <= i < |work| =>
      if i < k then Drained(work[i], Iterations(terms[i]), Increment(terms[i])) else work[i])
  }

  lemma DrainedStart(work: seq<Usage>, terms: seq<OrderTerms>)
    requires |work| == |terms| && Factored(terms)
    ensures DrainedUpTo(work, terms, 0) == work
  {
  }

  lemma DrainedStep(work: seq<Usage>, terms: seq<OrderTerms>, k: nat)
    requires |work| == |terms| && Factored(terms) && k < |terms|
    ensures var now := DrainedUpTo(work, terms, k);
            && now[k] == work[k]
            && DrainedUpTo(work, terms, k + 1) == now[k := Drained(work[k], Iterations(terms[k]), Increment(terms[k]))]
  {
  }

  method CalculateOne(orders: seq<FlexRIOrder>, k: nat, mtd: int, mtdDay: nat, ghost stored: seq<Usage>,
                      ghost work: seq<Usage>)
    requires Holds(orders, stored, work) && k < |orders| && orders[k].terms.factor > 0.0
    modifies orders[k].Repr
    ensures var o := orders[k].terms;
            Holds(orders, stored, work[k := Drained(work[k], Iterations(o), Increment(o))])
    ensures orders[k].costs == QualifiedCosts(work[k], orders[k].terms, mtd, mtdDay)
    ensures forall i | 0 <= i < |orders| && i != k :: orders[i].costs == old(orders[i].costs)
    ensures forall i | 0 <= i < |orders| :: orders[i].Repr == old(orders[i].Repr)
  {
    orders[k].CalculateQualifiedCosts(mtd, mtdDay);
  }

  /** calculateAutopilotQualifiedCosts: the persisted maps stay as distribution left them. */
  method CalculateAll(orders: seq<FlexRIOrder>, mtd: int, mtdDay: nat, ghost stored: seq<Usage>, ghost work: seq<Usage>)
    requires State(orders, stored, work) && Factored(TermsOf(orders))
    modifies Footprint(orders)
    ensures State(orders, stored, DrainedUpTo(work, TermsOf(orders), |orders|))
    ensures forall i | 0 <= i < |orders| :: orders[i].costs == QualifiedCosts(work[i], orders[i].terms, mtd, mtdDay)
    ensures forall i | 0 <= i < |orders| :: orders[i].Repr == old(orders[i].Repr)
  {
    StateHolds(orders, stored, work);
    ghost var terms := TermsOf(orders);
    DrainedStart(work, terms);
    ghost var now := work;
    for k := 0 to |orders|
      invariant now == DrainedUpTo(work, terms, k)
      invariant Holds(orders, stored, now)
      invariant forall i | 0 <= i < k :: orders[i].costs == QualifiedCosts(work[i], terms[i], mtd, mtdDay)
      invariant forall i | 0 <= i < |orders| :: orders[i].Repr == old(orders[i].Repr)
    {
      DrainedStep(work, terms, k);
      CalculateOne(orders, k, mtd, mtdDay, stored, now);
      now := DrainedUpTo(work, terms, k + 1);
    }
    StateHolds(orders, stored, now);
  }

  // ----- The whole run -----

  /** What a report that parses makes of the stored usage, order by order. */
  function Reported(stored: seq<Usage>, terms: seq<OrderTerms>, report: seq<Reading>, mtd: int): seq<Usage>
    requires |stored| == |terms|
  {
    ReportUpTo(stored, terms, report, mtd, |report|)
  }

  lemma KeptIsReported(stored: seq<Usage>, terms: seq<OrderTerms>, report: seq<Reading>, mtd: int)
    requires |stored| == |terms|
    ensures KeptUpTo(stored, Reported(stored, terms, report, mtd), |terms|) == Reported(stored, terms, report, mtd)
  {
    forall i | 0 <= i < |stored|
      ensures Merge(stored[i], AfterReadings(stored[i], terms, report, mtd, i, |report|))
           == AfterReadings(stored[i], terms, report, mtd, i, |report|)
    {
      ReadingsExtend(stored[i], terms, report, mtd, i, |report|);
    }
  }

  /** Running the same report on what it left stored leaves the same again. */
  lemma ReportedIdempotent(stored: seq<Usage>, terms: seq<OrderTerms>, report: seq<Reading>, mtd: int)
    requires |stored| == |terms|
    ensures var once := Reported(stored, terms, report, mtd);
            Reported(once, terms, report, mtd) == once
  {
    forall i | 0 <= i < |stored|
      ensures var once := AfterReadings(stored[i], terms, report, mtd, i, |report|);
              AfterReadings(once, terms, report, mtd, i, |report|) == once
    {
      ReadingsIdempotent(stored[i], terms, report, mtd, i);
    }
  }

  /** The run of updateFlexRIAutopilotOrders over a report with data: prepare, distribute,
      calculate.  When a name does not parse, nothing stored changes; otherwise the stored
      usage is what the report makes of it, and the costs are the costs of exactly that usage.
      It is the workspace that is drained, never the stored usage. */
  method Update(orders: seq<FlexRIOrder>, report: seq<Reading>, mtd: int, mtdDay: nat, ghost stored: seq<Usage>)
    returns (ok: bool)
    requires LoadedState(orders, stored) && Factored(TermsOf(orders))
    modifies Footprint(orders)
    ensures ok <==> forall r | r in report :: r.excluded || r.time.Some?
    ensures |stored| == |orders|
    ensures !ok ==> State(orders, stored, ReportUpTo(stored, TermsOf(orders), report, mtd, ParsedPrefix(report)))
    ensures !ok ==> forall i | 0 <= i < |orders| :: orders[i].costs == old(orders[i].costs)
    ensures var after := Reported(stored, TermsOf(orders), report, mtd);
            ok ==> State(orders, after, DrainedUpTo(after, TermsOf(orders), |orders|))
    ensures ok ==>
              forall i | 0 <= i < |orders| ::
                var o := orders[i].terms;
                o.factor > 0.0 &&
                orders[i].costs == QualifiedCosts(Reported(stored, TermsOf(orders), report, mtd)[i], o, mtd, mtdDay)
  {
    PrepareAll(orders, stored);
    ok := DistributeUtilization(orders, report, mtd, stored, stored);
    ghost var terms := TermsOf(orders);
    assert forall i | 0 <= i < |orders| :: terms[i] == orders[i].terms;
    ParsedAll(report);
    if ok {
      KeptIsReported(stored, terms, report, mtd);
      CalculateAll(orders, mtd, mtdDay, Reported(stored, terms, report, mtd), Reported(stored, terms, report, mtd));
    }
  }

  /** The same run over an empty report. */
  method UpdateEmpty(orders: seq<FlexRIOrder>, c: Clock, mtdDay: nat, ghost stored: seq<Usage>)
    requires LoadedState(orders, stored) && Factored(TermsOf(orders))
    modifies Footprint(orders)
    ensures |stored| == |orders|
    ensures var after := ZeroedUpTo(stored, TermsOf(orders), c, StartedPrefix(TermsOf(orders), c.mtd));
            && State(orders, after, DrainedUpTo(after, TermsOf(orders), |orders|))
            && forall i | 0 <= i < |orders| ::
                 var o := orders[i].terms;
                 o.factor > 0.0 && orders[i].costs == QualifiedCosts(after[i], o, c.mtd, mtdDay)
  {
    PrepareAll(orders, stored);
    DistributeEmptyUtilization(orders, c, stored, stored);
    ghost var terms := TermsOf(orders);
    assert forall i | 0 <= i < |orders| :: terms[i] == orders[i].terms;
    ghost var after := ZeroedUpTo(stored, terms, c, StartedPrefix(terms, c.mtd));
    CalculateAll(orders, c.mtd, mtdDay, after, after);
  }

  lemma {:induction false} ParsedAll(report: seq<Reading>)
    ensures ParsedPrefix(report) == |report| <==> forall r | r in report :: !Unparsed(r)
  {
    if report != [] {
      ParsedAll(report[1..]);
      assert report == [report[0]] + report[1..];
    }
  }
}
