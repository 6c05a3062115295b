/** getInstanceSavingsByCustomer: one worker of the fan-out.  Everything it looks up is a
    parameter; what it sends goes to a channel, whose log of messages is kept. */
module RecommendationWorker {
  import opened Wrappers
  import opened OrderPricing
  import opened RecommendationFanOut
  import opened RecommendationChunks

  /** An asset: its payer account, None when it names none, and whether it has an entity. */
  datatype Asset = Asset(payerAccount: Option<string>, hasEntity: bool)

  /** The prices found: on demand, reserved, and for one year upfront. */
  datatype Prices = Prices(onDemand: real, reserved: real, oneYear: real)

  /** A price of the reserved terms: whether lease, class and purchase option are the ones asked
      for, whether it is the upfront fee, and its amount, None when that does not parse. */
  datatype Upfront = Upfront(rightTerms: bool, upfrontFee: bool, price: Option<real>)

  /** A pricing document; either list of terms may be missing.  The prices are in the order in
      which an iteration over the maps that hold them happens to take them.  oneYear is what the
      price looked up by SKU parses to. */
  datatype Document =
    | Unreadable
    | Document(onDemand: Option<seq<Option<real>>>, reserved: Option<seq<Upfront>>, oneYear: real)

  /** What the lookups answer, in the order they are made: the normalization factor, the asset,
      percentage and discount, whether the region and the operating system are known, and the
      pricing documents; and the hours of next month. */
  datatype Lookups = Lookups(factor: Result<real>, asset: Result<Asset>, discounts: Result<(real, real)>,
                             knownRegion: bool, system: Result<()>, documents: Result<seq<Document>>, hours: real)

  /** The channel, with all messages sent so far. */
  class ResultChannel {
    ghost var sent: seq<Outcome>

    constructor ()
      ensures sent == []
    {
      sent := [];
    }

    method Send(o: Outcome)
      modifies this
      ensures sent == old(sent) + [o]
    {
      sent := sent + [o];
    }
  }

  // ----- The search for prices -----

  const HOURS_IN_A_YEAR := 8760.0

  predicate Complete(d: Document) {
    d.Document? && d.onDemand.Some? && d.reserved.Some?
  }

  /** The amounts that parse. */
  function Parsed(prices: seq<Option<real>>): seq<real> {
    if prices == [] then []
    else
      var n := |prices| - 1;
      Parsed(prices[..n]) + if prices[n].Some? then [prices[n].value] else []
  }

  /** The upfront fees of the terms asked for. */
  function Fees(prices: seq<Upfront>): seq<real> {
    if prices == [] then []
    else
      var n := |prices| - 1;
      var p := prices[n];
      Fees(prices[..n]) + if p.rightTerms && p.upfrontFee && p.price.Some? then [p.price.value] else []
  }

  /** The on-demand prices of the complete ones among the first n documents; their upfront fees;
      and their one-year prices. */
  function OnDemandPrices(docs: seq<Document>, n: nat): seq<real>
    requires n <= |docs|
  {
    if n == 0 then []
    else OnDemandPrices(docs, n - 1) + if Complete(docs[n - 1]) then Parsed(docs[n - 1].onDemand.value) else []
  }

  function UpfrontFees(docs: seq<Document>, n: nat): seq<real>
    requires n <= |docs|
  {
    if n == 0 then []
    else UpfrontFees(docs, n - 1) + if Complete(docs[n - 1]) then Fees(docs[n - 1].reserved.value) else []
  }

  function OneYearPrices(docs: seq<Document>, n: nat): seq<real>
    requires n <= |docs|
  {
    if n == 0 then [] else OneYearPrices(docs, n - 1) + if Complete(docs[n - 1]) then [docs[n - 1].oneYear] else []
  }

  predicate Known(docs: seq<Document>, n: nat)
    requires n <= |docs|
  {
    OnDemandPrices(docs, n) != [] && UpfrontFees(docs, n) != []
  }

  function Last(s: seq<real>): Option<real> {
    if s == [] then None else Some(s[|s| - 1])
  }

  /** How many documents are looked at: none after the first with which both prices are known. */
  ghost predicate LookedAt(docs: seq<Document>, n: nat) {
    n <= |docs| && (n < |docs| ==> Known(docs, n)) && forall k | 0 <= k < n :: !Known(docs, k)
  }

  /** There is just one such number. */
  ghost function FirstKnown(docs: seq<Document>, k: nat): (n: nat)
    requires k <= |docs| && forall j | 0 <= j < k :: !Known(docs, j)
    ensures LookedAt(docs, n) && forall m :: LookedAt(docs, m) ==> m == n
    decreases |docs| - k
  {
    if k == |docs| || Known(docs, k) then k else FirstKnown(docs, k + 1)
  }

  /** The prices of the documents looked at: the last on-demand price, the last upfront fee by
      the hour, and the one-year price of the last complete document. */
  ghost function FoundIn(docs: seq<Document>): Option<Prices> {
    PricesOf(docs, FirstKnown(docs, 0))
  }

  function PricesOf(docs: seq<Document>, n: nat): Option<Prices>
    requires n <= |docs|
  {
    if Known(docs, n) && OneYearPrices(docs, n) != [] then
      Some(Prices(Last(OnDemandPrices(docs, n)).value, Last(UpfrontFees(docs, n)).value / HOURS_IN_A_YEAR,
                  Last(OneYearPrices(docs, n)).value))
    else None
  }

  lemma {:induction false} KnownHasYear(docs: seq<Document>, n: nat)
    requires n <= |docs|
    ensures OneYearPrices(docs, n) == [] ==> OnDemandPrices(docs, n) == [] && UpfrontFees(docs, n) == []
  {
    if n > 0 {
      KnownHasYear(docs, n - 1);
    }
  }

  method LastOnDemand(prices: seq<Option<real>>, given: Option<real>) returns (onDemand: Option<real>)
    ensures onDemand == if Parsed(prices) == [] then given else Last(Parsed(prices))
  {
    onDemand := given;
    for i := 0 to |prices|
      invariant onDemand == if Parsed(prices[..i]) == [] then given else Last(Parsed(prices[..i]))
    {
      assert prices[..i + 1][..i] == prices[..i];
      if prices[i].Some? {
        onDemand := prices[i];
      }
    }
    assert prices[..|prices|] == prices;
  }

  method LastReserved(prices: seq<Upfront>, given: Option<real>) returns (reserved: Option<real>)
    ensures reserved == if Fees(prices) == [] then given else Some(Last(Fees(prices)).value / HOURS_IN_A_YEAR)
  {
    reserved := given;
    for i := 0 to |prices|
      invariant reserved == if Fees(prices[..i]) == [] then given
                            else Some(Last(Fees(prices[..i])).value / HOURS_IN_A_YEAR)
    {
      assert prices[..i + 1][..i] == prices[..i];
      if !prices[i].rightTerms || !prices[i].upfrontFee || prices[i].price.None? {
        continue;
      }
      reserved := Some(prices[i].price.value / HOURS_IN_A_YEAR);
    }
    assert prices[..|prices|] == prices;
  }

  function ByTheHour(fee: Option<real>): Option<real> {
    if fee.Some? then Some(fee.value / HOURS_IN_A_YEAR) else None
  }

  /** What the loop has found among the first n documents. */
  predicate Sees(docs: seq<Document>, n: nat, onDemand: Option<real>, reserved: Option<real>, oneYear: Option<real>)
    requires n <= |docs|
  {
    && onDemand == Last(OnDemandPrices(docs, n)) && reserved == ByTheHour(Last(UpfrontFees(docs, n)))
    && oneYear == Last(OneYearPrices(docs, n))
  }

  lemma LastOf(a: seq<real>, b: seq<real>)
    ensures Last(a + b) == if b == [] then Last(a) else Last(b)
  {
    if b == [] {
      assert a + b == a;
    }
  }

  /** The loop's body. */
  method ReadDocument(docs: seq<Document>, n: nat, onDemand: Option<real>, reserved: Option<real>,
                      oneYear: Option<real>)
    returns (onDemand': Option<real>, reserved': Option<real>, oneYear': Option<real>)
    requires n < |docs| && Sees(docs, n, onDemand, reserved, oneYear)
    ensures Sees(docs, n + 1, onDemand', reserved', oneYear')
  {
    var d := docs[n];
    onDemand', reserved', oneYear' := onDemand, reserved, oneYear;
    if d.Unreadable? {
      return;
    }
    if d.onDemand.Some? && d.reserved.Some? {
      LastOf(OnDemandPrices(docs, n), Parsed(d.onDemand.value));
      LastOf(UpfrontFees(docs, n), Fees(d.reserved.value));
      LastOf(OneYearPrices(docs, n), [d.oneYear]);
      oneYear' := Some(d.oneYear);
      onDemand' := LastOnDemand(d.onDemand.value, onDemand);
      reserved' := LastReserved(d.reserved.value, reserved);
    }
  }

  lemma SeesKnown(docs: seq<Document>, n: nat, onDemand: Option<real>, reserved: Option<real>, oneYear: Option<real>)
    requires n <= |docs| && Sees(docs, n, onDemand, reserved, oneYear)
    ensures Known(docs, n) <==> onDemand.Some? && reserved.Some?
    ensures onDemand.Some? && reserved.Some? ==> oneYear.Some?
    ensures PricesOf(docs, n) == if onDemand.None? || reserved.None? then None
                                 else Some(Prices(onDemand.value, reserved.value, oneYear.value))
  {
    KnownHasYear(docs, n);
  }

  /** The loop over the documents. */
  method FindPrices(docs: seq<Document>) returns (found: Option<Prices>)
    ensures found == FoundIn(docs)
  {
    var onDemand, reserved, oneYear: Option<real> := None, None, None;
    var n := 0;
    while n < |docs| && (reserved.None? || onDemand.None?)
      invariant 0 <= n <= |docs| && Sees(docs, n, onDemand, reserved, oneYear)
      invariant forall k | 0 <= k < n :: !Known(docs, k)
    {
      SeesKnown(docs, n, onDemand, reserved, oneYear);
      onDemand, reserved, oneYear := ReadDocument(docs, n, onDemand, reserved, oneYear);
      n := n + 1;
    }
    SeesKnown(docs, n, onDemand, reserved, oneYear);
    assert LookedAt(docs, n);
    if reserved.None? || onDemand.None? {
      return None;
    }
    return Some(Prices(onDemand.value, reserved.value, oneYear.value));
  }

  // ----- What that finds -----

  /** The i-th on-demand price of a document is that amount, and no later one parses. */
  predicate LastParsed(prices: seq<Option<real>>, x: real) {
    exists i :: 0 <= i < |prices| && prices[i] == Some(x) && forall j | i < j < |prices| :: prices[j].None?
  }

  predicate IsFee(p: Upfront) {
    p.rightTerms && p.upfrontFee && p.price.Some?
  }

  predicate LastFee(prices: seq<Upfront>, x: real) {
    exists i :: 0 <= i < |prices| && IsFee(prices[i]) && prices[i].price == Some(x)
                && forall j | i < j < |prices| :: !IsFee(prices[j])
  }

  lemma {:induction false} ParsedLast(prices: seq<Option<real>>)
    ensures Parsed(prices) == [] ==> forall i | 0 <= i < |prices| :: prices[i].None?
    ensures Parsed(prices) != [] ==> LastParsed(prices, Last(Parsed(prices)).value)
    decreases |prices|
  {
    if prices != [] {
      var front, last := prices[..|prices| - 1], prices[|prices| - 1];
      assert prices == front + [last];
      ParsedLast(front);
      if last.None? {
        OneUnparsedMore(front);
      }
    }
  }

  lemma OneUnparsedMore(prices: seq<Option<real>>)
    ensures Parsed(prices + [None]) == Parsed(prices)
    ensures forall x | LastParsed(prices, x) :: LastParsed(prices + [None], x)
  {
    var more := prices + [None];
    assert more[..|prices|] == prices;
    forall x | LastParsed(prices, x) ensures LastParsed(more, x) {
      var i :| 0 <= i < |prices| && prices[i] == Some(x) && forall j | i < j < |prices| :: prices[j].None?;
      assert more[i] == Some(x);
    }
  }

  /** The fees among the prices, where the others do not count. */
  function FeesOnly(prices: seq<Upfront>): seq<Option<real>> {
    seq(|prices|, i requires 0 <= i < |prices| => if IsFee(prices[i]) then prices[i].price else None)
  }

  lemma {:induction false} FeesAreParsed(prices: seq<Upfront>)
    ensures Fees(prices) == Parsed(FeesOnly(prices))
  {
    if prices != [] {
      FeesAreParsed(prices[..|prices| - 1]);
      assert FeesOnly(prices)[..|prices| - 1] == FeesOnly(prices[..|prices| - 1]);
    }
  }

  lemma FeesLast(prices: seq<Upfront>)
    ensures if Fees(prices) == [] then forall i | 0 <= i < |prices| :: !IsFee(prices[i])
            else LastFee(prices, Last(Fees(prices)).value)
  {
    FeesAreParsed(prices);
    ParsedLast(FeesOnly(prices));
    var f := FeesOnly(prices);
    assert |f| == |prices| && forall i | 0 <= i < |prices| :: f[i].Some? <==> IsFee(prices[i]);
    if Fees(prices) != [] {
      var i :| 0 <= i < |f| && f[i] == Some(Last(Fees(prices)).value) && forall j | i < j < |f| :: f[j].None?;
      assert IsFee(prices[i]) && prices[i].price == f[i];
    }
  }

  /** A document counts when both lists of terms are there. */
  predicate HasTerms(d: Document) {
    d.Document? && d.onDemand.Some? && d.reserved.Some?
  }

  predicate HasOnDemand(d: Document) {
    HasTerms(d) && exists i :: 0 <= i < |d.onDemand.value| && d.onDemand.value[i].Some?
  }

  predicate HasFee(d: Document) {
    HasTerms(d) && exists i :: 0 <= i < |d.reserved.value| && IsFee(d.reserved.value[i])
  }

  /** x is the last on-demand price of the last of the first n documents that has one. */
  predicate IsOnDemand(docs: seq<Document>, n: nat, x: real)
    requires n <= |docs|
  {
    exists k :: 0 <= k < n && HasOnDemand(docs[k]) && LastParsed(docs[k].onDemand.value, x)
                && forall j | k < j < n :: !HasOnDemand(docs[j])
  }

  predicate IsUpfront(docs: seq<Document>, n: nat, x: real)
    requires n <= |docs|
  {
    exists k :: 0 <= k < n && HasFee(docs[k]) && LastFee(docs[k].reserved.value, x)
                && forall j | k < j < n :: !HasFee(docs[j])
  }

  predicate IsOneYear(docs: seq<Document>, n: nat, x: real)
    requires n <= |docs|
  {
    exists k :: 0 <= k < n && HasTerms(docs[k]) && docs[k].oneYear == x && forall j | k < j < n :: !HasTerms(docs[j])
  }

  lemma {:induction false} OnDemandIs(docs: seq<Document>, n: nat)
    requires n <= |docs|
    ensures if OnDemandPrices(docs, n) == [] then forall k | 0 <= k < n :: !HasOnDemand(docs[k])
            else IsOnDemand(docs, n, Last(OnDemandPrices(docs, n)).value)
  {
    if n > 0 {
      OnDemandIs(docs, n - 1);
      var before, d := OnDemandPrices(docs, n - 1), docs[n - 1];
      if HasTerms(d) {
        ParsedLast(d.onDemand.value);
        LastOf(before, Parsed(d.onDemand.value));
      }
      assert !HasOnDemand(d) ==> OnDemandPrices(docs, n) == before;
    }
  }

  lemma {:induction false} UpfrontIs(docs: seq<Document>, n: nat)
    requires n <= |docs|
    ensures if UpfrontFees(docs, n) == [] then forall k | 0 <= k < n :: !HasFee(docs[k])
            else IsUpfront(docs, n, Last(UpfrontFees(docs, n)).value)
  {
    if n > 0 {
      UpfrontIs(docs, n - 1);
      var before, d := UpfrontFees(docs, n - 1), docs[n - 1];
      if HasTerms(d) {
        FeesLast(d.reserved.value);
        LastOf(before, Fees(d.reserved.value));
      }
      assert !HasFee(d) ==> UpfrontFees(docs, n) == before;
    }
  }

  lemma {:induction false} OneYearIs(docs: seq<Document>, n: nat)
    requires n <= |docs|
    ensures OneYearPrices(docs, n) != [] ==> IsOneYear(docs, n, Last(OneYearPrices(docs, n)).value)
  {
    if n > 0 {
      OneYearIs(docs, n - 1);
    }
  }

  /** Both prices are to be had from the first n documents. */
  ghost predicate BothIn(docs: seq<Document>, n: nat)
    requires n <= |docs|
  {
    (exists k :: 0 <= k < n && HasOnDemand(docs[k])) && exists k :: 0 <= k < n && HasFee(docs[k])
  }

  lemma KnownIsBoth(docs: seq<Document>, n: nat)
    requires n <= |docs|
    ensures Known(docs, n) <==> BothIn(docs, n)
  {
    OnDemandIs(docs, n);
    UpfrontIs(docs, n);
  }

  /** What is found, in terms of the documents alone: prices are found exactly when some document
      has an on-demand price and some document a fee of the right terms; then they are those of the
      first n documents, n being the least number with which both are there: the last on-demand
      price, the last fee for one of the 8760 hours of a year, and the one-year price of the last
      document that has both lists. */
  lemma FoundPrices(docs: seq<Document>) returns (n: nat, fee: real)
    ensures FoundIn(docs).Some? <==> BothIn(docs, |docs|)
    ensures FoundIn(docs).Some? ==>
              var p := FoundIn(docs).value;
              && n <= |docs| && BothIn(docs, n) && (n > 0 ==> !BothIn(docs, n - 1))
              && IsOnDemand(docs, n, p.onDemand) && IsOneYear(docs, n, p.oneYear)
              && IsUpfront(docs, n, fee) && p.reserved == fee / 8760.0
  {
    n, fee := FirstKnown(docs, 0), 0.0;
    KnownIsBoth(docs, n);
    KnownIsBoth(docs, |docs|);
    KnownHasYear(docs, n);
    if n > 0 {
      KnownIsBoth(docs, n - 1);
    }
    if Known(docs, n) {
      OnDemandIs(docs, n);
      UpfrontIs(docs, n);
      OneYearIs(docs, n);
      fee := Last(UpfrontFees(docs, n)).value;
    }
  }

  // ----- The worker -----

  predicate PayerMatches(l: Lookups, payer: string) {
    l.asset.Ok? && l.asset.value.payerAccount == Some(payer) && l.asset.value.hasEntity
  }

  /** No lookup failed. */
  predicate AllFound(l: Lookups, payer: string) {
    && l.factor.Ok? && PayerMatches(l, payer) && l.discounts.Ok? && l.knownRegion && l.system.Ok?
    && l.documents.Ok? && l.documents.value != []
  }

  /** The margin per hour between the discounted on-demand and reserved prices. */
  function Margin(p: Prices, discount: real): real {
    (p.onDemand - p.reserved) * (1.0 - discount * 0.01)
  }

  function Discounted(price: real, discount: real): real {
    price * (1.0 - discount * 0.01)
  }

  /** The hourly price of a year paid upfront. */
  function HourPrice(oneYear: real): real {
    oneYear / 365.0 / 24.0
  }

  /** What the customer pays an hour when the given percentage of the difference to the price
      paid upfront is passed on. */
  function PassedOn(onDemand: real, upfront: real, percentage: real): real {
    onDemand - percentage * 0.01 * (onDemand - upfront)
  }

  /** The rest of the worker once it has prices.  For an on-demand price of zero, a float
      division gives the price after discount the value notANumber. */
  method Recommend(p: Prices, factor: real, percentage: real, discount: real, instances: nat, hours: real,
                   notANumber: real)
    returns (savings: real, onDemandPrice: real, priceAfterDiscount: real)
    requires factor > 0.0
    ensures savings == Margin(p, discount) * percentage * 0.01 * (instances as real * hours)
    ensures onDemandPrice == Discounted(p.onDemand, discount) * (instances as real * hours)
    ensures priceAfterDiscount == if Discounted(p.onDemand, discount) == 0.0 then notANumber
                                  else PassedOn(Discounted(p.onDemand, discount), p.oneYear / 8760.0, percentage)
                                       * (instances as real * 720.0)
  {
    var orderPricing := PricingOf(p.onDemand, p.reserved, discount, percentage, factor);
    var numInstances := instances as real;
    var nfPerHour := factor * numInstances;
    var total := nfPerHour * hours;
    savings := orderPricing.onDemandNormalized * total - orderPricing.flexibleNormalized * total;
    onDemandPrice := numInstances * hours * orderPricing.onDemand;
    TotalUnits(factor, numInstances, hours);
    SavingsAreShareOfMargin(p.onDemand, p.reserved, discount, percentage, factor, numInstances * hours);
    MarginOf(p, discount, percentage, factor);
    priceAfterDiscount :=
      AfterDiscount(orderPricing.onDemand, HourPrice(p.oneYear), percentage, numInstances, notANumber);
  }

  method AfterDiscount(onDemand: real, upfront: real, percentage: real, numInstances: real, notANumber: real)
    returns (price: real)
    ensures price == if onDemand == 0.0 then notANumber
                     else PassedOn(onDemand, upfront, percentage) * (numInstances * 720.0)
  {
    if onDemand == 0.0 {
      return notANumber;
    }
    var doitDiscountPercent := 100.0 - upfront * 100.0 / onDemand;
    var customerDiscount := 1.0 - percentage * doitDiscountPercent / 100.0 / 100.0;
    price := onDemand * customerDiscount * numInstances * 24.0 * 30.0;
    DiscountPassedOn(onDemand, upfront, percentage);
    Regroup(onDemand * customerDiscount, numInstances);
  }

  lemma Regroup(a: real, n: real)
    ensures a * n * 24.0 * 30.0 == a * (n * 720.0)
  {
  }

  lemma DiscountPassedOn(onDemand: real, upfront: real, percentage: real)
    requires onDemand != 0.0
    ensures onDemand * (1.0 - percentage * (100.0 - upfront * 100.0 / onDemand) / 100.0 / 100.0)
         == PassedOn(onDemand, upfront, percentage)
  {
    var q := upfront * 100.0 / onDemand;
    assert onDemand * q == upfront * 100.0;
    var part := percentage * (100.0 - q);
    assert onDemand * part == percentage * (100.0 * onDemand - onDemand * q);
    assert onDemand * (1.0 - part / 100.0 / 100.0) == onDemand - onDemand * part / 10000.0;
  }

  lemma TotalUnits(factor: real, instances: real, hours: real)
    ensures factor * instances * hours == factor * (instances * hours)
  {
  }

  lemma MarginOf(p: Prices, discount: real, percentage: real, factor: real)
    requires factor > 0.0
    ensures var q := PricingOf(p.onDemand, p.reserved, discount, percentage, factor);
            q.onDemand - q.reserved == Margin(p, discount) && q.onDemand == Discounted(p.onDemand, discount)
  {
  }

  /** What a worker is given. */
  datatype Worker = Worker(lookups: Lookups, payer: string, instances: nat)

  /** Every lookup answers, prices are found, and the discount is not 100%. */
  ghost predicate Succeeds(w: Worker) {
    var l := w.lookups;
    AllFound(l, w.payer) && FoundIn(l.documents.value).Some? && l.discounts.value.1 != 100.0
  }

  /** The amounts a worker comes to, from the prices found, the customer's percentage and discount,
      and the number of instances. */
  ghost predicate AreAmounts(w: Worker, savings: real, onDemand: real, priceAfterDiscount: real)
    requires Succeeds(w)
  {
    var (percentage, discount) := w.lookups.discounts.value;
    var p := FoundIn(w.lookups.documents.value).value;
    var amount, price := w.instances as real * w.lookups.hours, Discounted(p.onDemand, discount);
    && savings == Margin(p, discount) * percentage * 0.01 * amount
    && onDemand == price * amount
    && (price != 0.0 ==>
          priceAfterDiscount == PassedOn(price, p.oneYear / 8760.0, percentage) * (w.instances as real * 720.0))
  }

  /** The message of a worker. */
  ghost predicate Answers(w: Worker, o: Outcome) {
    && (o.Success? <==> Succeeds(w))
    && (o.Success? ==> AreAmounts(w, o.savings, o.onDemand, o.priceAfterDiscount))
  }

  /** getInstanceSavingsByCustomer.  On every path it sends exactly one message: a success under
      its own position when every lookup answers, prices are found and the discount is not 100%;
      a warning when only the prices are missing; an error otherwise. */
  method GetInstanceSavingsByCustomer(l: Lookups, payer: string, instances: nat, notANumber: real,
                                      resultChannel: ResultChannel, pos: nat)
    requires l.factor.Ok? ==> l.factor.value > 0.0
    modifies resultChannel
    ensures |resultChannel.sent| == |old(resultChannel.sent)| + 1 && old(resultChannel.sent) < resultChannel.sent
    ensures var o := resultChannel.sent[|old(resultChannel.sent)|];
            && Answers(Worker(l, payer, instances), o)
            && (o.Success? ==>
                  var amount := instances as real * l.hours;
                  var (percentage, discount) := l.discounts.value;
                  var p := FoundIn(l.documents.value).value;
                  var price := Discounted(p.onDemand, discount);
                  && o.pos == pos
                  && o.savings == Margin(p, discount) * percentage * 0.01 * amount && o.onDemand == price * amount
                  && (price != 0.0 ==>
                        o.priceAfterDiscount ==
                        PassedOn(price, p.oneYear / 8760.0, percentage) * (instances as real * 720.0)))
            && (o.Warning? <==> AllFound(l, payer) && FoundIn(l.documents.value).None?)
            && (o.Error? <==>
                  || l.factor.Err? || l.asset.Err? || l.asset.value.payerAccount != Some(payer)
                  || !l.asset.value.hasEntity || l.discounts.Err? || !l.knownRegion || l.system.Err?
                  || l.documents.Err? || l.documents.value == []
                  || (l.discounts.value.1 == 100.0 && FoundIn(l.documents.value).Some?))
  {
    if l.factor.Err? {
      resultChannel.Send(Error("invalid instance size"));
      return;
    }
    if l.asset.Err? {
      resultChannel.Send(Error("failed to fetch asset"));
      return;
    }
    if l.asset.value.payerAccount.None? || l.asset.value.payerAccount.value != payer {
      resultChannel.Send(Error("invalid PayerAccount"));
      return;
    }
    if !l.asset.value.hasEntity {
      resultChannel.Send(Error("invalid billing profile"));
      return;
    }
    if l.discounts.Err? {
      resultChannel.Send(Error(l.discounts.error));
      return;
    }
    var (percentage, discount) := l.discounts.value;
    if !l.knownRegion {
      resultChannel.Send(Error("could not find region"));
      return;
    }
    if l.system.Err? {
      resultChannel.Send(Error(l.system.error));
      return;
    }
    if l.documents.Err? {
      resultChannel.Send(Error(l.documents.error));
      return;
    }
    if l.documents.value == [] {
      resultChannel.Send(Error("instance not found"));
      return;
    }
    var prices := FindPrices(l.documents.value);
    if prices.None? {
      resultChannel.Send(Warning("Reserved/OnDemand not found"));
      return;
    }
    if discount == 100.0 {
      resultChannel.Send(Error("100% discount - No recommendations"));
      return;
    }
    var savings, onDemand, priceAfterDiscount :=
      Recommend(prices.value, l.factor.value, percentage, discount, instances, l.hours, notANumber);
    resultChannel.Send(Success(pos, savings, onDemand, priceAfterDiscount));
  }

  // ----- The whole call, from the lookups on -----

  /** r has the name of the input and the amounts that the lookups of its worker come to. */
  ghost predicate IsPriced(r: Recommendation, given: Recommendation, w: Worker) {
    && r.name == given.name && r.savings.Some? && r.onDemand.Some? && r.priceAfterDiscount.Some?
    && Succeeds(w) && AreAmounts(w, r.savings.value, r.onDemand.value, r.priceAfterDiscount.value)
  }

  lemma FilledIsPriced(r: Recommendation, given: Recommendation, w: Worker, o: Outcome)
    requires IsFilled(r, given, o) && Answers(w, o)
    ensures IsPriced(r, given, w)
  {
    hide Succeeds, AreAmounts;
  }

  /** GetRecommendations, when every worker has sent what its lookups come to: however the workers
      interleave, the recommendations are those of the inputs whose lookups all answered and whose
      discount is not 100%, each once, under its own name and with its own amounts. */
  lemma RecommendationsArePriced(input: seq<Recommendation>, workers: seq<Worker>, answers: seq<Outcome>,
                                 runs: seq<seq<Action>>)
    returns (order: seq<nat>)
    requires |input| == |workers| == |answers|
    requires forall i | 0 <= i < |input| :: Answers(workers[i], answers[i])
    requires AllComplete(Chunks(input, CONCURRENCY), Chunks(answers, CONCURRENCY), runs)
    ensures var result := Collected(ChunkResults(Chunks(input, CONCURRENCY), Chunks(answers, CONCURRENCY), runs));
            result.Ok? ==>
              && |result.value| == |order|
              && (forall i: nat :: i in order <==> i < |workers| && Succeeds(workers[i]))
              && (forall j, k | 0 <= j < k < |order| :: order[j] != order[k])
              && forall k | 0 <= k < |order| ::
                   order[k] < |input| && IsPriced(result.value[k], input[order[k]], workers[order[k]])
  {
    hide Succeeds, AreAmounts;
    order := GetRecommendationsComplete(input, answers, runs);
    var result := Collected(ChunkResults(Chunks(input, CONCURRENCY), Chunks(answers, CONCURRENCY), runs));
    if result.Ok? {
      forall k | 0 <= k < |order|
        ensures order[k] < |input| && IsPriced(result.value[k], input[order[k]], workers[order[k]])
      {
        FilledIsPriced(result.value[k], input[order[k]], workers[order[k]], answers[order[k]]);
      }
    }
  }
}
