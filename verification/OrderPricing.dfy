/** The pricing an order is activated with, and a recommendation is computed from.

    Rates are per hour; a normalized rate is per unit of the normalization factor. */
module OrderPricing {

  /** The fields both pricing steps fill in. */
  datatype Pricing = Pricing(onDemand: real, reserved: real, flexible: real, savingsPerHour: real,
                             onDemandNormalized: real, flexibleNormalized: real, savingsPerHourNormalized: real)

  /** The assignments to the pricing; onDemand and reserved are the list prices, discount and
      percentage are in percent. */
  function PricingOf(onDemand: real, reserved: real, discount: real, percentage: real, factor: real): Pricing
    requires factor > 0.0
  {
    var onDemandAfterDiscount := onDemand * (1.0 - discount * 0.01);
    var reservedAfterDiscount := reserved * (1.0 - discount * 0.01);
    var margin := (onDemandAfterDiscount - reservedAfterDiscount) * percentage * 0.01;
    var flexible := onDemandAfterDiscount - margin;
    Pricing(onDemandAfterDiscount, reservedAfterDiscount, flexible, onDemandAfterDiscount - flexible,
            onDemandAfterDiscount / factor, flexible / factor, onDemandAfterDiscount / factor - flexible / factor)
  }

  /** A used normalized hour saves, and an unused one costs, what together is the normalized
      on-demand price; so the two rates never add up to less than nothing. */
  lemma RatesAddUp(onDemand: real, reserved: real, discount: real, percentage: real, factor: real)
    requires factor > 0.0 && onDemand >= 0.0 && discount <= 100.0
    ensures var p := PricingOf(onDemand, reserved, discount, percentage, factor);
            p.savingsPerHourNormalized + p.flexibleNormalized == p.onDemandNormalized >= 0.0
  {
    var share := 1.0 - discount * 0.01;
    assert share >= 0.0;
    assert onDemand * share >= 0.0;
    QuotientNotNegative(onDemand * share, factor);
  }

  /** What the fields mean: the list prices less the discount; the flexible price between them,
      at the customer's percentage from the on-demand one; what it saves; and the same per unit of
      the normalization factor. */
  lemma PricingIs(onDemand: real, reserved: real, discount: real, percentage: real, factor: real)
    requires factor > 0.0
    ensures var p := PricingOf(onDemand, reserved, discount, percentage, factor);
            && p.onDemand == onDemand - onDemand * discount / 100.0
            && p.reserved == reserved - reserved * discount / 100.0
            && p.flexible == p.onDemand - percentage / 100.0 * (p.onDemand - p.reserved)
            && p.savingsPerHour == percentage / 100.0 * (p.onDemand - p.reserved)
            && p.onDemandNormalized * factor == p.onDemand
            && p.flexibleNormalized * factor == p.flexible
            && p.savingsPerHourNormalized * factor == p.savingsPerHour
  {
    var p := PricingOf(onDemand, reserved, discount, percentage, factor);
    LessPercent(onDemand, discount);
    LessPercent(reserved, discount);
    PerUnit(p.onDemand, p.flexible, factor);
  }

  lemma LessPercent(price: real, discount: real)
    ensures price * (1.0 - discount * 0.01) == price - price * discount / 100.0
  {
  }

  lemma PerUnit(a: real, b: real, factor: real)
    requires factor > 0.0
    ensures a / factor * factor == a && b / factor * factor == b
    ensures (a / factor - b / factor) * factor == a - b
  {
    var x, y := a / factor, b / factor;
    assert (x - y) * factor == x * factor - y * factor;
  }

  lemma QuotientNotNegative(x: real, y: real)
    requires x >= 0.0 && y > 0.0
    ensures x / y >= 0.0
  {
  }

  lemma UnitsCancel(x: real, factor: real, amount: real)
    requires factor > 0.0
    ensures x / factor * (factor * amount) == x * amount
  {
    var q := x / factor;
    assert x == q * factor;
    assert q * (factor * amount) == q * factor * amount;
  }

  /** What factor * amount normalized hours save comes to the customer's percentage of the
      difference between the two discounted prices, for each of amount hours: normalizing does
      not matter. */
  lemma SavingsAreShareOfMargin(onDemand: real, reserved: real, discount: real, percentage: real, factor: real,
                                amount: real)
    requires factor > 0.0
    ensures var p := PricingOf(onDemand, reserved, discount, percentage, factor);
            p.onDemandNormalized * (factor * amount) - p.flexibleNormalized * (factor * amount)
            == (p.onDemand - p.reserved) * percentage * 0.01 * amount
  {
    var p := PricingOf(onDemand, reserved, discount, percentage, factor);
    UnitsCancel(p.onDemand, factor, amount);
    UnitsCancel(p.flexible, factor, amount);
    Distribute(p.onDemand, (p.onDemand - p.reserved) * percentage * 0.01, amount);
  }

  lemma Distribute(a: real, b: real, x: real)
    ensures a * x - (a - b) * x == b * x
  {
  }
}
