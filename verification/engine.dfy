/** The per-product calculation engine: cost inputs to profitability metrics and
    break-even / margin-target ROAS. Numbers are exact reals; of the ways a JavaScript
    double can leave the reals, only division by a zero order value is modelled (by
    `Num`); overflow to Infinity and rounding are not. */
module Engine {

  /** One product's cost configuration (the page's `InputValues`). */
  datatype Product = Product(
    id: string,
    productName: string,
    aov: real,                   // average order value, the selling price
    productCost: real,
    creditCardFeePercent: real,  // percent of `aov`
    paymentProcessingFee: real,
    shippingCost: real,
    fulfillmentCost: real)

  /** A double that may have left the reals through a division by zero. */
  datatype Num = Finite(value: real) | PosInfinity | NegInfinity | NaN

  /** JavaScript `n / d`: a zero divisor gives an infinity signed like `n`, or NaN for `0 / 0`. */
  function Divide(n: real, d: real): (q: Num)
    ensures q.Finite? <==> d != 0.0
    ensures q.Finite? ==> q.value * d == n
    ensures q == NaN <==> (n == 0.0 && d == 0.0)
    ensures q == PosInfinity <==> (n > 0.0 && d == 0.0)
  {
    if d != 0.0 then Finite(n / d)
    else if n > 0.0 then PosInfinity
    else if n < 0.0 then NegInfinity
    else NaN
  }

  /** `x * 100` on a possibly non-finite double. */
  function TimesHundred(x: Num): (y: Num)
    ensures y.Finite? <==> x.Finite?
    ensures x.Finite? ==> y.value == x.value * 100.0
    ensures !x.Finite? ==> y == x
  {
    match x
    case Finite(v) => Finite(v * 100.0)
    case _ => x
  }

  /** One entry of the margin-target sweep. */
  datatype MarginRoas = MarginRoas(margin: real, roas: real)

  /** The derived metrics of one product. */
  datatype CalculatedValues = CalculatedValues(
    creditCardFee: real,
    totalCost: real,             // the source's `totalProductCostPlusFulfillment`
    costPercentage: Num,
    grossMarginPercent: Num,
    expectedGrossProfit: real,
    breakEvenRoas: real,
    targetRoas10: real,
    targetRoas15: real,
    targetRoas20: real,
    roasTargets: seq<MarginRoas>)

  /** A product created by the page, with the sample figures it starts from. */
  function CreateDefaultValues(id: string, name: string): (p: Product)
    ensures p.id == id && p.productName == name
    ensures p.aov > 0.0
    ensures p.productCost >= 0.0 && p.creditCardFeePercent >= 0.0 && p.paymentProcessingFee >= 0.0
    ensures p.shippingCost >= 0.0 && p.fulfillmentCost >= 0.0
  {
    Product(id, name, 1000.0, 50.0, 2.4, 0.25, 15.0, 3.0)
  }

  /** Ad budget per order left once costs and the target profit of `margin` percent are paid. */
  function AvailableAdSpend(aov: real, totalCost: real, margin: real): real {
    aov - totalCost - aov * (margin / 100.0)
  }

  /** The ROAS needed to keep `margin` percent of the order value as profit after ad spend;
      `0` when no ad budget is left (the inner `calculateRoasForMargin`). */
  function RoasForMargin(aov: real, totalCost: real, margin: real): (r: real)
    ensures AvailableAdSpend(aov, totalCost, margin) <= 0.0 ==> r == 0.0
    ensures AvailableAdSpend(aov, totalCost, margin) > 0.0 ==>
              r == aov / AvailableAdSpend(aov, totalCost, margin)
    ensures aov > 0.0 ==> (r > 0.0 <==> AvailableAdSpend(aov, totalCost, margin) > 0.0)
    ensures aov != 0.0 ==> (r == 0.0 <==> AvailableAdSpend(aov, totalCost, margin) <= 0.0)
  {
    var available := AvailableAdSpend(aov, totalCost, margin);
    if available > 0.0 then aov / available else 0.0
  }

  /** The margin targets 10, 20, ..., 100 percent with their ROAS. */
  function RoasSweep(aov: real, totalCost: real): (s: seq<MarginRoas>)
    ensures |s| == 10
    ensures forall i :: 0 <= i < 10 ==> s[i].margin == ((i + 1) * 10) as real
    ensures forall i :: 0 <= i < 10 ==> s[i].roas == RoasForMargin(aov, totalCost, s[i].margin)
  {
    seq(10, i requires 0 <= i < 10 =>
      MarginRoas(((i + 1) * 10) as real, RoasForMargin(aov, totalCost, ((i + 1) * 10) as real)))
  }

  /** Two shares of the same non-zero whole that add up to it add up to 100 percent. */
  lemma SharesAddUp(part: real, rest: real, whole: real)
    requires whole != 0.0
    requires part + rest == whole
    ensures part / whole * 100.0 + rest / whole * 100.0 == 100.0
  {
    assert part / whole + rest / whole == (part + rest) / whole;
  }

  /** The card fee: `creditCardFeePercent` percent of the order value (`Calculate`'s
      `creditCardFee`, by `CostsAsCalculated`). */
  function CreditCardFee(p: Product): real {
    (p.aov * p.creditCardFeePercent) / 100.0
  }

  /** Everything one order costs before advertising (`Calculate`'s `totalCost`, by
      `CostsAsCalculated`). */
  function TotalCost(p: Product): real {
    p.productCost + CreditCardFee(p) + p.paymentProcessingFee + p.shippingCost + p.fulfillmentCost
  }

  /** The arithmetic of the page's `calculateValues`, on the six figures a product carries. */
  function Metrics(aov: real, productCost: real, creditCardFeePercent: real,
                   paymentProcessingFee: real, shippingCost: real, fulfillmentCost: real): CalculatedValues
  {
    var fee := (aov * creditCardFeePercent) / 100.0;
    var total := productCost + fee + paymentProcessingFee + shippingCost + fulfillmentCost;
    var profit := aov - total;
    CalculatedValues(
      fee, total,
      TimesHundred(Divide(total, aov)),
      TimesHundred(Divide(profit, aov)),
      profit,
      if profit > 0.0 then aov / profit else 0.0,
      RoasForMargin(aov, total, 10.0),
      RoasForMargin(aov, total, 15.0),
      RoasForMargin(aov, total, 20.0),
      RoasSweep(aov, total))
  }

  /** The page's `calculateValues`. */
  function Calculate(p: Product): (c: CalculatedValues)
    ensures c.creditCardFee == p.aov * p.creditCardFeePercent / 100.0
    ensures c.totalCost == p.productCost + c.creditCardFee + p.paymentProcessingFee
                           + p.shippingCost + p.fulfillmentCost
    ensures c.expectedGrossProfit + c.totalCost == p.aov
    ensures p.aov != 0.0 ==>
              && c.grossMarginPercent.Finite? && c.costPercentage.Finite?
              && c.grossMarginPercent.value + c.costPercentage.value == 100.0
    ensures p.aov == 0.0 ==> !c.grossMarginPercent.Finite? && !c.costPercentage.Finite?
    ensures c.grossMarginPercent == TimesHundred(Divide(c.expectedGrossProfit, p.aov))
    ensures c.costPercentage == TimesHundred(Divide(c.totalCost, p.aov))
    ensures c.expectedGrossProfit <= 0.0 ==> c.breakEvenRoas == 0.0
    ensures c.expectedGrossProfit > 0.0 ==> c.breakEvenRoas == p.aov / c.expectedGrossProfit
    ensures |c.roasTargets| == 10
    ensures forall i :: 0 <= i < 10 ==>
              && c.roasTargets[i].margin == ((i + 1) * 10) as real
              && c.roasTargets[i].roas == RoasForMargin(p.aov, c.totalCost, c.roasTargets[i].margin)
    ensures c.targetRoas10 == c.roasTargets[0].roas
    ensures c.targetRoas20 == c.roasTargets[1].roas
    ensures c.targetRoas15 == RoasForMargin(p.aov, c.totalCost, 15.0)
  {
    var c := Metrics(p.aov, p.productCost, p.creditCardFeePercent,
                     p.paymentProcessingFee, p.shippingCost, p.fulfillmentCost);
    assert p.aov != 0.0 ==> c.grossMarginPercent.value + c.costPercentage.value == 100.0 by {
      if p.aov != 0.0 {
        SharesAddUp(c.expectedGrossProfit, c.totalCost, p.aov);
      }
    }
    c
  }

  /** The figures that feed the engine; the id and the name do not. */
  predicate SameFigures(a: Product, b: Product) {
    && a.aov == b.aov && a.productCost == b.productCost
    && a.creditCardFeePercent == b.creditCardFeePercent
    && a.paymentProcessingFee == b.paymentProcessingFee
    && a.shippingCost == b.shippingCost && a.fulfillmentCost == b.fulfillmentCost
  }

  /** The metrics depend on the figures only. */
  lemma CalculateDependsOnFiguresOnly(a: Product, b: Product)
    requires SameFigures(a, b)
    ensures Calculate(a) == Calculate(b)
  {
  }

  /** Division by a quotient of the dividend gives back the divisor. */
  lemma DivideByQuotient(x: real, y: real)
    requires x != 0.0 && y != 0.0
    ensures x / (x / y) == y
  {
  }

  /** The card fee and total cost a product's figures give are the ones `Calculate` reports. */
  lemma CostsAsCalculated(p: Product)
    ensures CreditCardFee(p) == Calculate(p).creditCardFee
    ensures TotalCost(p) == Calculate(p).totalCost
    ensures p.aov - TotalCost(p) == Calculate(p).expectedGrossProfit
  {
  }

  /** Break-even: spending `aov / breakEvenRoas` on ads per order leaves exactly zero profit. */
  lemma BreakEvenLeavesZeroProfit(p: Product)
    requires p.aov != 0.0
    requires p.aov - TotalCost(p) > 0.0
    ensures Calculate(p).breakEvenRoas != 0.0
    ensures p.aov - Calculate(p).totalCost - p.aov / Calculate(p).breakEvenRoas == 0.0
  {
    CostsAsCalculated(p);
    DivideByQuotient(p.aov, Calculate(p).expectedGrossProfit);
  }

  /** With non-negative costs and a positive order value, a reachable break-even ROAS is at
      least 1, and above 1 as soon as the order costs anything. */
  lemma BreakEvenAtLeastOne(p: Product)
    requires p.aov > 0.0
    requires p.productCost >= 0.0 && p.creditCardFeePercent >= 0.0
    requires p.paymentProcessingFee >= 0.0 && p.shippingCost >= 0.0 && p.fulfillmentCost >= 0.0
    requires p.aov - TotalCost(p) > 0.0
    ensures Calculate(p).breakEvenRoas >= 1.0
    ensures Calculate(p).totalCost > 0.0 ==> Calculate(p).breakEvenRoas > 1.0
  {
    var total := TotalCost(p);
    assert total >= 0.0 by {
      NonNegativeShare(p.aov, p.creditCardFeePercent);
    }
    QuotientAtLeastOne(p.aov, p.aov - total);
    CostsAsCalculated(p);
  }

  lemma NonNegativeShare(x: real, percent: real)
    requires x >= 0.0 && percent >= 0.0
    ensures x * percent / 100.0 >= 0.0
  {
  }

  lemma QuotientAtLeastOne(x: real, y: real)
    requires 0.0 < y <= x
    ensures x / y >= 1.0
    ensures y < x ==> x / y > 1.0
  {
  }

  /** Buying ads at the margin-target ROAS leaves exactly the target margin as profit. */
  lemma MarginTargetIsMet(aov: real, totalCost: real, margin: real)
    requires aov != 0.0
    requires AvailableAdSpend(aov, totalCost, margin) > 0.0
    ensures RoasForMargin(aov, totalCost, margin) != 0.0
    ensures aov - totalCost - aov / RoasForMargin(aov, totalCost, margin) == aov * (margin / 100.0)
  {
    DivideByQuotient(aov, AvailableAdSpend(aov, totalCost, margin));
  }

  /** A higher margin target never needs a lower ROAS while it is reachable, and once a target
      is unreachable every higher one is too. */
  lemma RoasMonotoneInMargin(aov: real, totalCost: real, m1: real, m2: real)
    requires aov > 0.0 && m1 <= m2
    ensures RoasForMargin(aov, totalCost, m2) > 0.0 ==>
              0.0 < RoasForMargin(aov, totalCost, m1) <= RoasForMargin(aov, totalCost, m2)
    ensures RoasForMargin(aov, totalCost, m1) == 0.0 ==> RoasForMargin(aov, totalCost, m2) == 0.0
  {
    var a1 := AvailableAdSpend(aov, totalCost, m1);
    var a2 := AvailableAdSpend(aov, totalCost, m2);
    assert aov * (m1 / 100.0) <= aov * (m2 / 100.0);
    if a2 > 0.0 {
      QuotientAntitone(aov, a1, a2);
    }
  }

  lemma QuotientAntitone(x: real, a1: real, a2: real)
    requires x > 0.0 && a1 >= a2 > 0.0
    ensures 0.0 < x / a1 <= x / a2
  {
  }

  /** The sweep of `Calculate` is ordered: margins strictly ascend and, for a positive order
      value, reachable ROAS values never decrease and unreachable ones stay unreachable. */
  lemma SweepOrdered(p: Product, i: int, j: int)
    requires p.aov > 0.0
    requires 0 <= i < j < 10
    ensures Calculate(p).roasTargets[i].margin < Calculate(p).roasTargets[j].margin
    ensures Calculate(p).roasTargets[j].roas > 0.0 ==>
              0.0 < Calculate(p).roasTargets[i].roas <= Calculate(p).roasTargets[j].roas
    ensures Calculate(p).roasTargets[i].roas == 0.0 ==> Calculate(p).roasTargets[j].roas == 0.0
  {
    var c := Calculate(p);
    RoasMonotoneInMargin(p.aov, c.totalCost, c.roasTargets[i].margin, c.roasTargets[j].margin);
  }

  /** The sample product: 1000 order value, 92.25 total cost, break-even ROAS 1000 / 907.75,
      and 1000 / 807.75 at a 10 percent margin target. */
  lemma DefaultProductFigures(id: string, name: string)
    ensures Calculate(CreateDefaultValues(id, name)).creditCardFee == 24.0
    ensures Calculate(CreateDefaultValues(id, name)).totalCost == 92.25
    ensures Calculate(CreateDefaultValues(id, name)).expectedGrossProfit == 907.75
    ensures Calculate(CreateDefaultValues(id, name)).grossMarginPercent == Finite(90.775)
    ensures Calculate(CreateDefaultValues(id, name)).breakEvenRoas == 1000.0 / 907.75
    ensures Calculate(CreateDefaultValues(id, name)).targetRoas10 == 1000.0 / 807.75
  {
  }

  /** A loss-making product: costs above the order value make break-even unreachable. */
  lemma LossMakingProduct(id: string, name: string)
    ensures Calculate(Product(id, name, 100.0, 120.0, 0.0, 0.0, 0.0, 0.0)).expectedGrossProfit == -20.0
    ensures Calculate(Product(id, name, 100.0, 120.0, 0.0, 0.0, 0.0, 0.0)).breakEvenRoas == 0.0
  {
  }

  /** A zero order value with positive costs: the percentages leave the reals. */
  lemma ZeroOrderValueProduct(id: string, name: string)
    ensures Calculate(Product(id, name, 0.0, 50.0, 0.0, 0.0, 0.0, 0.0)).grossMarginPercent == NegInfinity
    ensures Calculate(Product(id, name, 0.0, 50.0, 0.0, 0.0, 0.0, 0.0)).costPercentage == PosInfinity
    ensures Calculate(Product(id, name, 0.0, 50.0, 0.0, 0.0, 0.0, 0.0)).breakEvenRoas == 0.0
  {
  }
}
