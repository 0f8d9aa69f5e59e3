/** The profit of the planned first hour against buying all consumption from the grid
    (src/ui/post_processing/profit.py). */
module Profits {
  import opened Numeric
  import opened Wrappers
  import opened PlanTypes
  import opened PlanRows

  /** The charge rate written into the profit rule as a literal. */
  const ProfitRate: real := 3.0

  /** smart_buy: what the first hour costs, or earns, under its planned action. An idle
      hour sells its surplus at a positive spot price or buys its deficit; a charge hour
      buys its deficit and its grid charge, buys its grid charge when the surplus is below
      the rate, and sells what exceeds the rate at a positive spot price; an equalize hour,
      and a charge hour whose surplus is exactly the rate, count nothing. */
  function SmartBuy(action: Action, surplus: real, elNet: real, price: real, spot: real): real
  {
    match action
    case Idle =>
      if surplus > 0.0 then (if !(spot <= 0.0) then spot * surplus else 0.0)
      else if surplus < 0.0 then price * Abs(surplus)
      else 0.0
    case Charge =>
      if surplus < 0.0 then price * Abs(surplus) + price * elNet
      else if surplus >= 0.0 && surplus < ProfitRate then price * elNet
      else if surplus > ProfitRate then (if !(spot <= 0.0) then spot * (surplus - ProfitRate) else 0.0)
      else 0.0
    case Equalize => 0.0
  }

  /** _calculate_expected_profit: the cost of the first hour bought at its price, less the
      smart buy of its planned action, to two decimals. Only row 0 of the input and of the
      plan is read; a table without it raises KeyError. */
  function ExpectedProfit(data: seq<Hour>, plan: seq<Row>): (r: Result<real, PlanError>)
    ensures r.Ok? <==> |data| > 0 && |plan| > 0
    ensures r.Err? ==> r.error == KeyError(0)
    ensures r.Ok? ==>
      -0.005 < r.value - (data[0].expectedConsumption * data[0].price
                          - SmartBuy(plan[0].action, plan[0].solarSurplus, plan[0].elNetCharge,
                                     data[0].price, data[0].spotPrice)) <= 0.005
  {
    if |plan| == 0 || |data| == 0 then Err(KeyError(0))
    else
      var row, hour := plan[0], data[0];
      Ok(Round2(hour.expectedConsumption * hour.price
                - SmartBuy(row.action, row.solarSurplus, row.elNetCharge, hour.price, hour.spotPrice)))
  }

  /** current_profit / _calculate_current_profit: not yet written in the source. */
  function CurrentProfit(data: seq<Hour>, plan: seq<Row>): real
  {
    0.0
  }

  /** calculate_total_profit: not yet written in the source. */
  function TotalProfit(data: seq<Hour>, plan: seq<Row>): real
  {
    0.0
  }

  /** The energy an hour draws from the grid under the planner's own battery rule: the
      battery delta less the surplus, when positive. */
  function GridImport(action: Action, surplus: real, elNet: real, rate: real): (g: real)
    ensures g >= 0.0
  {
    var d := DeltaFor(action, surplus, elNet, rate) - surplus;
    if d > 0.0 then d else 0.0
  }

  /** The smart buy is the grid import bought at the hour's price plus the export sold at a
      positive spot price, both as the planner computes them for a charge rate of 3. The
      rule agrees with this everywhere except in two places it leaves out: an equalize hour
      whose surplus exceeds the rate, and a charge hour with surplus exactly the rate that
      also takes grid charge. */
  lemma {:induction false} SmartBuyIsGridCostPlusSale(action: Action, surplus: real, elNet: real,
                                                       price: real, spot: real)
    requires elNet >= 0.0
    requires action == Equalize ==> surplus <= ProfitRate
    requires action == Charge && surplus == ProfitRate ==> elNet == 0.0
    ensures SmartBuy(action, surplus, elNet, price, spot)
         == price * GridImport(action, surplus, elNet, ProfitRate)
            + (if spot > 0.0 then spot * ExportFor(action, surplus, ProfitRate) else 0.0)
  {
    var g := GridImport(action, surplus, elNet, ProfitRate);
    var e := ExportFor(action, surplus, ProfitRate);
    match action
    case Idle =>
      if surplus > 0.0 {
        assert g == 0.0 && e == surplus;
      } else {
        assert g == -surplus && e == 0.0;
      }
    case Charge =>
      if surplus < 0.0 {
        assert g == elNet - surplus && e == 0.0;
      } else if surplus <= ProfitRate {
        assert g == elNet && e == 0.0;
      } else {
        assert g == 0.0 && e == surplus - ProfitRate;
      }
    case Equalize =>
      assert g == 0.0 && e == 0.0;
  }

  /** With non-negative prices and grid charge, the smart buy is never negative, so the
      profit never exceeds the cost of buying the consumption; it is zero for an equalize
      hour, whose profit is the rounded cost of the consumption. */
  lemma ProfitAtMostNormalBuy(data: seq<Hour>, plan: seq<Row>)
    requires |data| > 0 && |plan| > 0
    requires data[0].price >= 0.0 && plan[0].elNetCharge >= 0.0
    ensures SmartBuy(plan[0].action, plan[0].solarSurplus, plan[0].elNetCharge,
                     data[0].price, data[0].spotPrice) >= 0.0
    ensures ExpectedProfit(data, plan).value <= data[0].expectedConsumption * data[0].price + 0.005
    ensures plan[0].action == Equalize ==>
      ExpectedProfit(data, plan).value == Round2(data[0].expectedConsumption * data[0].price)
  {
    var p, s, n := data[0].price, plan[0].solarSurplus, plan[0].elNetCharge;
    if plan[0].action == Charge && s < 0.0 {
      assert p * Abs(s) >= 0.0 && p * n >= 0.0;
    }
  }

  /** A charge hour whose surplus is exactly the rate counts nothing, whatever it charges,
      while just below the rate it pays for its grid charge. */
  lemma ChargeAtRateCountsNothing(elNet: real, price: real, spot: real)
    ensures SmartBuy(Charge, ProfitRate, elNet, price, spot) == 0.0
    ensures SmartBuy(Charge, ProfitRate - 0.5, elNet, price, spot) == price * elNet
    ensures spot > 0.0 ==> SmartBuy(Charge, ProfitRate + 0.5, elNet, price, spot) == spot * 0.5
  {
  }
}
