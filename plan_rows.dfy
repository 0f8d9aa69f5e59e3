/** The planner's per-hour rules: surplus, battery delta, export, the charge setter's
    admission test and new state, the chargeable swing of an hour and the two decision
    tables that pick a charge amount (src/controller/planner.py). */
module PlanRows {
  import opened Numeric
  import opened Wrappers
  import opened PlanTypes

  /** BATTERY_PRICE_INDEX_THRESHOLD */
  const PriceIndexThreshold: int := 10

  /** price_index: floor of the saving per kWh through the battery, in hundredths. */
  function PriceIndex(usePrice: real, buyPrice: real, effectivity: real): (r: int)
    ensures r as real <= (usePrice * effectivity - buyPrice) * 100.0 < r as real + 1.0
  {
    ((usePrice * effectivity - buyPrice) * 100.0).Floor
  }

  /** An hour passes the profitability test exactly when the effective saving is at least
      0.11 per kWh. */
  lemma PriceIndexAboveThreshold(usePrice: real, buyPrice: real, effectivity: real)
    ensures PriceIndex(usePrice, buyPrice, effectivity) > PriceIndexThreshold
        <==> usePrice * effectivity - buyPrice >= 0.11
  {
    var y := usePrice * effectivity - buyPrice;
    var r := PriceIndex(usePrice, buyPrice, effectivity);
    assert r as real <= y * 100.0 < r as real + 1.0;
    if r > PriceIndexThreshold {
      assert r >= 11;
    }
    if y >= 0.11 {
      assert y * 100.0 >= 11.0;
    }
  }

  /** _battery_calculate_solar_surplus */
  function SurplusOf(h: Hour): real
  {
    Round4(h.power - h.expectedConsumption)
  }

  /** _battery_calculate_delta_value for an hour with this action, surplus and net charge. */
  function DeltaFor(action: Action, surplus: real, elNet: real, rate: real): real
  {
    match action
    case Idle => 0.0
    case Equalize => if surplus > rate then rate else surplus
    case Charge =>
      if surplus < 0.0 then elNet
      else if surplus > rate then rate
      else surplus + elNet
  }

  function RowDelta(r: Row, rate: real): real
  {
    DeltaFor(r.action, r.solarSurplus, r.elNetCharge, rate)
  }

  /** The delta rule from the hour's point of view: an idle hour holds its level, an
      equalize hour stores its surplus up to the rate or covers its deficit from the
      battery, and a charge hour adds its grid charge on top of a surplus that is within
      the rate; a surplus above the rate caps the delta at the rate, grid charge or not. */
  lemma DeltaByAction(action: Action, surplus: real, elNet: real, rate: real)
    requires rate >= 0.0 && elNet >= 0.0
    ensures action == Idle ==> DeltaFor(action, surplus, elNet, rate) == 0.0
    ensures action == Equalize ==>
      DeltaFor(action, surplus, elNet, rate) <= rate &&
      (surplus <= rate ==> DeltaFor(action, surplus, elNet, rate) == surplus)
    ensures action == Charge ==>
      DeltaFor(action, surplus, elNet, rate) >= 0.0 &&
      (surplus < 0.0 ==> DeltaFor(action, surplus, elNet, rate) == elNet) &&
      (surplus > rate ==> DeltaFor(action, surplus, elNet, rate) == rate) &&
      (0.0 <= surplus <= rate ==>
        DeltaFor(action, surplus, elNet, rate) == surplus + elNet &&
        DeltaFor(action, surplus, elNet, rate) >= DeltaFor(Equalize, surplus, 0.0, rate))
  {
  }

  /** _calculate_solar_export: an idle hour exports its whole surplus, any other hour
      (charge hours included) what exceeds the charge rate. */
  function ExportFor(action: Action, surplus: real, rate: real): (e: real)
    ensures e >= 0.0
    ensures action == Idle ==> (e == 0.0 <==> surplus <= 0.0)
    ensures action != Idle ==> (e == 0.0 <==> surplus <= rate)
    ensures rate >= 0.0 && e > 0.0 ==> e <= surplus
  {
    if action == Idle then
      if surplus > 0.0 then surplus else 0.0
    else
      if surplus > rate then surplus - rate else 0.0
  }

  /** _battery_get_current_charge_level: a stub that always reports an empty battery. */
  function CurrentChargeLevel(): real
  {
    0.0
  }

  /** The admission test of _set_charge_at_index. */
  predicate ChargeAdmissible(r: Row, amount: real, rate: real)
  {
    if r.action == Idle then 0.0 <= amount <= rate
    else 0.0 <= amount && amount + r.batteryDelta <= rate
  }

  /** The action and net charge _set_charge_at_index gives an admitted hour, before its
      delta is recomputed. A discharging equalize hour whose deficit exceeds the amount
      becomes idle and keeps its net charge. */
  function ChargedRow(r: Row, amount: real): Row
  {
    match r.action
    case Idle => r.(action := Charge, elNetCharge := amount)
    case Charge => r.(elNetCharge := r.elNetCharge + amount)
    case Equalize =>
      if r.batteryDelta < 0.0 then
        if Abs(r.batteryDelta) > amount then r.(action := Idle)
        else r.(action := Charge, elNetCharge := amount + r.batteryDelta)
      else r.(action := Charge, elNetCharge := amount)
  }

  /** _get_charge_amount_available_maximum_at_index */
  function AvailableMaximum(r: Row, rate: real): real
  {
    if r.action == Idle then rate else rate - r.batteryDelta
  }

  /** _get_charge_amount_available_minimum_at_index */
  function AvailableMinimum(r: Row): real
  {
    if r.action == Equalize && r.batteryDelta < 0.0 then Abs(r.batteryDelta) else 0.0
  }

  /** The swing rule written inline in _battery_fix_lacking and the refill. */
  function SwingMaximum(r: Row, rate: real): real
  {
    if (r.action == Equalize && r.batteryDelta > 0.0) || r.action == Charge then rate - r.batteryDelta
    else if r.action == Equalize && r.batteryDelta < 0.0 then rate + Abs(r.batteryDelta)
    else rate
  }

  function SwingMinimum(r: Row): real
  {
    if r.action == Equalize && r.batteryDelta < 0.0 then Abs(r.batteryDelta) else 0.0
  }

  /** The two helper functions compute the same swing as the inline rule. */
  lemma AvailableAgreesWithSwing(r: Row, rate: real)
    ensures AvailableMaximum(r, rate) == SwingMaximum(r, rate)
    ensures AvailableMinimum(r) == SwingMinimum(r)
  {
  }

  /** _decide_charge_amount: the largest admissible charge toward electricityNeeded. */
  function DecideChargeAmount(minimumAvailable: real, maximumAvailable: real,
                              toUpperLimit: real, electricityNeeded: real): (r: real)
    ensures minimumAvailable <= maximumAvailable && r != 0.0 ==>
      minimumAvailable <= r <= maximumAvailable && r <= toUpperLimit
    ensures r > electricityNeeded && r != 0.0 ==> r == minimumAvailable
    ensures (toUpperLimit > electricityNeeded && maximumAvailable >= electricityNeeded &&
             electricityNeeded > minimumAvailable) ==> r == electricityNeeded
  {
    if toUpperLimit > electricityNeeded then
      if maximumAvailable >= electricityNeeded then
        if electricityNeeded > minimumAvailable then electricityNeeded
        else if minimumAvailable > toUpperLimit then 0.0
        else minimumAvailable
      else maximumAvailable
    else
      if maximumAvailable > toUpperLimit then
        if minimumAvailable > toUpperLimit then 0.0
        else toUpperLimit
      else maximumAvailable
  }

  /** The seven-way table written inline in _battery_fix_lacking and the refill: which charge
      to set, keeping options 1 (all that is lacking) and 3 (the swing minimum) apart. */
  datatype Decision =
    | NoCharge                      // options 2 and 5
    | ChargeAll(amount: real)       // option 1: the remaining lacking is cleared
    | ChargeMinimum(amount: real)   // option 3
    | ChargePart(amount: real)      // options 4, 6 and 7

  function DecisionAmount(d: Decision): real
  {
    match d
    case NoCharge => 0.0
    case ChargeAll(a) => a
    case ChargeMinimum(a) => a
    case ChargePart(a) => a
  }

  function LackingDecision(actualMin: real, actualMax: real, capacity: real, lacking: real): Decision
  {
    if capacity > lacking then
      if actualMax >= lacking then
        if lacking > actualMin then ChargeAll(lacking)
        else if actualMin > capacity then NoCharge
        else ChargeMinimum(actualMin)
      else ChargePart(actualMax)
    else
      if actualMax > capacity then
        if actualMin > capacity then NoCharge
        else ChargePart(capacity)
      else ChargePart(actualMax)
  }

  /** The inline table and _decide_charge_amount pick the same amount, and the inline
      table skips exactly where _decide_charge_amount answers 0 for lack of room. */
  lemma LackingDecisionAgrees(actualMin: real, actualMax: real, capacity: real, lacking: real)
    ensures DecisionAmount(LackingDecision(actualMin, actualMax, capacity, lacking))
         == DecideChargeAmount(actualMin, actualMax, capacity, lacking)
    ensures LackingDecision(actualMin, actualMax, capacity, lacking) == NoCharge ==>
      actualMin > capacity
  {
  }
}
