/** The Planner class of src/controller/planner.py as it runs: the plan table is an object
    the steps update in place, every pass is a loop over hours or candidate hours, and the
    speculative passes work on fresh copies. Each method is proved to leave the table (or
    return the value) that the corresponding function of PlanTable or PlanRepair describes,
    so the properties proved about those functions hold of the running planner. */
module BatteryPlanner {
  import opened Numeric
  import opened Wrappers
  import opened Sorting
  import opened PlanTypes
  import opened PlanRows
  import opened PlanTable
  import opened PlanRepair

  /** A plan table that the planner's steps write into (a pandas data frame). */
  class Frame {
    var rows: seq<Row>

    constructor (rows: seq<Row>)
      ensures this.rows == rows
    {
      this.rows := rows;
    }
  }

  /** The table the object passed to _set_peak_actions_automatic_v2 holds at the end: the
      method writes into that object until the first successful speculative charge, and
      from then on into a copy. */
  function PeakHeldFrom(rows: seq<Row>, data: seq<Hour>, order: seq<nat>, k: nat, cfg: Config, fuel: nat)
    : seq<Row>
    requires |rows| == |data| && IndicesIn(order, |rows|)
    decreases |order| - k
  {
    if k >= |order| then rows
    else
      var x := order[k];
      if rows[x].action == Idle && rows[x].solarSurplus < 0.0 then
        if EqualizePossible(rows, x, cfg.minCapacity) then
          PeakHeldFrom(WithReason(SetAction(rows, x, Equalize, cfg.maxChargeRate), x, EqualizeUseBattery),
                       data, order, k + 1, cfg, fuel)
        else
          match TryToGetCharge(rows, data, x, cfg, fuel)
          case Ok(None) => PeakHeldFrom(rows, data, order, k + 1, cfg, fuel)
          case _ => rows
      else PeakHeldFrom(rows, data, order, k + 1, cfg, fuel)
  }

  /** The hours after s, cheapest first, hold an hour cheaper than s sells for exactly when
      some hour after s is cheaper. */
  lemma LaterHoursCovered(data: seq<Hour>, s: nat)
    requires s < |data|
    ensures var later := SortBy(Range(s + 1, |data|), Prices(data), false);
      CheaperAfter(data, s) <==> exists j :: 0 <= j < |later| && data[s].spotPrice > data[later[j]].price
  {
    var later := SortBy(Range(s + 1, |data|), Prices(data), false);
    if CheaperAfter(data, s) {
      var b :| s < b < |data| && data[s].spotPrice > data[b].price;
      SortByKeeps(Range(s + 1, |data|), Prices(data), false, b);
      var j :| 0 <= j < |later| && later[j] == b;
    }
    if exists j :: 0 <= j < |later| && data[s].spotPrice > data[later[j]].price {
      var j :| 0 <= j < |later| && data[s].spotPrice > data[later[j]].price;
      assert later[j] in Range(s + 1, |data|);
    }
  }

  class Planner {
    /** The input table: hourly Time, Price, SpotPrice, Power and ExpectedConsumption. */
    const data: seq<Hour>
    /** max_rate, capacity, threshold, effectivity and solar_strategy. */
    const cfg: Config
    /** How many repairs each unbounded while loop of the source may make. */
    const fuel: nat
    /** The plan the constructor computes, or why computing it raised. */
    var outcome: Result<seq<Row>, PlanError>

    /** The constructor runs _main and keeps its plan. */
    constructor (data: seq<Hour>, cfg: Config, fuel: nat)
      ensures this.data == data && this.cfg == cfg && this.fuel == fuel
      ensures outcome == Main(data, cfg, fuel)
    {
      this.data := data;
      this.cfg := cfg;
      this.fuel := fuel;
      outcome := Err(KeyError(-1));
      new;
      var r := RunMain();
      outcome := r;
    }

    // -------------------------------------------------------------------------------------
    // Writes to one hour

    /** _recalculate_delta_and_battery_level: the hour's delta, then the levels of every
        later hour in ascending order. */
    method RecalculateDeltaAndBatteryLevel(frame: Frame, i: nat)
      requires i < |frame.rows|
      modifies frame
      ensures frame.rows == Recalculated(old(frame.rows), i, cfg.maxChargeRate)
    {
      frame.rows := WithDelta(frame.rows, i, cfg.maxChargeRate);
      ghost var start := frame.rows;
      var x := i + 1;
      while x < |frame.rows|
        invariant |frame.rows| == |start|
        invariant Propagate(frame.rows, x) == Propagate(start, i + 1)
        decreases |frame.rows| - x
      {
        frame.rows := WithLevel(frame.rows, x);
        x := x + 1;
      }
    }

    /** _set_charge_at_index: the admission test, then the new action and net charge, then
        the delta and later levels. */
    method SetChargeAtIndex(frame: Frame, i: nat, amount: real) returns (success: bool)
      requires i < |frame.rows|
      modifies frame
      ensures (success, frame.rows) == ChargeAt(old(frame.rows), i, amount, cfg.maxChargeRate)
    {
      success := true;
      var previous := frame.rows[i].action;
      var delta := frame.rows[i].batteryDelta;
      if previous == Idle {
        if !(amount >= 0.0 && amount <= cfg.maxChargeRate) {
          success := false;
        }
      } else {
        if !(amount >= 0.0 && amount + delta <= cfg.maxChargeRate) {
          success := false;
        }
      }
      if success {
        var r := frame.rows[i].(action := Charge);
        if previous == Idle {
          r := r.(elNetCharge := amount);
        } else if previous == Charge {
          r := r.(elNetCharge := r.elNetCharge + amount);
        } else if delta < 0.0 {
          if Abs(delta) > amount {
            r := r.(action := Idle);
          } else {
            r := r.(elNetCharge := amount + delta);
          }
        } else {
          r := r.(elNetCharge := amount);
        }
        frame.rows := frame.rows[i := r];
        RecalculateDeltaAndBatteryLevel(frame, i);
      }
    }

    /** _set_loadplan_action */
    method SetLoadplanAction(frame: Frame, i: nat, action: Action, amount: Option<real>)
      requires i < |frame.rows|
      modifies frame
      ensures frame.rows == PlanTable.SetLoadplanAction(old(frame.rows), i, action, amount, cfg.maxChargeRate)
    {
      if action == Charge {
        var toCharge := if amount.Some? then amount.value else cfg.maxChargeRate;
        var success := SetChargeAtIndex(frame, i, toCharge);
      } else {
        if frame.rows[i].action == Charge {
          frame.rows := frame.rows[i := frame.rows[i].(elNetCharge := 0.0)];
        }
        frame.rows := frame.rows[i := frame.rows[i].(action := action)];
        RecalculateDeltaAndBatteryLevel(frame, i);
        frame.rows := WithExport(frame.rows, i, cfg.maxChargeRate);
      }
    }

    // -------------------------------------------------------------------------------------
    // First pass and checks

    /** One hour of _battery_first_calculation: its surplus, then equalize when it has a
        solar surplus and idle otherwise, its reason, delta, level and export. */
    method FirstCalculationAt(frame: Frame, index: nat)
      requires index < |frame.rows| && |frame.rows| == |data|
      modifies frame
      ensures frame.rows == FirstStep(old(frame.rows), data, index, cfg.maxChargeRate)
    {
      frame.rows := WithSurplus(frame.rows, data, index);
      if frame.rows[index].solarSurplus > 0.0 {
        SetLoadplanAction(frame, index, Equalize, None);
        frame.rows := WithReason(frame.rows, index, EqualizeSolarCharge);
      } else {
        SetLoadplanAction(frame, index, Idle, None);
        frame.rows := WithReason(frame.rows, index, IdleDefault);
      }
      frame.rows := WithDelta(frame.rows, index, cfg.maxChargeRate);
      frame.rows := WithLevel(frame.rows, index);
      frame.rows := WithExport(frame.rows, index, cfg.maxChargeRate);
    }

    /** _battery_first_calculation over the whole table. */
    method BatteryFirstCalculation(frame: Frame)
      requires |frame.rows| == |data|
      modifies frame
      ensures frame.rows == FirstCalculation(old(frame.rows), data, 0, cfg.maxChargeRate)
    {
      var index := 0;
      while index < |frame.rows|
        invariant |frame.rows| == |data|
        invariant FirstCalculation(frame.rows, data, index, cfg.maxChargeRate)
               == FirstCalculation(old(frame.rows), data, 0, cfg.maxChargeRate)
        decreases |frame.rows| - index
      {
        FirstCalculationAt(frame, index);
        index := index + 1;
      }
    }

    /** _battery_check_if_above_maximum_charge */
    method BatteryCheckIfAboveMaximumCharge(frame: Frame, begin: nat) returns (v: Option<Violation>)
      ensures v == FirstAbove(frame.rows, begin, cfg.maxCapacity)
    {
      v := None;
      var index := begin;
      while index < |frame.rows|
        invariant FirstAbove(frame.rows, index, cfg.maxCapacity) == FirstAbove(frame.rows, begin, cfg.maxCapacity)
        decreases |frame.rows| - index
      {
        if frame.rows[index].batteryExpected > cfg.maxCapacity {
          v := Some(Violation(index, frame.rows[index].batteryExpected - cfg.maxCapacity));
          return;
        }
        index := index + 1;
      }
    }

    /** _battery_check_if_below_minimum_charge: the forward scan, then the last-hour rule.
        The last-hour rule reads the row labelled -1 of an empty table. */
    method BatteryCheckIfBelowMinimumCharge(frame: Frame, begin: nat) returns (r: Result<Option<Violation>, PlanError>)
      ensures |frame.rows| == 0 ==> r == Err(KeyError(-1))
      ensures |frame.rows| > 0 ==> r == Ok(FirstBelow(frame.rows, begin, cfg.minCapacity))
    {
      var result: Option<Violation> := None;
      var index := begin;
      while index < |frame.rows|
        invariant FirstBelowFrom(frame.rows, index, cfg.minCapacity) == FirstBelowFrom(frame.rows, begin, cfg.minCapacity)
        decreases |frame.rows| - index
      {
        if frame.rows[index].batteryExpected < cfg.minCapacity {
          var absoluteLacking := Abs(frame.rows[index].batteryExpected - cfg.minCapacity);
          if absoluteLacking > 0.001 {
            result := Some(Violation(index, absoluteLacking));
            break;
          }
        }
        index := index + 1;
      }
      if result.None? {
        if |frame.rows| == 0 {
          return Err(KeyError(-1));
        }
        var last := |frame.rows| - 1;
        var surplus := frame.rows[last].solarSurplus;
        if frame.rows[last].action == Equalize && surplus < 0.0 {
          var capacity := frame.rows[last].batteryExpected - cfg.minCapacity;
          var lacking := Abs(surplus) - capacity;
          if lacking > 0.0 {
            result := Some(Violation(last, lacking));
          }
        }
      }
      r := Ok(result);
    }

    // -------------------------------------------------------------------------------------
    // Refill

    /** The decision table of the refill and of _battery_fix_lacking at hour p, with the
        swing of the hour worked out as those loops do. */
    method ChargeDecision(frame: Frame, p: nat, capacity: real, lacking: real) returns (d: Decision)
      requires p < |frame.rows|
      ensures d == LackingDecision(SwingMinimum(frame.rows[p]), SwingMaximum(frame.rows[p], cfg.maxChargeRate),
                                   capacity, lacking)
    {
      var state := frame.rows[p].action;
      var delta := frame.rows[p].batteryDelta;
      var actualMax := cfg.maxChargeRate;
      var actualMin := 0.0;
      if (state == Equalize && delta > 0.0) || state == Charge {
        actualMax := cfg.maxChargeRate - delta;
      } else if state == Equalize && delta < 0.0 {
        actualMin := Abs(delta);
        actualMax := cfg.maxChargeRate + actualMin;
      }
      d := LackingDecision(actualMin, actualMax, capacity, lacking);
    }

    /** _battery_refill_buffer_immidiately: charge from hour 0 on until the violation's
        amount is covered. None when it completes. */
    method BatteryRefillBufferImmediately(frame: Frame, v: Violation) returns (err: Option<PlanError>)
      modifies frame
      ensures var r := Refill(old(frame.rows), v.amount, 0, cfg);
        && (r.Ok? <==> err.None?)
        && (r.Ok? ==> frame.rows == r.value)
        && (r.Err? ==> err == Some(r.error))
    {
      ghost var target := Refill(frame.rows, v.amount, 0, cfg);
      var needed := v.amount;
      var index := 0;
      while needed > 0.0
        invariant Refill(frame.rows, needed, index, cfg) == target
        decreases |frame.rows| - index
      {
        if index >= |frame.rows| {
          return Some(KeyError(index));
        }
        ghost var before := frame.rows;
        var capacity := cfg.maxCapacity - frame.rows[index].batteryExpected;
        var d := ChargeDecision(frame, index, capacity, needed);
        if !d.NoCharge? {
          var success := SetChargeAtIndex(frame, index, DecisionAmount(d));
          frame.rows := WithReason(frame.rows, index, ChargeLaterConsumption);
          assert frame.rows == Charged(before, index, DecisionAmount(d), cfg.maxChargeRate);
          if d.ChargeMinimum? {
            // remaining_lacking is not bound in this method
            return Some(UnboundLocal);
          }
          needed := if d.ChargeAll? then 0.0 else needed - DecisionAmount(d);
        }
        index := index + 1;
      }
      err := None;
    }

    // -------------------------------------------------------------------------------------
    // Excess and lacking repairs

    /** The zero_point loop of _battery_fix_excess: hours v - 1 down to 1, stopping at the
        first level at or below the minimum. */
    method FindZeroPoint(frame: Frame, v: nat) returns (zp: nat)
      requires v < |frame.rows|
      ensures zp == ZeroPoint(frame.rows, v, cfg.minCapacity)
    {
      var x: nat := v;
      while x > 1
        invariant x <= v
        invariant x == 0 ==> v == 0
        invariant x > 0 ==> ScanDownLow(frame.rows, x - 1, cfg.minCapacity) == ZeroPoint(frame.rows, v, cfg.minCapacity)
        decreases x
      {
        if frame.rows[x - 1].batteryExpected <= cfg.minCapacity {
          return x - 1;
        }
        x := x - 1;
      }
      zp := 0;
    }

    /** The max_point loop of _battery_fix_lacking: hours v - 1 down to 1, stopping at the
        first level at or above the maximum. */
    method FindMaxPoint(frame: Frame, v: nat) returns (mp: nat)
      requires v < |frame.rows|
      ensures mp == MaxPoint(frame.rows, v, cfg.maxCapacity)
    {
      var x: nat := v;
      while x > 1
        invariant x <= v
        invariant x == 0 ==> v == 0
        invariant x > 0 ==> ScanDownHigh(frame.rows, x - 1, cfg.maxCapacity) == MaxPoint(frame.rows, v, cfg.maxCapacity)
        decreases x
      {
        if frame.rows[x - 1].batteryExpected >= cfg.maxCapacity {
          return x - 1;
        }
        x := x - 1;
      }
      mp := 0;
    }

    /** The first loop of _battery_fix_excess: equalize deficit hours from the battery while
        excess is left. Returns the excess still left. */
    method SpendExcess(frame: Frame, cands: seq<nat>, v: nat, excess: real) returns (remaining: real)
      requires v < |frame.rows| && forall j :: 0 <= j < |cands| ==> cands[j] <= v
      modifies frame
      ensures (frame.rows, remaining) == ExcessUse(old(frame.rows), cands, 0, v, excess, cfg)
    {
      ghost var target := ExcessUse(frame.rows, cands, 0, v, excess, cfg);
      remaining := excess;
      var k := 0;
      while k < |cands|
        invariant |frame.rows| == |old(frame.rows)|
        invariant ExcessUse(frame.rows, cands, k, v, remaining, cfg) == target
        decreases |cands| - k
      {
        ghost var before := frame.rows;
        var p := cands[k];
        var room := MinimumBetween(frame.rows, p, v) - cfg.minCapacity;
        var consumption := Abs(frame.rows[p].solarSurplus);
        if room > consumption {
          SetLoadplanAction(frame, p, Equalize, None);
          frame.rows := WithReason(frame.rows, p, EqualizeUseBattery);
          assert frame.rows == WithReason(SetAction(before, p, Equalize, cfg.maxChargeRate), p, EqualizeUseBattery);
          remaining := remaining - consumption;
        }
        if remaining <= 0.0 {
          break;
        }
        k := k + 1;
      }
    }

    /** The second loop of _battery_fix_excess: stop storing the surplus of solar-charging
        hours while excess is left. */
    method SellExcess(frame: Frame, cands: seq<nat>, v: nat, excess: real) returns (remaining: real)
      requires v < |frame.rows| && forall j :: 0 <= j < |cands| ==> cands[j] <= v
      modifies frame
      ensures (frame.rows, remaining) == ExcessSell(old(frame.rows), cands, 0, v, excess, cfg)
    {
      ghost var target := ExcessSell(frame.rows, cands, 0, v, excess, cfg);
      remaining := excess;
      var k := 0;
      while k < |cands|
        invariant |frame.rows| == |old(frame.rows)|
        invariant ExcessSell(frame.rows, cands, k, v, remaining, cfg) == target
        decreases |cands| - k
      {
        ghost var before := frame.rows;
        var p := cands[k];
        var room := MinimumBetween(frame.rows, p, v) - cfg.minCapacity;
        var surplus := frame.rows[p].solarSurplus;
        if room > surplus {
          SetLoadplanAction(frame, p, Idle, None);
          frame.rows := WithReason(frame.rows, p, IdleSolarOverflow);
          assert frame.rows == WithReason(SetAction(before, p, Idle, cfg.maxChargeRate), p, IdleSolarOverflow);
          remaining := remaining - surplus;
        }
        if remaining <= 0.0 {
          break;
        }
        k := k + 1;
      }
    }

    /** _battery_fix_excess */
    method BatteryFixExcess(frame: Frame, v: Violation)
      requires v.index < |frame.rows| && |frame.rows| == |data|
      modifies frame
      ensures frame.rows == FixExcess(old(frame.rows), data, v, cfg)
    {
      var zp := FindZeroPoint(frame, v.index);
      var remaining := SpendExcess(frame, DeficitCandidates(frame.rows, data, zp, v.index), v.index, v.amount);
      if remaining > 0.0 {
        remaining := SellExcess(frame, StorageCandidates(frame.rows, data, zp, v.index), v.index, remaining);
      }
    }

    /** One candidate hour p of _battery_fix_lacking. */
    method FixLackingAt(frame: Frame, p: nat, v: nat, against: real, lacking: real) returns (remaining: real)
      requires p <= v < |frame.rows| && |frame.rows| == |data|
      modifies frame
      ensures (frame.rows, remaining) == LackingStep(old(frame.rows), data, p, v, against, lacking, cfg)
    {
      remaining := lacking;
      if PriceIndex(against, data[p].price, cfg.effectivity) > PriceIndexThreshold {
        var capacity := cfg.maxCapacity - HighestLevel(frame.rows, p, v);
        var d := ChargeDecision(frame, p, capacity, remaining);
        if !d.NoCharge? {
          var success := SetChargeAtIndex(frame, p, DecisionAmount(d));
          frame.rows := WithReason(frame.rows, p, ChargeLaterConsumption);
          remaining := if d.ChargeAll? then 0.0 else remaining - DecisionAmount(d);
        }
      }
    }

    /** _battery_fix_lacking: returns what is still lacking. */
    method BatteryFixLacking(frame: Frame, pi: nat, v: Violation) returns (remaining: real)
      requires pi < |frame.rows| && v.index < |frame.rows| && |frame.rows| == |data|
      modifies frame
      ensures (frame.rows, remaining) == FixLacking(old(frame.rows), data, pi, v, cfg)
    {
      var against := data[pi].price;
      remaining := v.amount;
      var mp := FindMaxPoint(frame, v.index);
      var cands := SortBy(HoursExcept(mp, v.index, pi), Prices(data), false);
      assert cands == LackingCandidates(frame.rows, data, pi, v.index, cfg);
      ghost var target := LackingPass(frame.rows, data, cands, 0, v.index, against, remaining, cfg);
      var k := 0;
      while k < |cands|
        invariant |frame.rows| == |data|
        invariant LackingPass(frame.rows, data, cands, k, v.index, against, remaining, cfg) == target
        decreases |cands| - k
      {
        remaining := FixLackingAt(frame, cands[k], v.index, against, remaining);
        if remaining <= 0.0 {
          break;
        }
        k := k + 1;
      }
    }

    // -------------------------------------------------------------------------------------
    // Peak equalisation

    /** The while loop of _try_to_get_charge on the copy: repair each shortfall from idx on
        until none is left (Ok(Some)) or one cannot be covered (Ok(None)). */
    method RepairShortfalls(dummy: Frame, idx: nat) returns (r: Result<Option<seq<Row>>, PlanError>)
      requires idx < |dummy.rows| && |dummy.rows| == |data|
      modifies dummy
      ensures r == TryLoop(old(dummy.rows), data, idx, FirstBelow(old(dummy.rows), idx, cfg.minCapacity), cfg, fuel)
    {
      var check := BatteryCheckIfBelowMinimumCharge(dummy, idx);
      var violation := check.value;
      var budget := fuel;
      ghost var target := TryLoop(dummy.rows, data, idx, violation, cfg, fuel);
      while violation.Some?
        invariant |dummy.rows| == |data| && (violation.Some? ==> violation.value.index < |dummy.rows|)
        invariant TryLoop(dummy.rows, data, idx, violation, cfg, budget) == target
        decreases budget
      {
        if budget == 0 {
          return Err(Diverged);
        }
        var lackingRemaining := BatteryFixLacking(dummy, idx, violation.value);
        if lackingRemaining <= 0.0 {
          check := BatteryCheckIfBelowMinimumCharge(dummy, idx);
          violation := check.value;
          budget := budget - 1;
        } else {
          return Ok(None);
        }
      }
      r := Ok(Some(dummy.rows));
    }

    /** _try_to_get_charge: equalize hour idx on a copy of the table and repair what that
        breaks; the table passed in is left alone. Ok(None) when a shortfall could not be
        covered. */
    method TryToGetCharge(frame: Frame, idx: nat) returns (r: Result<Option<seq<Row>>, PlanError>)
      requires idx < |frame.rows| && |frame.rows| == |data|
      ensures r == PlanRepair.TryToGetCharge(frame.rows, data, idx, cfg, fuel)
    {
      var dummy := new Frame(frame.rows);
      SetLoadplanAction(dummy, idx, Equalize, None);
      dummy.rows := WithReason(dummy.rows, idx, EqualizeUseBattery);
      r := RepairShortfalls(dummy, idx);
    }

    /** _set_peak_actions_automatic_v2: the returned table, and what the object passed in
        holds afterwards. */
    method SetPeakActionsAutomatic(frame: Frame) returns (r: Result<seq<Row>, PlanError>)
      requires |frame.rows| == |data|
      modifies frame
      ensures r == Peak(old(frame.rows), data, cfg, fuel)
      ensures r.Ok? ==> frame.rows == PeakHeldFrom(old(frame.rows), data, SortBy(Range(0, |data|), Prices(data), true), 0, cfg, fuel)
    {
      var peakIndices := SortBy(Range(0, |data|), Prices(data), true);
      r := PeakLoop(frame, peakIndices);
    }

    /** The loop of _set_peak_actions_automatic_v2 over the hours in the order given: the
        object passed in is written until the first successful try, a copy afterwards. */
    method PeakLoop(frame: Frame, peakIndices: seq<nat>) returns (r: Result<seq<Row>, PlanError>)
      requires |frame.rows| == |data| && IndicesIn(peakIndices, |data|)
      modifies frame
      ensures r == PeakFrom(old(frame.rows), data, peakIndices, 0, cfg, fuel)
      ensures r.Ok? ==> frame.rows == PeakHeldFrom(old(frame.rows), data, peakIndices, 0, cfg, fuel)
    {
      var result := frame;
      ghost var target := PeakFrom(frame.rows, data, peakIndices, 0, cfg, fuel);
      ghost var held := PeakHeldFrom(frame.rows, data, peakIndices, 0, cfg, fuel);
      ghost var copied := false;
      var k := 0;
      while k < |peakIndices|
        invariant |result.rows| == |data| && |frame.rows| == |data|
        invariant PeakFrom(result.rows, data, peakIndices, k, cfg, fuel) == target
        invariant !copied ==> result == frame && PeakHeldFrom(frame.rows, data, peakIndices, k, cfg, fuel) == held
        invariant copied ==> fresh(result) && frame.rows == held
        decreases |peakIndices| - k
      {
        var x := peakIndices[k];
        if result.rows[x].action == Idle && result.rows[x].solarSurplus < 0.0 {
          if EqualizePossible(result.rows, x, cfg.minCapacity) {
            SetLoadplanAction(result, x, Equalize, None);
            result.rows := WithReason(result.rows, x, EqualizeUseBattery);
          } else {
            var chargeTest := TryToGetCharge(result, x);
            if chargeTest.Err? {
              return Err(chargeTest.error);
            }
            if chargeTest.value.Some? {
              result := new Frame(chargeTest.value.value);
              copied := true;
            }
          }
        }
        k := k + 1;
      }
      r := Ok(result.rows);
    }

    // -------------------------------------------------------------------------------------
    // Selling solar power

    /** One sell hour of _solar_sell_timeframe_surplus. */
    method SellTimeframeHour(frame: Frame, sellIndex: nat)
      requires sellIndex < |frame.rows|
      modifies frame
      ensures frame.rows == TimeframeStep(old(frame.rows), sellIndex, cfg)
    {
      var endIndex := |frame.rows| - 1;
      var toBottom := cfg.maxChargeRate;
      if sellIndex < endIndex {
        toBottom := MinimumBetween(frame.rows, sellIndex + 1, endIndex) - cfg.minCapacity;
      }
      var surplusInHour := frame.rows[sellIndex].batteryDelta;
      var sellCondition := cfg.strategy == SellAll;
      if toBottom >= surplusInHour && sellCondition {
        SetLoadplanAction(frame, sellIndex, Idle, None);
        frame.rows := WithReason(frame.rows, sellIndex, IdleSolarOverflow);
      }
    }

    /** _solar_sell_timeframe_surplus */
    method SolarSellTimeframeSurplus(frame: Frame)
      requires |frame.rows| == |data|
      modifies frame
      ensures frame.rows == TimeframeSell(old(frame.rows), data, cfg)
    {
      var sells := SellCandidates(frame.rows, data);
      ghost var target := TimeframeFrom(frame.rows, sells, 0, cfg);
      var k := 0;
      while k < |sells|
        invariant |frame.rows| == |data|
        invariant TimeframeFrom(frame.rows, sells, k, cfg) == target
        decreases |sells| - k
      {
        SellTimeframeHour(frame, sells[k]);
        k := k + 1;
      }
    }

    /** One buy hour b of the first buy loop of _solar_decide_sell_or_use: charge what
        _decide_charge_amount allows on the simulation dummy. Returns the charge still needed. */
    method BuyAt(dummy: Frame, s: nat, b: nat, needed: real) returns (left: real)
      requires b <= s < |dummy.rows|
      modifies dummy
      ensures (dummy.rows, left) == BuyStep(old(dummy.rows), s, b, needed, cfg)
    {
      left := needed;
      var availableMax := AvailableMaximum(dummy.rows[b], cfg.maxChargeRate);
      var availableMin := AvailableMinimum(dummy.rows[b]);
      var toUpperLimit := cfg.maxCapacity - HighestLevel(dummy.rows, b, s);
      var amount := DecideChargeAmount(availableMin, availableMax, toUpperLimit, left);
      if amount > 0.0 {
        var success := SetChargeAtIndex(dummy, b, amount);
        dummy.rows := WithReason(dummy.rows, b, ChargeLaterConsumption);
        if success {
          left := left - amount;
        }
      }
    }

    /** Whether the simulation has no violation of either bound from hour b on. */
    method NoViolationFrom(dummy: Frame, b: nat) returns (clean: bool)
      requires |dummy.rows| > 0
      ensures clean == Clean(dummy.rows, b, cfg)
    {
      var above := BatteryCheckIfAboveMaximumCharge(dummy, b);
      clean := above.None?;
      if clean {
        var below := BatteryCheckIfBelowMinimumCharge(dummy, b);
        clean := below.value.None?;
      }
    }

    /** The first buy loop of _solar_decide_sell_or_use, before sell hour s, on the
        simulation dummy: the charge still needed, the earliest buy hour, the committed table
        and to_continue, as BuyBefore describes them. */
    method BuyBeforeSell(dummy: Frame, s: nat, neededBefore: real, committedBefore: seq<Row>)
      returns (needed: real, firstBuy: nat, committed: seq<Row>, proceed: bool)
      requires s < |dummy.rows| && |dummy.rows| == |data| && |committedBefore| == |data|
      modifies dummy
      ensures BuyState(dummy.rows, needed, firstBuy, committed, proceed)
           == BuyBefore(old(dummy.rows), data, s, SortBy(Range(0, s), Prices(data), false), 0,
                        neededBefore, s, committedBefore, false, cfg)
    {
      var buys := SortBy(Range(0, s), Prices(data), false);
      SortByWithin(Range(0, s), Prices(data), false, 0, s);
      needed, firstBuy, committed, proceed := BuyLoop(dummy, s, buys, neededBefore, committedBefore);
    }

    /** The loop of BuyBeforeSell over the given buy hours before s, cheapest first. */
    method BuyLoop(dummy: Frame, s: nat, buys: seq<nat>, neededBefore: real, committedBefore: seq<Row>)
      returns (needed: real, firstBuy: nat, committed: seq<Row>, proceed: bool)
      requires s < |dummy.rows| && |dummy.rows| == |data| && |committedBefore| == |data|
      requires forall j :: 0 <= j < |buys| ==> buys[j] < s
      modifies dummy
      ensures BuyState(dummy.rows, needed, firstBuy, committed, proceed)
           == BuyBefore(old(dummy.rows), data, s, buys, 0, neededBefore, s, committedBefore, false, cfg)
    {
      ghost var target := BuyBefore(dummy.rows, data, s, buys, 0, neededBefore, s, committedBefore, false, cfg);
      needed, firstBuy, committed, proceed := neededBefore, s, committedBefore, false;
      var k := 0;
      while k < |buys|
        invariant |dummy.rows| == |data| && |committed| == |data|
        invariant BuyBefore(dummy.rows, data, s, buys, k, needed, firstBuy, committed, proceed, cfg) == target
        decreases |buys| - k
      {
        var buyIndex := buys[k];
        if !(data[s].spotPrice > data[buyIndex].price) {
          break;
        }
        proceed := true;
        if buyIndex < firstBuy {
          firstBuy := buyIndex;
        }
        needed := BuyAt(dummy, s, buyIndex, needed);
        if needed <= 0.0 {
          var clean := NoViolationFrom(dummy, firstBuy);
          if clean {
            committed := dummy.rows;
          }
          break;
        }
        k := k + 1;
      }
    }

    /** The loop over the buy hours after sell hour s: whether one of them is cheaper to buy
        than s sells for. */
    method FindCheaperBuy(s: nat, hours: seq<nat>) returns (found: bool)
      requires s < |data| && IndicesIn(hours, |data|)
      ensures found == exists j :: 0 <= j < |hours| && data[s].spotPrice > data[hours[j]].price
    {
      var k := 0;
      while k < |hours|
        invariant k <= |hours|
        invariant forall j :: 0 <= j < k ==> !(data[s].spotPrice > data[hours[j]].price)
        decreases |hours| - k
      {
        if data[s].spotPrice > data[hours[k]].price {
          return true;
        }
        k := k + 1;
      }
      found := false;
    }

    /** The second buy loop of _solar_decide_sell_or_use, over the hours after s from the
        cheapest: the first one cheaper than s sells for asks for the maximum level of an
        empty range, which raises. */
    method LaterBuyFails(s: nat) returns (fails: bool)
      requires s < |data|
      ensures fails == CheaperAfter(data, s)
    {
      fails := FindCheaperBuy(s, SortBy(Range(s + 1, |data|), Prices(data), false));
      LaterHoursCovered(data, s);
    }

    /** _solar_decide_sell_or_use: works on copies and leaves the input alone. */
    method SolarDecideSellOrUse(frame: Frame) returns (r: Result<seq<Row>, PlanError>)
      requires |frame.rows| == |data|
      ensures r == SellOrUse(frame.rows, data, cfg)
    {
      var sells := SellCandidates(frame.rows, data);
      var resultFrame := frame.rows;
      var k := 0;
      while k < |sells|
        invariant |resultFrame| == |data|
        invariant SellFrom(frame.rows, data, sells, k, resultFrame, cfg) == SellOrUse(frame.rows, data, cfg)
        decreases |sells| - k
      {
        var sellIndex := sells[k];
        var dummy := new Frame(resultFrame);
        SetLoadplanAction(dummy, sellIndex, Idle, None);
        dummy.rows := WithReason(dummy.rows, sellIndex, IdleSolarSellHighBuyLow);
        var needed, firstBuy, committed, toContinue :=
          BuyBeforeSell(dummy, sellIndex, frame.rows[sellIndex].batteryDelta, resultFrame);
        if needed > 0.0 && |data| - 1 > sellIndex {
          var fails := LaterBuyFails(sellIndex);
          if fails {
            return Err(EmptyMaximum);
          }
        }
        resultFrame := committed;
        if !toContinue {
          break;
        }
        k := k + 1;
      }
      r := Ok(resultFrame);
    }

    // -------------------------------------------------------------------------------------
    // The whole run

    /** The refill step of _main: the first below-minimum check, and the refill when it
        finds a violation. */
    method RefillWhenLow(frame: Frame) returns (err: Option<PlanError>)
      requires |frame.rows| == |data|
      modifies frame
      ensures |old(frame.rows)| == 0 ==> err == Some(KeyError(-1))
      ensures |old(frame.rows)| > 0 ==>
        var r := RefillIfLow(old(frame.rows), cfg);
        && (r.Ok? <==> err.None?)
        && (r.Ok? ==> frame.rows == r.value)
        && (r.Err? ==> err == Some(r.error))
    {
      var below := BatteryCheckIfBelowMinimumCharge(frame, 0);
      if below.Err? {
        return Some(below.error);
      }
      err := None;
      if below.value.Some? {
        err := BatteryRefillBufferImmediately(frame, below.value.value);
      }
    }

    /** The above-maximum loop of _main. */
    method RepairExcess(frame: Frame) returns (err: Option<PlanError>)
      requires |frame.rows| == |data|
      modifies frame
      ensures var r := ExcessLoop(old(frame.rows), data, cfg, fuel);
        && (r.Ok? <==> err.None?)
        && (r.Ok? ==> frame.rows == r.value)
        && (r.Err? ==> err == Some(r.error))
    {
      ghost var target := ExcessLoop(frame.rows, data, cfg, fuel);
      var violation := BatteryCheckIfAboveMaximumCharge(frame, 0);
      var budget := fuel;
      while violation.Some?
        invariant |frame.rows| == |data|
        invariant violation == FirstAbove(frame.rows, 0, cfg.maxCapacity)
        invariant ExcessLoop(frame.rows, data, cfg, budget) == target
        decreases budget
      {
        if budget == 0 {
          return Some(Diverged);
        }
        BatteryFixExcess(frame, violation.value);
        violation := BatteryCheckIfAboveMaximumCharge(frame, 0);
        budget := budget - 1;
      }
      err := None;
    }

    /** _main: the plan, or why the run raises. The closing bound checks only print. */
    method RunMain() returns (r: Result<seq<Row>, PlanError>)
      ensures r == Main(data, cfg, fuel)
    {
      var temp := new Frame(Template(data));
      BatteryFirstCalculation(temp);
      var err := RefillWhenLow(temp);
      if err.Some? {
        return Err(err.value);
      }
      err := RepairExcess(temp);
      if err.Some? {
        return Err(err.value);
      }
      var peaked := SetPeakActionsAutomatic(temp);
      if peaked.Err? {
        return Err(peaked.error);
      }
      temp := new Frame(peaked.value);
      SolarSellTimeframeSurplus(temp);
      r := SolarDecideSellOrUse(temp);
    }
  }
}
