/** The planner's passes as functions of the table: the first greedy pass, the refill, the
    excess and lacking repairs, peak equalisation with its speculative charging, and the two
    solar selling passes, composed in the order of _main (src/controller/planner.py). Each
    loop over a sorted candidate list is a recursion over the list that stops where the
    source breaks. */
module PlanRepair {
  import opened Numeric
  import opened Wrappers
  import opened Sorting
  import opened PlanTypes
  import opened PlanRows
  import opened PlanTable

  // ---------------------------------------------------------------------------------------
  // First pass

  /** The template _main starts from: Time copied from the input, every number 0.0, Action
      and ActionReason empty. */
  function Template(data: seq<Hour>): (rows: seq<Row>)
    ensures |rows| == |data|
  {
    seq(|data|, k requires 0 <= k < |data| => Row(data[k].time, Idle, 0.0, 0.0, 0.0, 0.0, 0.0, Blank))
  }

  /** One iteration of _battery_first_calculation. */
  function FirstStep(rows: seq<Row>, data: seq<Hour>, i: nat, rate: real): (r: seq<Row>)
    requires i < |rows| && |rows| == |data|
    ensures |r| == |rows|
  {
    var s := WithSurplus(rows, data, i);
    var solar := s[i].solarSurplus > 0.0;
    var acted := SetAction(s, i, if solar then Equalize else Idle, rate);
    var reasoned := WithReason(acted, i, if solar then EqualizeSolarCharge else IdleDefault);
    WithExport(WithLevel(WithDelta(reasoned, i, rate), i), i, rate)
  }

  /** _battery_first_calculation from hour i to the end. */
  function FirstCalculation(rows: seq<Row>, data: seq<Hour>, i: nat, rate: real): (r: seq<Row>)
    requires |rows| == |data|
    ensures |r| == |rows|
    decreases |rows| - i
  {
    if i >= |rows| then rows else FirstCalculation(FirstStep(rows, data, i, rate), data, i + 1, rate)
  }

  // ---------------------------------------------------------------------------------------
  // Refill

  /** A charge through the charge setter followed by the reason CHARGE_LATER_CONSUMPTION, as
      every branch of the two decision tables does; a refused charge still gets the reason. */
  function Charged(rows: seq<Row>, i: nat, amount: real, rate: real): (r: seq<Row>)
    requires i < |rows|
    ensures |r| == |rows|
  {
    WithReason(ChargeAt(rows, i, amount, rate).1, i, ChargeLaterConsumption)
  }

  /** _battery_refill_buffer_immidiately from hour index with needed kWh still to charge. */
  function Refill(rows: seq<Row>, needed: real, index: nat, cfg: Config): (r: Result<seq<Row>, PlanError>)
    ensures r.Ok? ==> |r.value| == |rows|
    decreases |rows| - index
  {
    if needed <= 0.0 then Ok(rows)
    else if index >= |rows| then Err(KeyError(index))
    else
      var row := rows[index];
      var capacity := cfg.maxCapacity - row.batteryExpected;
      var d := LackingDecision(SwingMinimum(row), SwingMaximum(row, cfg.maxChargeRate), capacity, needed);
      if d.NoCharge? then Refill(rows, needed, index + 1, cfg)
      else if d.ChargeMinimum? then Err(UnboundLocal)
      else
        var left := if d.ChargeAll? then 0.0 else needed - DecisionAmount(d);
        Refill(Charged(rows, index, DecisionAmount(d), cfg.maxChargeRate), left, index + 1, cfg)
  }

  // ---------------------------------------------------------------------------------------
  // Excess repair

  /** The first loop of _battery_fix_excess over the candidates from position k: equalize a
      deficit hour from the battery when the lowest level up to the violation leaves strictly
      more than its consumption. */
  function ExcessUse(rows: seq<Row>, cands: seq<nat>, k: nat, v: nat, remaining: real, cfg: Config)
    : (r: (seq<Row>, real))
    requires v < |rows| && forall j :: 0 <= j < |cands| ==> cands[j] <= v
    ensures |r.0| == |rows|
    decreases |cands| - k
  {
    if k >= |cands| then (rows, remaining)
    else
      var p := cands[k];
      var room := MinimumBetween(rows, p, v) - cfg.minCapacity;
      var use := Abs(rows[p].solarSurplus);
      var next := if room > use then WithReason(SetAction(rows, p, Equalize, cfg.maxChargeRate), p, EqualizeUseBattery)
                  else rows;
      var left := if room > use then remaining - use else remaining;
      if left <= 0.0 then (next, left) else ExcessUse(next, cands, k + 1, v, left, cfg)
  }

  /** The second loop of _battery_fix_excess: stop storing the solar surplus of an hour (sell
      it) when the lowest level up to the violation leaves strictly more than that surplus. */
  function ExcessSell(rows: seq<Row>, cands: seq<nat>, k: nat, v: nat, remaining: real, cfg: Config)
    : (r: (seq<Row>, real))
    requires v < |rows| && forall j :: 0 <= j < |cands| ==> cands[j] <= v
    ensures |r.0| == |rows|
    decreases |cands| - k
  {
    if k >= |cands| then (rows, remaining)
    else
      var p := cands[k];
      var room := MinimumBetween(rows, p, v) - cfg.minCapacity;
      var surplus := rows[p].solarSurplus;
      var next := if room > surplus then WithReason(SetAction(rows, p, Idle, cfg.maxChargeRate), p, IdleSolarOverflow)
                  else rows;
      var left := if room > surplus then remaining - surplus else remaining;
      if left <= 0.0 then (next, left) else ExcessSell(next, cands, k + 1, v, left, cfg)
  }

  /** The hours the first loop of _battery_fix_excess visits: idle hours with a deficit between
      the zero point and the violation, most expensive first. */
  function DeficitCandidates(rows: seq<Row>, data: seq<Hour>, zp: nat, v: nat): (c: seq<nat>)
    requires v < |rows| && |rows| == |data|
    ensures forall j :: 0 <= j < |c| ==> zp <= c[j] <= v
  {
    var hours := IdleDeficitHours(rows, zp, v + 1);
    SortByWithin(hours, Prices(data), true, zp, v + 1);
    SortBy(hours, Prices(data), true)
  }

  /** The hours the second loop visits: equalize hours storing solar power between the zero
      point and the violation, highest spot price first. */
  function StorageCandidates(rows: seq<Row>, data: seq<Hour>, zp: nat, v: nat): (c: seq<nat>)
    requires v < |rows| && |rows| == |data|
    ensures forall j :: 0 <= j < |c| ==> zp <= c[j] <= v
  {
    var hours := SolarChargingHours(rows, zp, v + 1);
    SortByWithin(hours, SpotPrices(data), true, zp, v + 1);
    SortBy(hours, SpotPrices(data), true)
  }

  /** _battery_fix_excess: deficit hours by descending price first, then, while excess is
      left, solar-charging hours by descending spot price, both between the zero point and
      the violation. */
  function FixExcess(rows: seq<Row>, data: seq<Hour>, v: Violation, cfg: Config): (r: seq<Row>)
    requires v.index < |rows| && |rows| == |data|
    ensures |r| == |rows|
  {
    var zp := ZeroPoint(rows, v.index, cfg.minCapacity);
    var first := ExcessUse(rows, DeficitCandidates(rows, data, zp, v.index), 0, v.index, v.amount, cfg);
    if first.1 > 0.0 then
      ExcessSell(first.0, StorageCandidates(first.0, data, zp, v.index), 0, v.index, first.1, cfg).0
    else first.0
  }

  /** The above-maximum loop of _main, with at most fuel repairs. */
  function ExcessLoop(rows: seq<Row>, data: seq<Hour>, cfg: Config, fuel: nat): (r: Result<seq<Row>, PlanError>)
    requires |rows| == |data|
    ensures r.Ok? ==> |r.value| == |rows|
    decreases fuel
  {
    match FirstAbove(rows, 0, cfg.maxCapacity)
    case None => Ok(rows)
    case Some(v) =>
      if fuel == 0 then Err(Diverged) else ExcessLoop(FixExcess(rows, data, v, cfg), data, cfg, fuel - 1)
  }

  // ---------------------------------------------------------------------------------------
  // Lacking repair

  /** One candidate hour p of _battery_fix_lacking: when charging at p is profitable against
      the violating hour's price, charge what the inline decision table picks. */
  function LackingStep(rows: seq<Row>, data: seq<Hour>, p: nat, v: nat, against: real,
                       remaining: real, cfg: Config): (r: (seq<Row>, real))
    requires p <= v < |rows| && |rows| == |data|
    ensures |r.0| == |rows|
  {
    if PriceIndex(against, data[p].price, cfg.effectivity) > PriceIndexThreshold then
      var capacity := cfg.maxCapacity - HighestLevel(rows, p, v);
      var rate := cfg.maxChargeRate;
      var d := LackingDecision(SwingMinimum(rows[p]), SwingMaximum(rows[p], rate), capacity, remaining);
      if d.NoCharge? then (rows, remaining)
      else (Charged(rows, p, DecisionAmount(d), rate), if d.ChargeAll? then 0.0 else remaining - DecisionAmount(d))
    else (rows, remaining)
  }

  /** The candidate loop of _battery_fix_lacking from position k. */
  function LackingPass(rows: seq<Row>, data: seq<Hour>, cands: seq<nat>, k: nat, v: nat,
                       against: real, remaining: real, cfg: Config): (r: (seq<Row>, real))
    requires v < |rows| && |rows| == |data| && forall j :: 0 <= j < |cands| ==> cands[j] < v
    ensures |r.0| == |rows|
    decreases |cands| - k
  {
    if k >= |cands| then (rows, remaining)
    else
      var (next, left) := LackingStep(rows, data, cands[k], v, against, remaining, cfg);
      if left <= 0.0 then (next, left) else LackingPass(next, data, cands, k + 1, v, against, left, cfg)
  }

  /** The hours _battery_fix_lacking tries: from the max point up to the violation, the
      violating hour pi left out, cheapest first. */
  function LackingCandidates(rows: seq<Row>, data: seq<Hour>, pi: nat, v: nat, cfg: Config): (c: seq<nat>)
    requires v < |rows| && |rows| == |data|
    ensures forall j :: 0 <= j < |c| ==> c[j] < v
  {
    var hours := HoursExcept(MaxPoint(rows, v, cfg.maxCapacity), v, pi);
    SortByWithin(hours, Prices(data), false, 0, v);
    SortBy(hours, Prices(data), false)
  }

  /** _battery_fix_lacking: the table after charging at the cheapest hours between the max
      point and the violation (the violating hour pi left out), and what is still lacking. */
  function FixLacking(rows: seq<Row>, data: seq<Hour>, pi: nat, v: Violation, cfg: Config)
    : (r: (seq<Row>, real))
    requires pi < |rows| && v.index < |rows| && |rows| == |data|
    ensures |r.0| == |rows|
  {
    LackingPass(rows, data, LackingCandidates(rows, data, pi, v.index, cfg), 0, v.index,
                data[pi].price, v.amount, cfg)
  }

  // ---------------------------------------------------------------------------------------
  // What a lacking repair keeps

  /** Hour x has the same action and reason in both tables. */
  predicate SamePlanAt(before: seq<Row>, after: seq<Row>, x: nat)
  {
    x < |before| && x < |after| && after[x].action == before[x].action && after[x].reason == before[x].reason
  }

  lemma ChargedKeepsConsistent(rows: seq<Row>, data: seq<Hour>, i: nat, amount: real, rate: real)
    requires Consistent(rows, data, rate) && i < |rows|
    ensures Consistent(Charged(rows, i, amount, rate), data, rate)
  {
    ChargeAtKeepsConsistent(rows, data, i, amount, rate);
    ReasonKeepsConsistent(ChargeAt(rows, i, amount, rate).1, data, i, ChargeLaterConsumption, rate);
  }

  lemma LackingStepKeepsConsistent(rows: seq<Row>, data: seq<Hour>, p: nat, v: nat, against: real,
                                   remaining: real, cfg: Config)
    requires Consistent(rows, data, cfg.maxChargeRate) && p <= v < |rows|
    ensures Consistent(LackingStep(rows, data, p, v, against, remaining, cfg).0, data, cfg.maxChargeRate)
  {
    var rate := cfg.maxChargeRate;
    if PriceIndex(against, data[p].price, cfg.effectivity) > PriceIndexThreshold {
      var capacity := cfg.maxCapacity - HighestLevel(rows, p, v);
      var d := LackingDecision(SwingMinimum(rows[p]), SwingMaximum(rows[p], rate), capacity, remaining);
      if d != NoCharge {
        ChargedKeepsConsistent(rows, data, p, DecisionAmount(d), rate);
      }
    }
  }

  lemma {:induction false} LackingPassKeepsConsistent(rows: seq<Row>, data: seq<Hour>, cands: seq<nat>, k: nat,
                                                      v: nat, against: real, remaining: real, cfg: Config)
    requires Consistent(rows, data, cfg.maxChargeRate)
    requires v < |rows| && forall j :: 0 <= j < |cands| ==> cands[j] < v
    ensures Consistent(LackingPass(rows, data, cands, k, v, against, remaining, cfg).0, data, cfg.maxChargeRate)
    decreases |cands| - k
  {
    if k < |cands| {
      LackingStepKeepsConsistent(rows, data, cands[k], v, against, remaining, cfg);
      var (next, left) := LackingStep(rows, data, cands[k], v, against, remaining, cfg);
      if left > 0.0 {
        LackingPassKeepsConsistent(next, data, cands, k + 1, v, against, left, cfg);
      }
    }
  }

  lemma FixLackingKeepsConsistent(rows: seq<Row>, data: seq<Hour>, pi: nat, v: Violation, cfg: Config)
    requires Consistent(rows, data, cfg.maxChargeRate) && pi < |rows| && v.index < |rows|
    ensures Consistent(FixLacking(rows, data, pi, v, cfg).0, data, cfg.maxChargeRate)
  {
    var cands := LackingCandidates(rows, data, pi, v.index, cfg);
    LackingPassKeepsConsistent(rows, data, cands, 0, v.index, data[pi].price, v.amount, cfg);
  }

  /** A charge through the charge setter leaves the plan of every other hour alone. */
  lemma ChargedKeepsOthers(rows: seq<Row>, i: nat, amount: real, rate: real, x: nat)
    requires i < |rows| && x < |rows| && x != i
    ensures SamePlanAt(rows, Charged(rows, i, amount, rate), x)
  {
    if ChargeAdmissible(rows[i], amount, rate) {
      var c := rows[i := ChargedRow(rows[i], amount)];
      RecalculatedMeaning(c, i, rate);
    }
  }

  lemma LackingStepKeepsOthers(rows: seq<Row>, data: seq<Hour>, p: nat, v: nat, against: real,
                               remaining: real, cfg: Config, x: nat)
    requires p <= v < |rows| && |rows| == |data| && x < |rows| && x != p
    ensures SamePlanAt(rows, LackingStep(rows, data, p, v, against, remaining, cfg).0, x)
  {
    if PriceIndex(against, data[p].price, cfg.effectivity) > PriceIndexThreshold {
      var capacity := cfg.maxCapacity - HighestLevel(rows, p, v);
      var rate := cfg.maxChargeRate;
      var d := LackingDecision(SwingMinimum(rows[p]), SwingMaximum(rows[p], rate), capacity, remaining);
      if !d.NoCharge? {
        ChargedKeepsOthers(rows, p, DecisionAmount(d), rate, x);
      }
    }
  }

  lemma {:induction false} LackingPassKeepsOthers(rows: seq<Row>, data: seq<Hour>, cands: seq<nat>, k: nat,
                                                  v: nat, against: real, remaining: real, cfg: Config, x: nat)
    requires v < |rows| && |rows| == |data| && forall j :: 0 <= j < |cands| ==> cands[j] < v
    requires x < |rows| && forall j :: k <= j < |cands| ==> cands[j] != x
    ensures SamePlanAt(rows, LackingPass(rows, data, cands, k, v, against, remaining, cfg).0, x)
    decreases |cands| - k
  {
    if k < |cands| {
      LackingStepKeepsOthers(rows, data, cands[k], v, against, remaining, cfg, x);
      var step := LackingStep(rows, data, cands[k], v, against, remaining, cfg);
      if step.1 > 0.0 {
        LackingPassKeepsOthers(step.0, data, cands, k + 1, v, against, step.1, cfg, x);
      }
    }
  }

  /** _battery_fix_lacking never charges at the hour whose equalisation caused the shortfall. */
  lemma FixLackingKeepsCause(rows: seq<Row>, data: seq<Hour>, pi: nat, v: Violation, cfg: Config)
    requires pi < |rows| && v.index < |rows| && |rows| == |data|
    ensures SamePlanAt(rows, FixLacking(rows, data, pi, v, cfg).0, pi)
  {
    var cands := LackingCandidates(rows, data, pi, v.index, cfg);
    var mp := MaxPoint(rows, v.index, cfg.maxCapacity);
    FiltersMeaning(rows, mp, v.index, pi);
    assert forall j :: 0 <= j < |cands| ==> cands[j] in HoursExcept(mp, v.index, pi);
    LackingPassKeepsOthers(rows, data, cands, 0, v.index, data[pi].price, v.amount, cfg, pi);
  }

  /** A lacking repair keeps a consistent table consistent and leaves the plan of the hour
      whose equalisation caused the shortfall alone. */
  lemma FixLackingKeepsPlan(rows: seq<Row>, data: seq<Hour>, pi: nat, v: Violation, cfg: Config)
    requires pi < |rows| && v.index < |rows| && |rows| == |data|
    ensures Consistent(rows, data, cfg.maxChargeRate) ==>
      Consistent(FixLacking(rows, data, pi, v, cfg).0, data, cfg.maxChargeRate)
    ensures SamePlanAt(rows, FixLacking(rows, data, pi, v, cfg).0, pi)
  {
    if Consistent(rows, data, cfg.maxChargeRate) {
      FixLackingKeepsConsistent(rows, data, pi, v, cfg);
    }
    FixLackingKeepsCause(rows, data, pi, v, cfg);
  }

  /** The while loop of _try_to_get_charge, with at most fuel lacking repairs: Some(table)
      when every violation from idx on was repaired, None when a repair fell short. */
  function TryLoop(dummy: seq<Row>, data: seq<Hour>, idx: nat, v: Option<Violation>, cfg: Config, fuel: nat)
    : (r: Result<Option<seq<Row>>, PlanError>)
    requires idx < |dummy| && |dummy| == |data| && (v.Some? ==> v.value.index < |dummy|)
    ensures r.Ok? && r.value.Some? ==> |r.value.value| == |dummy|
    ensures r.Ok? && r.value.Some? ==> SamePlanAt(dummy, r.value.value, idx)
    ensures r.Ok? && r.value.Some? && v == FirstBelow(dummy, idx, cfg.minCapacity) ==>
      FirstBelow(r.value.value, idx, cfg.minCapacity).None?
    ensures r.Ok? && r.value.Some? && Consistent(dummy, data, cfg.maxChargeRate) ==>
      Consistent(r.value.value, data, cfg.maxChargeRate)
    decreases fuel, 1
  {
    if v.None? then Ok(Some(dummy))
    else if fuel == 0 then Err(Diverged)
    else TryRound(dummy, data, idx, v.value, cfg, fuel)
  }

  /** One round of that loop, for the shortfall v: repair it, and go on from the first
      shortfall of the repaired table when nothing is left lacking. */
  function TryRound(dummy: seq<Row>, data: seq<Hour>, idx: nat, v: Violation, cfg: Config, fuel: nat)
    : (r: Result<Option<seq<Row>>, PlanError>)
    requires idx < |dummy| && |dummy| == |data| && v.index < |dummy| && fuel > 0
    ensures r.Ok? && r.value.Some? ==> |r.value.value| == |dummy|
    ensures r.Ok? && r.value.Some? ==> SamePlanAt(dummy, r.value.value, idx)
    ensures r.Ok? && r.value.Some? ==> FirstBelow(r.value.value, idx, cfg.minCapacity).None?
    ensures r.Ok? && r.value.Some? && Consistent(dummy, data, cfg.maxChargeRate) ==>
      Consistent(r.value.value, data, cfg.maxChargeRate)
    decreases fuel, 0
  {
    var fix := FixLacking(dummy, data, idx, v, cfg);
    FixLackingKeepsPlan(dummy, data, idx, v, cfg);
    if fix.1 <= 0.0 then TryLoop(fix.0, data, idx, FirstBelow(fix.0, idx, cfg.minCapacity), cfg, fuel - 1)
    else Ok(None)
  }

  /** _try_to_get_charge: equalize hour idx on a copy, then repair the shortfalls it causes. */
  function TryToGetCharge(rows: seq<Row>, data: seq<Hour>, idx: nat, cfg: Config, fuel: nat)
    : (r: Result<Option<seq<Row>>, PlanError>)
    requires idx < |rows| && |rows| == |data|
    ensures r.Ok? && r.value.Some? ==> |r.value.value| == |rows|
  {
    var dummy := WithReason(SetAction(rows, idx, Equalize, cfg.maxChargeRate), idx, EqualizeUseBattery);
    TryLoop(dummy, data, idx, FirstBelow(dummy, idx, cfg.minCapacity), cfg, fuel)
  }

  // ---------------------------------------------------------------------------------------
  // Peak equalisation

  /** The loop of _set_peak_actions_automatic_v2 from position k of the price order. */
  function PeakFrom(rows: seq<Row>, data: seq<Hour>, order: seq<nat>, k: nat, cfg: Config, fuel: nat)
    : (r: Result<seq<Row>, PlanError>)
    requires |rows| == |data| && IndicesIn(order, |rows|)
    ensures r.Ok? ==> |r.value| == |rows|
    decreases |order| - k
  {
    if k >= |order| then Ok(rows)
    else
      var x := order[k];
      if rows[x].action == Idle && rows[x].solarSurplus < 0.0 then
        if EqualizePossible(rows, x, cfg.minCapacity) then
          PeakFrom(WithReason(SetAction(rows, x, Equalize, cfg.maxChargeRate), x, EqualizeUseBattery),
                   data, order, k + 1, cfg, fuel)
        else
          match TryToGetCharge(rows, data, x, cfg, fuel)
          case Err(e) => Err(e)
          case Ok(None) => PeakFrom(rows, data, order, k + 1, cfg, fuel)
          case Ok(Some(tried)) => PeakFrom(tried, data, order, k + 1, cfg, fuel)
      else PeakFrom(rows, data, order, k + 1, cfg, fuel)
  }

  /** _set_peak_actions_automatic_v2 over every hour, most expensive first. */
  function Peak(rows: seq<Row>, data: seq<Hour>, cfg: Config, fuel: nat): (r: Result<seq<Row>, PlanError>)
    requires |rows| == |data|
    ensures r.Ok? ==> |r.value| == |rows|
  {
    PeakFrom(rows, data, SortBy(Range(0, |data|), Prices(data), true), 0, cfg, fuel)
  }

  // ---------------------------------------------------------------------------------------
  // Selling the timeframe surplus

  /** Room below the levels after hour s: the lowest level from s + 1 to the end above the
      minimum, or the charge rate for the last hour. */
  function RoomAfter(rows: seq<Row>, s: nat, cfg: Config): real
    requires s < |rows|
  {
    if s < |rows| - 1 then MinimumBetween(rows, s + 1, |rows| - 1) - cfg.minCapacity
    else cfg.maxChargeRate
  }

  /** One iteration of _solar_sell_timeframe_surplus. */
  function TimeframeStep(rows: seq<Row>, s: nat, cfg: Config): (r: seq<Row>)
    requires s < |rows|
    ensures |r| == |rows|
  {
    if RoomAfter(rows, s, cfg) >= rows[s].batteryDelta && cfg.strategy == SellAll then
      WithReason(SetAction(rows, s, Idle, cfg.maxChargeRate), s, IdleSolarOverflow)
    else rows
  }

  function TimeframeFrom(rows: seq<Row>, order: seq<nat>, k: nat, cfg: Config): (r: seq<Row>)
    requires IndicesIn(order, |rows|)
    ensures |r| == |rows|
    decreases |order| - k
  {
    if k >= |order| then rows else TimeframeFrom(TimeframeStep(rows, order[k], cfg), order, k + 1, cfg)
  }

  /** The hours _solar_sell_timeframe_surplus and _solar_decide_sell_or_use visit: equalize
      hours storing solar power, highest spot price first. */
  function SellCandidates(rows: seq<Row>, data: seq<Hour>): (s: seq<nat>)
    requires |rows| == |data|
    ensures IndicesIn(s, |rows|)
    ensures forall j :: 0 <= j < |s| ==> rows[s[j]].action == Equalize && rows[s[j]].solarSurplus > 0.0
  {
    FiltersMeaning(rows, 0, |rows|, 0);
    SortBy(SolarChargingHours(rows, 0, |rows|), SpotPrices(data), true)
  }

  /** _solar_sell_timeframe_surplus */
  function TimeframeSell(rows: seq<Row>, data: seq<Hour>, cfg: Config): (r: seq<Row>)
    requires |rows| == |data|
    ensures |r| == |rows|
  {
    TimeframeFrom(rows, SellCandidates(rows, data), 0, cfg)
  }

  // ---------------------------------------------------------------------------------------
  // Sell or use

  /** No violation of either bound from hour b on: the re-check before a commit. */
  predicate Clean(rows: seq<Row>, b: nat, cfg: Config)
    requires |rows| > 0
  {
    FirstAbove(rows, b, cfg.maxCapacity).None? && FirstBelow(rows, b, cfg.minCapacity).None?
  }

  /** The working state of the buy loop before a sell hour: the simulated table, the charge
      still needed, the earliest buy hour used, the last committed table, and to_continue. */
  datatype BuyState = BuyState(dummy: seq<Row>, needed: real, firstBuy: nat, committed: seq<Row>, proceed: bool)

  /** Charge at buy hour b < s what _decide_charge_amount allows; the need shrinks only when
      the charge was admitted. */
  function BuyStep(dummy: seq<Row>, s: nat, b: nat, needed: real, cfg: Config): (r: (seq<Row>, real))
    requires b <= s < |dummy|
    ensures |r.0| == |dummy|
  {
    var rate := cfg.maxChargeRate;
    var upper := cfg.maxCapacity - HighestLevel(dummy, b, s);
    var amount := DecideChargeAmount(AvailableMinimum(dummy[b]), AvailableMaximum(dummy[b], rate), upper, needed);
    if amount > 0.0 then
      var (ok, charged) := ChargeAt(dummy, b, amount, rate);
      (WithReason(charged, b, ChargeLaterConsumption), if ok then needed - amount else needed)
    else (dummy, needed)
  }

  /** The first buy loop of _solar_decide_sell_or_use from position k: it stops at the first
      buy hour whose price is not below the sell hour's spot price, and once the need is met
      it commits the simulation if it is clean from the earliest buy hour on. */
  function BuyBefore(dummy: seq<Row>, data: seq<Hour>, s: nat, buys: seq<nat>, k: nat, needed: real,
                     firstBuy: nat, committed: seq<Row>, proceed: bool, cfg: Config): (r: BuyState)
    requires s < |dummy| && |dummy| == |data| && |committed| == |dummy|
    requires forall j :: 0 <= j < |buys| ==> buys[j] < s
    ensures |r.dummy| == |dummy| && |r.committed| == |dummy|
    decreases |buys| - k
  {
    if k >= |buys| then BuyState(dummy, needed, firstBuy, committed, proceed)
    else
      var b := buys[k];
      if !(data[s].spotPrice > data[b].price) then BuyState(dummy, needed, firstBuy, committed, proceed)
      else
        var first := if b < firstBuy then b else firstBuy;
        var (next, left) := BuyStep(dummy, s, b, needed, cfg);
        if left <= 0.0 then
          BuyState(next, left, first, if Clean(next, first, cfg) then next else committed, true)
        else BuyBefore(next, data, s, buys, k + 1, left, first, committed, true, cfg)
  }

  /** Some hour after s is cheaper to buy than s sells for. */
  predicate CheaperAfter(data: seq<Hour>, s: nat)
  {
    exists b :: s < b < |data| && data[s].spotPrice > data[b].price
  }

  /** One sell hour of _solar_decide_sell_or_use, giving the committed table and
      to_continue. When charge is still needed after the earlier hours and a later hour is
      cheaper, the second loop asks for the maximum level over the empty range from that
      later hour back to s, and max() of an empty sequence raises. */
  function SellAttempt(orig: seq<Row>, data: seq<Hour>, committed: seq<Row>, s: nat, cfg: Config)
    : (r: Result<(seq<Row>, bool), PlanError>)
    requires s < |orig| && |orig| == |data| && |committed| == |orig|
    ensures r.Ok? ==> |r.value.0| == |orig|
  {
    var dummy := WithReason(SetAction(committed, s, Idle, cfg.maxChargeRate), s, IdleSolarSellHighBuyLow);
    var buys := SortBy(Range(0, s), Prices(data), false);
    var st := BuyBefore(dummy, data, s, buys, 0, orig[s].batteryDelta, s, committed, false, cfg);
    if st.needed > 0.0 && |data| - 1 > s && CheaperAfter(data, s) then Err(EmptyMaximum)
    else Ok((st.committed, st.proceed))
  }

  /** The loop over sell hours of _solar_decide_sell_or_use from position k. */
  function SellFrom(orig: seq<Row>, data: seq<Hour>, sells: seq<nat>, k: nat, committed: seq<Row>, cfg: Config)
    : (r: Result<seq<Row>, PlanError>)
    requires |orig| == |data| && |committed| == |orig| && IndicesIn(sells, |orig|)
    ensures r.Ok? ==> |r.value| == |orig|
    decreases |sells| - k
  {
    if k >= |sells| then Ok(committed)
    else
      match SellAttempt(orig, data, committed, sells[k], cfg)
      case Err(e) => Err(e)
      case Ok((next, proceed)) => if proceed then SellFrom(orig, data, sells, k + 1, next, cfg) else Ok(next)
  }

  /** _solar_decide_sell_or_use */
  function SellOrUse(rows: seq<Row>, data: seq<Hour>, cfg: Config): (r: Result<seq<Row>, PlanError>)
    requires |rows| == |data|
    ensures r.Ok? ==> |r.value| == |rows|
  {
    SellFrom(rows, data, SellCandidates(rows, data), 0, rows, cfg)
  }

  // ---------------------------------------------------------------------------------------
  // The whole run

  /** The refill step of _main: only when the first pass leaves hour 0 on below the minimum. */
  function RefillIfLow(rows: seq<Row>, cfg: Config): (r: Result<seq<Row>, PlanError>)
    requires |rows| > 0
    ensures r.Ok? ==> |r.value| == |rows|
  {
    match FirstBelow(rows, 0, cfg.minCapacity)
    case None => Ok(rows)
    case Some(v) => Refill(rows, v.amount, 0, cfg)
  }

  /** _main: the plan, or why the run aborts. An empty input fails at the first below-minimum
      check, which reads the row labelled -1. */
  function Main(data: seq<Hour>, cfg: Config, fuel: nat): (r: Result<seq<Row>, PlanError>)
    ensures r.Ok? ==> |r.value| == |data|
  {
    var first := FirstCalculation(Template(data), data, 0, cfg.maxChargeRate);
    if |first| == 0 then Err(KeyError(-1))
    else
      match RefillIfLow(first, cfg)
      case Err(e) => Err(e)
      case Ok(refilled) =>
        match ExcessLoop(refilled, data, cfg, fuel)
        case Err(e) => Err(e)
        case Ok(repaired) =>
          match Peak(repaired, data, cfg, fuel)
          case Err(e) => Err(e)
          case Ok(peaked) => SellOrUse(TimeframeSell(peaked, data, cfg), data, cfg)
  }
}
