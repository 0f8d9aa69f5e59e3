/** What the planner's passes guarantee about the table (src/controller/planner.py): the first
    pass builds a consistent table, every later pass keeps it consistent, and so does every
    plan _main produces. */
module PlanProperties {
  import opened Numeric
  import opened Wrappers
  import opened Sorting
  import opened PlanTypes
  import opened PlanRows
  import opened PlanTable
  import opened PlanRepair

  // ---------------------------------------------------------------------------------------
  // The first pass

  /** An hour as the first pass leaves it: its surplus stored when positive (equalize) and
      sold otherwise (idle), no grid charge. */
  predicate FirstDone(r: Row, h: Hour, rate: real)
  {
    var surplus := SurplusOf(h);
    && r.solarSurplus == surplus
    && r.action == (if surplus > 0.0 then Equalize else Idle)
    && r.reason == (if surplus > 0.0 then EqualizeSolarCharge else IdleDefault)
    && r.elNetCharge == 0.0
    && r.batteryDelta == RowDelta(r, rate)
    && r.solarExport == ExportFor(r.action, surplus, rate)
  }

  /** The first pass has handled hours 0..i-1; later hours are still template rows. */
  predicate FirstPrefix(rows: seq<Row>, data: seq<Hour>, i: nat, rate: real)
  {
    && |rows| == |data| && i <= |rows|
    && (forall k :: 0 <= k < |rows| ==> rows[k].time == data[k].time)
    && (forall k :: 0 <= k < i ==> FirstDone(rows[k], data[k], rate))
    && (forall k :: i <= k < |rows| ==> rows[k].action == Idle && rows[k].elNetCharge == 0.0)
    && (forall k {:trigger LevelAt(rows, k)} :: 0 <= k < i ==> rows[k].batteryExpected == LevelAt(rows, k))
  }

  /** One step of the first pass rewrites hour i and, through the level recalculation, only
      the levels of later hours. */
  lemma FirstStepShape(rows: seq<Row>, data: seq<Hour>, i: nat, rate: real)
    requires i < |rows| && |rows| == |data|
    ensures var r := FirstStep(rows, data, i, rate);
      && (forall k :: 0 <= k < i ==> r[k] == rows[k])
      && (forall k :: i < k < |rows| ==> r[k] == rows[k].(batteryExpected := r[k].batteryExpected))
      && r[i].time == rows[i].time
      && (rows[i].action == Idle && rows[i].elNetCharge == 0.0 ==> FirstDone(r[i], data[i], rate))
      && r[i].batteryExpected == LevelAt(r, i)
  {
    var s := WithSurplus(rows, data, i);
    var solar := s[i].solarSurplus > 0.0;
    var acted := SetAction(s, i, if solar then Equalize else Idle, rate);
    SetActionShape(s, i, if solar then Equalize else Idle, rate);
    var reasoned := WithReason(acted, i, if solar then EqualizeSolarCharge else IdleDefault);
    var w := WithDelta(reasoned, i, rate);
    var l := WithLevel(w, i);
    var r := WithExport(l, i, rate);
    assert r == FirstStep(rows, data, i, rate);
    assert forall k :: 0 <= k < i ==> r[k] == rows[k];
    if i > 0 {
      assert r[i - 1] == w[i - 1];
    }
  }

  lemma FirstStepAdvances(rows: seq<Row>, data: seq<Hour>, i: nat, rate: real)
    requires FirstPrefix(rows, data, i, rate) && i < |rows|
    ensures FirstPrefix(FirstStep(rows, data, i, rate), data, i + 1, rate)
  {
    FirstStepShape(rows, data, i, rate);
    var r := FirstStep(rows, data, i, rate);
    forall k | 0 <= k < i
      ensures r[k].batteryExpected == LevelAt(r, k)
    {
      assert rows[k].batteryExpected == LevelAt(rows, k);
      if k > 0 {
        assert r[k - 1] == rows[k - 1];
      }
    }
  }

  lemma {:induction false} FirstCalculationFrom(rows: seq<Row>, data: seq<Hour>, i: nat, rate: real)
    requires FirstPrefix(rows, data, i, rate)
    ensures FirstPrefix(FirstCalculation(rows, data, i, rate), data, |rows|, rate)
    decreases |rows| - i
  {
    if i < |rows| {
      FirstStepAdvances(rows, data, i, rate);
      FirstCalculationFrom(FirstStep(rows, data, i, rate), data, i + 1, rate);
    }
  }

  /** _battery_first_calculation over the template yields a consistent table in which every
      hour with a solar surplus stores it (equalize, EQUALIZE_SOLAR_CHARGE) and every other
      hour is idle (IDLE_DEFAULT), with no grid charge anywhere. */
  lemma FirstCalculationMeaning(data: seq<Hour>, rate: real)
    ensures var r := FirstCalculation(Template(data), data, 0, rate);
      && Consistent(r, data, rate)
      && forall k :: 0 <= k < |r| ==> FirstDone(r[k], data[k], rate)
  {
    var t := Template(data);
    assert FirstPrefix(t, data, 0, rate);
    FirstCalculationFrom(t, data, 0, rate);
    var r := FirstCalculation(t, data, 0, rate);
    assert forall k :: 0 <= k < |r| ==> FirstDone(r[k], data[k], rate);
  }

  // ---------------------------------------------------------------------------------------
  // Every later pass keeps the table consistent

  lemma ActionKeepsConsistent(rows: seq<Row>, data: seq<Hour>, i: nat, action: Action,
                              reason: ActionReason, rate: real)
    requires Consistent(rows, data, rate) && i < |rows| && action != Charge
    ensures Consistent(WithReason(SetAction(rows, i, action, rate), i, reason), data, rate)
  {
    SetActionKeepsConsistent(rows, data, i, action, rate);
    ReasonKeepsConsistent(SetAction(rows, i, action, rate), data, i, reason, rate);
  }

  lemma {:induction false} RefillKeepsConsistent(rows: seq<Row>, data: seq<Hour>, needed: real, index: nat, cfg: Config)
    requires Consistent(rows, data, cfg.maxChargeRate)
    ensures Refill(rows, needed, index, cfg).Ok? ==> Consistent(Refill(rows, needed, index, cfg).value, data, cfg.maxChargeRate)
    decreases |rows| - index
  {
    if needed > 0.0 && index < |rows| {
      var row := rows[index];
      var rate := cfg.maxChargeRate;
      var d := LackingDecision(SwingMinimum(row), SwingMaximum(row, rate), cfg.maxCapacity - row.batteryExpected, needed);
      if d.NoCharge? {
        RefillKeepsConsistent(rows, data, needed, index + 1, cfg);
      } else if !d.ChargeMinimum? {
        ChargedKeepsConsistent(rows, data, index, DecisionAmount(d), rate);
        var left := if d.ChargeAll? then 0.0 else needed - DecisionAmount(d);
        RefillKeepsConsistent(Charged(rows, index, DecisionAmount(d), rate), data, left, index + 1, cfg);
      }
    }
  }

  lemma {:induction false} ExcessUseKeepsConsistent(rows: seq<Row>, data: seq<Hour>, cands: seq<nat>, k: nat,
                                                    v: nat, remaining: real, cfg: Config)
    requires Consistent(rows, data, cfg.maxChargeRate)
    requires v < |rows| && forall j :: 0 <= j < |cands| ==> cands[j] <= v
    ensures Consistent(ExcessUse(rows, cands, k, v, remaining, cfg).0, data, cfg.maxChargeRate)
    decreases |cands| - k
  {
    if k < |cands| {
      var p := cands[k];
      if MinimumBetween(rows, p, v) - cfg.minCapacity > Abs(rows[p].solarSurplus) {
        ActionKeepsConsistent(rows, data, p, Equalize, EqualizeUseBattery, cfg.maxChargeRate);
        var next := WithReason(SetAction(rows, p, Equalize, cfg.maxChargeRate), p, EqualizeUseBattery);
        ExcessUseKeepsConsistent(next, data, cands, k + 1, v, remaining - Abs(rows[p].solarSurplus), cfg);
      } else {
        ExcessUseKeepsConsistent(rows, data, cands, k + 1, v, remaining, cfg);
      }
    }
  }

  lemma {:induction false} ExcessSellKeepsConsistent(rows: seq<Row>, data: seq<Hour>, cands: seq<nat>, k: nat,
                                                     v: nat, remaining: real, cfg: Config)
    requires Consistent(rows, data, cfg.maxChargeRate)
    requires v < |rows| && forall j :: 0 <= j < |cands| ==> cands[j] <= v
    ensures Consistent(ExcessSell(rows, cands, k, v, remaining, cfg).0, data, cfg.maxChargeRate)
    decreases |cands| - k
  {
    if k < |cands| {
      var p := cands[k];
      if MinimumBetween(rows, p, v) - cfg.minCapacity > rows[p].solarSurplus {
        ActionKeepsConsistent(rows, data, p, Idle, IdleSolarOverflow, cfg.maxChargeRate);
        var next := WithReason(SetAction(rows, p, Idle, cfg.maxChargeRate), p, IdleSolarOverflow);
        ExcessSellKeepsConsistent(next, data, cands, k + 1, v, remaining - rows[p].solarSurplus, cfg);
      } else {
        ExcessSellKeepsConsistent(rows, data, cands, k + 1, v, remaining, cfg);
      }
    }
  }

  lemma FixExcessKeepsConsistent(rows: seq<Row>, data: seq<Hour>, v: Violation, cfg: Config)
    requires Consistent(rows, data, cfg.maxChargeRate) && v.index < |rows|
    ensures Consistent(FixExcess(rows, data, v, cfg), data, cfg.maxChargeRate)
  {
    var zp := ZeroPoint(rows, v.index, cfg.minCapacity);
    var uses := DeficitCandidates(rows, data, zp, v.index);
    ExcessUseKeepsConsistent(rows, data, uses, 0, v.index, v.amount, cfg);
    var first := ExcessUse(rows, uses, 0, v.index, v.amount, cfg);
    if first.1 > 0.0 {
      var sells := StorageCandidates(first.0, data, zp, v.index);
      ExcessSellKeepsConsistent(first.0, data, sells, 0, v.index, first.1, cfg);
      assert FixExcess(rows, data, v, cfg) == ExcessSell(first.0, sells, 0, v.index, first.1, cfg).0;
    } else {
      assert FixExcess(rows, data, v, cfg) == first.0;
    }
  }

  lemma {:induction false} ExcessLoopKeepsConsistent(rows: seq<Row>, data: seq<Hour>, cfg: Config, fuel: nat)
    requires Consistent(rows, data, cfg.maxChargeRate)
    ensures ExcessLoop(rows, data, cfg, fuel).Ok? ==>
      Consistent(ExcessLoop(rows, data, cfg, fuel).value, data, cfg.maxChargeRate)
    decreases fuel
  {
    match FirstAbove(rows, 0, cfg.maxCapacity)
    case None =>
    case Some(v) =>
      if fuel > 0 {
        var next := FixExcess(rows, data, v, cfg);
        FixExcessKeepsConsistent(rows, data, v, cfg);
        ExcessLoopKeepsConsistent(next, data, cfg, fuel - 1);
      }
  }

  lemma TryToGetChargeKeepsConsistent(rows: seq<Row>, data: seq<Hour>, idx: nat, cfg: Config, fuel: nat)
    requires Consistent(rows, data, cfg.maxChargeRate) && idx < |rows|
    ensures var r := TryToGetCharge(rows, data, idx, cfg, fuel);
      r.Ok? && r.value.Some? ==> Consistent(r.value.value, data, cfg.maxChargeRate)
  {
    ActionKeepsConsistent(rows, data, idx, Equalize, EqualizeUseBattery, cfg.maxChargeRate);
  }

  lemma {:induction false} PeakFromKeepsConsistent(rows: seq<Row>, data: seq<Hour>, order: seq<nat>, k: nat,
                                                   cfg: Config, fuel: nat)
    requires Consistent(rows, data, cfg.maxChargeRate) && IndicesIn(order, |rows|)
    ensures var r := PeakFrom(rows, data, order, k, cfg, fuel);
      r.Ok? ==> Consistent(r.value, data, cfg.maxChargeRate)
    decreases |order| - k
  {
    if k < |order| {
      var x := order[k];
      if rows[x].action == Idle && rows[x].solarSurplus < 0.0 {
        if EqualizePossible(rows, x, cfg.minCapacity) {
          ActionKeepsConsistent(rows, data, x, Equalize, EqualizeUseBattery, cfg.maxChargeRate);
          PeakFromKeepsConsistent(WithReason(SetAction(rows, x, Equalize, cfg.maxChargeRate), x, EqualizeUseBattery),
                                  data, order, k + 1, cfg, fuel);
        } else {
          TryToGetChargeKeepsConsistent(rows, data, x, cfg, fuel);
          match TryToGetCharge(rows, data, x, cfg, fuel)
          case Err(_) =>
          case Ok(None) => PeakFromKeepsConsistent(rows, data, order, k + 1, cfg, fuel);
          case Ok(Some(tried)) => PeakFromKeepsConsistent(tried, data, order, k + 1, cfg, fuel);
        }
      } else {
        PeakFromKeepsConsistent(rows, data, order, k + 1, cfg, fuel);
      }
    }
  }

  lemma {:induction false} TimeframeFromKeepsConsistent(rows: seq<Row>, data: seq<Hour>, order: seq<nat>, k: nat,
                                                        cfg: Config)
    requires Consistent(rows, data, cfg.maxChargeRate) && IndicesIn(order, |rows|)
    ensures Consistent(TimeframeFrom(rows, order, k, cfg), data, cfg.maxChargeRate)
    decreases |order| - k
  {
    if k < |order| {
      var s := order[k];
      if RoomAfter(rows, s, cfg) >= rows[s].batteryDelta && cfg.strategy == SellAll {
        ActionKeepsConsistent(rows, data, s, Idle, IdleSolarOverflow, cfg.maxChargeRate);
      }
      TimeframeFromKeepsConsistent(TimeframeStep(rows, s, cfg), data, order, k + 1, cfg);
    }
  }

  lemma BuyStepKeepsConsistent(dummy: seq<Row>, data: seq<Hour>, s: nat, b: nat, needed: real, cfg: Config)
    requires Consistent(dummy, data, cfg.maxChargeRate) && b <= s < |dummy|
    ensures Consistent(BuyStep(dummy, s, b, needed, cfg).0, data, cfg.maxChargeRate)
  {
    var rate := cfg.maxChargeRate;
    var upper := cfg.maxCapacity - HighestLevel(dummy, b, s);
    var amount := DecideChargeAmount(AvailableMinimum(dummy[b]), AvailableMaximum(dummy[b], rate), upper, needed);
    if amount > 0.0 {
      ChargedKeepsConsistent(dummy, data, b, amount, rate);
    }
  }

  lemma {:induction false} BuyBeforeKeepsConsistent(dummy: seq<Row>, data: seq<Hour>, s: nat, buys: seq<nat>,
                                                    k: nat, needed: real, firstBuy: nat, committed: seq<Row>,
                                                    proceed: bool, cfg: Config)
    requires Consistent(dummy, data, cfg.maxChargeRate) && Consistent(committed, data, cfg.maxChargeRate)
    requires s < |dummy| && forall j :: 0 <= j < |buys| ==> buys[j] < s
    ensures Consistent(BuyBefore(dummy, data, s, buys, k, needed, firstBuy, committed, proceed, cfg).committed,
                       data, cfg.maxChargeRate)
    decreases |buys| - k
  {
    if k < |buys| {
      var b := buys[k];
      if data[s].spotPrice > data[b].price {
        var first := if b < firstBuy then b else firstBuy;
        BuyStepKeepsConsistent(dummy, data, s, b, needed, cfg);
        var (next, left) := BuyStep(dummy, s, b, needed, cfg);
        if left > 0.0 {
          BuyBeforeKeepsConsistent(next, data, s, buys, k + 1, left, first, committed, true, cfg);
        }
      }
    }
  }

  lemma SellAttemptKeepsConsistent(orig: seq<Row>, data: seq<Hour>, committed: seq<Row>, s: nat, cfg: Config)
    requires Consistent(committed, data, cfg.maxChargeRate) && s < |orig| && |orig| == |data|
    ensures var r := SellAttempt(orig, data, committed, s, cfg);
      r.Ok? ==> Consistent(r.value.0, data, cfg.maxChargeRate)
  {
    ActionKeepsConsistent(committed, data, s, Idle, IdleSolarSellHighBuyLow, cfg.maxChargeRate);
    var dummy := WithReason(SetAction(committed, s, Idle, cfg.maxChargeRate), s, IdleSolarSellHighBuyLow);
    var buys := SortBy(Range(0, s), Prices(data), false);
    BuyBeforeKeepsConsistent(dummy, data, s, buys, 0, orig[s].batteryDelta, s, committed, false, cfg);
  }

  lemma {:induction false} SellFromKeepsConsistent(orig: seq<Row>, data: seq<Hour>, sells: seq<nat>, k: nat,
                                                   committed: seq<Row>, cfg: Config)
    requires Consistent(committed, data, cfg.maxChargeRate) && |orig| == |data| && IndicesIn(sells, |orig|)
    ensures var r := SellFrom(orig, data, sells, k, committed, cfg);
      r.Ok? ==> Consistent(r.value, data, cfg.maxChargeRate)
    decreases |sells| - k
  {
    if k < |sells| {
      SellAttemptKeepsConsistent(orig, data, committed, sells[k], cfg);
      match SellAttempt(orig, data, committed, sells[k], cfg)
      case Err(_) =>
      case Ok((next, proceed)) =>
        if proceed {
          SellFromKeepsConsistent(orig, data, sells, k + 1, next, cfg);
        }
    }
  }

  /** The headline property of a planning run: every plan _main produces satisfies the table
      invariant (levels follow the recurrence from the measured level, every delta agrees
      with its hour's action, grid charge is non-negative and only on charge hours). */
  lemma MainIsConsistent(data: seq<Hour>, cfg: Config, fuel: nat)
    ensures Main(data, cfg, fuel).Ok? ==> Consistent(Main(data, cfg, fuel).value, data, cfg.maxChargeRate)
  {
    var rate := cfg.maxChargeRate;
    FirstCalculationMeaning(data, rate);
    var first := FirstCalculation(Template(data), data, 0, rate);
    if |first| > 0 {
      match FirstBelow(first, 0, cfg.minCapacity) {
        case None =>
        case Some(v) => RefillKeepsConsistent(first, data, v.amount, 0, cfg);
      }
      match RefillIfLow(first, cfg)
      case Err(_) =>
      case Ok(refilled) =>
        ExcessLoopKeepsConsistent(refilled, data, cfg, fuel);
        match ExcessLoop(refilled, data, cfg, fuel)
        case Err(_) =>
        case Ok(repaired) =>
          PeakFromKeepsConsistent(repaired, data, SortBy(Range(0, |data|), Prices(data), true), 0, cfg, fuel);
          match Peak(repaired, data, cfg, fuel)
          case Err(_) =>
          case Ok(peaked) =>
            TimeframeFromKeepsConsistent(peaked, data, SellCandidates(peaked, data), 0, cfg);
            var sold := TimeframeSell(peaked, data, cfg);
            SellFromKeepsConsistent(sold, data, SellCandidates(sold, data), 0, sold, cfg);
    }
  }
}
