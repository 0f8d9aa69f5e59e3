/** What the speculative passes of planner.py commit: _try_to_get_charge keeps its attempt
    only when no shortfall is left, _solar_sell_timeframe_surplus only turns solar-storing
    hours into selling ones, and _solar_decide_sell_or_use keeps a simulation only when it
    breaks neither bound from its earliest buy hour on. */
module PlanOutcomes {
  import opened Numeric
  import opened Wrappers
  import opened Sorting
  import opened PlanTypes
  import opened PlanRows
  import opened PlanTable
  import opened PlanRepair

  // ---------------------------------------------------------------------------------------
  // _try_to_get_charge

  /** A successful _try_to_get_charge has hour idx equalizing from the battery and no
      shortfall left from idx on; any other outcome leaves the caller's table as it was. */
  lemma TryToGetChargeOutcome(rows: seq<Row>, data: seq<Hour>, idx: nat, cfg: Config, fuel: nat)
    requires idx < |rows| && |rows| == |data|
    ensures var r := TryToGetCharge(rows, data, idx, cfg, fuel);
      r.Ok? && r.value.Some? ==>
        && FirstBelow(r.value.value, idx, cfg.minCapacity).None?
        && r.value.value[idx].action == Equalize
        && r.value.value[idx].reason == EqualizeUseBattery
  {
    SetActionShape(rows, idx, Equalize, cfg.maxChargeRate);
  }

  // ---------------------------------------------------------------------------------------
  // _solar_sell_timeframe_surplus

  /** after differs from before only in hours that stored a solar surplus and now sell it
      (idle, IDLE_SOLAR_OVERFLOW); every other hour keeps its action and reason. */
  predicate SoldOnly(before: seq<Row>, after: seq<Row>)
  {
    && |after| == |before|
    && forall k :: 0 <= k < |before| ==>
         && after[k].solarSurplus == before[k].solarSurplus
         && (|| (after[k].action == before[k].action && after[k].reason == before[k].reason)
             || (&& before[k].action == Equalize && before[k].solarSurplus > 0.0
                 && after[k].action == Idle && after[k].reason == IdleSolarOverflow))
  }

  /** One iteration sells hour s only under SELL_ALL and only when the room left below the
      later levels covers the hour's delta; it then touches no other hour's plan. */
  lemma TimeframeStepMeaning(rows: seq<Row>, s: nat, cfg: Config)
    requires s < |rows|
    ensures var r := TimeframeStep(rows, s, cfg);
      && (r != rows ==> cfg.strategy == SellAll && RoomAfter(rows, s, cfg) >= rows[s].batteryDelta)
      && (r != rows ==> r[s].action == Idle && r[s].reason == IdleSolarOverflow)
      && (forall k :: 0 <= k < |rows| && k != s ==> SamePlanAt(rows, r, k))
      && (forall k :: 0 <= k < |rows| ==> r[k].solarSurplus == rows[k].solarSurplus)
  {
    SetActionShape(rows, s, Idle, cfg.maxChargeRate);
  }

  lemma {:induction false} TimeframeFromShape(orig: seq<Row>, rows: seq<Row>, order: seq<nat>, k: nat, cfg: Config)
    requires IndicesIn(order, |rows|) && SoldOnly(orig, rows)
    requires forall j :: 0 <= j < |order| ==> orig[order[j]].action == Equalize && orig[order[j]].solarSurplus > 0.0
    ensures SoldOnly(orig, TimeframeFrom(rows, order, k, cfg))
    ensures cfg.strategy == SaveAll ==> TimeframeFrom(rows, order, k, cfg) == rows
    decreases |order| - k
  {
    if k < |order| {
      var s := order[k];
      TimeframeStepMeaning(rows, s, cfg);
      var next := TimeframeStep(rows, s, cfg);
      assert SoldOnly(orig, next) by {
        forall x | 0 <= x < |orig|
          ensures next[x].solarSurplus == orig[x].solarSurplus
          ensures || (next[x].action == orig[x].action && next[x].reason == orig[x].reason)
                  || (&& orig[x].action == Equalize && orig[x].solarSurplus > 0.0
                      && next[x].action == Idle && next[x].reason == IdleSolarOverflow)
        {
          if x != s || next == rows {
            assert SamePlanAt(rows, next, x) || next == rows;
          }
        }
      }
      TimeframeFromShape(orig, next, order, k + 1, cfg);
    }
  }

  /** Under SAVE_ALL _solar_sell_timeframe_surplus changes nothing; under SELL_ALL it only
      turns solar-storing equalize hours into idle hours selling their surplus. */
  lemma TimeframeSellShape(rows: seq<Row>, data: seq<Hour>, cfg: Config)
    requires |rows| == |data|
    ensures SoldOnly(rows, TimeframeSell(rows, data, cfg))
    ensures cfg.strategy == SaveAll ==> TimeframeSell(rows, data, cfg) == rows
  {
    TimeframeFromShape(rows, rows, SellCandidates(rows, data), 0, cfg);
  }

  // ---------------------------------------------------------------------------------------
  // _solar_decide_sell_or_use

  /** c commits the sale at hour s bought back from hour b on: b is an earlier hour whose
      price is below the spot price of s, s sells (idle, IDLE_SOLAR_SELL_HIGH_BUY_LOW), and
      neither bound is broken from b on. */
  predicate CommittedSell(c: seq<Row>, data: seq<Hour>, s: nat, b: nat, cfg: Config)
  {
    && b < s < |c| && s < |data|
    && data[s].spotPrice > data[b].price
    && c[s].action == Idle && c[s].reason == IdleSolarSellHighBuyLow
    && Clean(c, b, cfg)
  }

  /** One buy hour writes only that hour and the levels after it. */
  lemma BuyStepShape(dummy: seq<Row>, s: nat, b: nat, needed: real, cfg: Config)
    requires b < s < |dummy|
    ensures ChangesOnlyAt(dummy, BuyStep(dummy, s, b, needed, cfg).0, b)
  {
    var rate := cfg.maxChargeRate;
    var upper := cfg.maxCapacity - HighestLevel(dummy, b, s);
    var amount := DecideChargeAmount(AvailableMinimum(dummy[b]), AvailableMaximum(dummy[b], rate), upper, needed);
    if amount > 0.0 && ChargeAdmissible(dummy[b], amount, rate) {
      RecalculatedMeaning(dummy[b := ChargedRow(dummy[b], amount)], b, rate);
    }
  }

  /** The buy loop before sell hour s either keeps the committed table or commits its
      simulation, which differs from the committed table in no hour before its earliest buy
      hour firstBuy, and is clean from firstBuy on. */
  lemma {:induction false} BuyBeforeCommitsClean(dummy: seq<Row>, data: seq<Hour>, s: nat, buys: seq<nat>, k: nat,
                                                 needed: real, firstBuy: nat, committed: seq<Row>,
                                                 proceed: bool, cfg: Config)
    requires s < |dummy| && |dummy| == |data| && |committed| == |dummy|
    requires forall j :: 0 <= j < |buys| ==> buys[j] < s
    requires firstBuy == s || (firstBuy < s && data[s].spotPrice > data[firstBuy].price)
    requires dummy[..firstBuy] == committed[..firstBuy]
    requires dummy[s].action == Idle && dummy[s].reason == IdleSolarSellHighBuyLow
    ensures var r := BuyBefore(dummy, data, s, buys, k, needed, firstBuy, committed, proceed, cfg);
      || r.committed == committed
      || (&& r.committed == r.dummy
          && CommittedSell(r.committed, data, s, r.firstBuy, cfg)
          && r.committed[..r.firstBuy] == committed[..r.firstBuy])
    decreases |buys| - k
  {
    if k < |buys| {
      var b := buys[k];
      if data[s].spotPrice > data[b].price {
        var first := if b < firstBuy then b else firstBuy;
        var step := BuyStep(dummy, s, b, needed, cfg);
        BuyStepShape(dummy, s, b, needed, cfg);
        assert step.0[..first] == committed[..first] by {
          forall x | 0 <= x < first
            ensures step.0[x] == committed[x]
          {
            assert step.0[x] == dummy[x] && dummy[..firstBuy][x] == committed[..firstBuy][x];
          }
        }
        assert step.0[s].action == Idle && step.0[s].reason == IdleSolarSellHighBuyLow;
        if step.1 > 0.0 {
          BuyBeforeCommitsClean(step.0, data, s, buys, k + 1, step.1, first, committed, true, cfg);
        }
      }
    }
  }

  /** One sell hour s either keeps the committed table or commits a sale of s bought back
      from an earlier hour b, leaving every hour before b as it was. */
  lemma SellAttemptCommits(orig: seq<Row>, data: seq<Hour>, committed: seq<Row>, s: nat, cfg: Config)
    requires s < |orig| && |orig| == |data| && |committed| == |orig|
    ensures var r := SellAttempt(orig, data, committed, s, cfg);
      r.Ok? ==>
        || r.value.0 == committed
        || exists b: nat :: b < s && r.value.0[..b] == committed[..b] && CommittedSell(r.value.0, data, s, b, cfg)
  {
    var rate := cfg.maxChargeRate;
    var acted := SetAction(committed, s, Idle, rate);
    SetActionShape(committed, s, Idle, rate);
    var dummy := WithReason(acted, s, IdleSolarSellHighBuyLow);
    assert dummy[..s] == committed[..s] by {
      forall x | 0 <= x < s
        ensures dummy[x] == committed[x]
      {
        assert dummy[x] == acted[x];
      }
    }
    var buys := SortBy(Range(0, s), Prices(data), false);
    BuyBeforeCommitsClean(dummy, data, s, buys, 0, orig[s].batteryDelta, s, committed, false, cfg);
    var st := BuyBefore(dummy, data, s, buys, 0, orig[s].batteryDelta, s, committed, false, cfg);
    if st.committed != committed {
      assert st.firstBuy < s && st.committed[..st.firstBuy] == committed[..st.firstBuy]
          && CommittedSell(st.committed, data, s, st.firstBuy, cfg);
    }
  }

  /** Whether SellAttempt committed a sale, and the earliest buy hour of that sale. */
  lemma SellAttemptWitness(orig: seq<Row>, data: seq<Hour>, committed: seq<Row>, s: nat, cfg: Config)
    returns (sold: bool, b: nat)
    requires s < |orig| && |orig| == |data| && |committed| == |orig|
    ensures var r := SellAttempt(orig, data, committed, s, cfg);
      r.Ok? ==> (if sold then CommittedSell(r.value.0, data, s, b, cfg) else r.value.0 == committed)
  {
    b := 0;
    SellAttemptCommits(orig, data, committed, s, cfg);
    var r := SellAttempt(orig, data, committed, s, cfg);
    sold := r.Ok? && r.value.0 != committed;
    if sold {
      b :| b < s && r.value.0[..b] == committed[..b] && CommittedSell(r.value.0, data, s, b, cfg);
    }
  }

  /** The loop over sell hours from position k returns the committed table it was given or
      the table committed by a sale of some sell hour sells[j] made on a table prev. */
  lemma {:induction false} SellFromLastSale(orig: seq<Row>, data: seq<Hour>, sells: seq<nat>, k: nat,
                                            committed: seq<Row>, cfg: Config)
    returns (sold: bool, j: nat, prev: seq<Row>)
    requires |orig| == |data| && |committed| == |orig| && IndicesIn(sells, |orig|) && k <= |sells|
    ensures var r := SellFrom(orig, data, sells, k, committed, cfg);
      r.Ok? ==> if sold then j < |sells| && |prev| == |orig| && SellAttempt(orig, data, prev, sells[j], cfg).Ok?
                             && r.value == SellAttempt(orig, data, prev, sells[j], cfg).value.0
                             && r.value != prev
                else r.value == committed
    decreases |sells| - k
  {
    sold, j, prev := false, 0, committed;
    if k < |sells| {
      match SellAttempt(orig, data, committed, sells[k], cfg)
      case Err(_) =>
      case Ok((next, proceed)) =>
        var s2, j2, p2 := false, 0, committed;
        if proceed {
          s2, j2, p2 := SellFromLastSale(orig, data, sells, k + 1, next, cfg);
        }
        if s2 {
          sold, j, prev := s2, j2, p2;
        } else if next != committed {
          sold, j, prev := true, k, committed;
        }
    }
  }

  /** Every table the loop over sell hours returns is its input or a committed sale of one of
      the sell hours, clean from that sale's earliest buy hour on. */
  lemma SellFromCommitsClean(orig: seq<Row>, data: seq<Hour>, sells: seq<nat>, k: nat,
                             committed: seq<Row>, cfg: Config)
    requires |orig| == |data| && |committed| == |orig| && IndicesIn(sells, |orig|) && k <= |sells|
    requires committed == orig || exists j: nat, b: nat :: j < k && CommittedSell(committed, data, sells[j], b, cfg)
    ensures var r := SellFrom(orig, data, sells, k, committed, cfg);
      r.Ok? ==> r.value == orig || exists j: nat, b: nat :: j < |sells| && CommittedSell(r.value, data, sells[j], b, cfg)
  {
    var sold, j, prev := SellFromLastSale(orig, data, sells, k, committed, cfg);
    var r := SellFrom(orig, data, sells, k, committed, cfg);
    if r.Ok? && sold {
      var now, b := SellAttemptWitness(orig, data, prev, sells[j], cfg);
      assert CommittedSell(r.value, data, sells[j], b, cfg);
    }
  }

  /** _solar_decide_sell_or_use returns its input, or the sale of one of its candidate hours s
      (an equalize hour storing solar power) committed together with purchases from an
      earlier, cheaper hour b on, breaking neither bound from b on. */
  lemma SellOrUseCommitsClean(rows: seq<Row>, data: seq<Hour>, cfg: Config)
    requires |rows| == |data|
    ensures var r := SellOrUse(rows, data, cfg);
      var sells := SellCandidates(rows, data);
      r.Ok? ==>
        || r.value == rows
        || exists j: nat, b: nat :: j < |sells| && CommittedSell(r.value, data, sells[j], b, cfg)
  {
    SellFromCommitsClean(rows, data, SellCandidates(rows, data), 0, rows, cfg);
  }
}
