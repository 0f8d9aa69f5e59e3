/** The plan table as a value: the per-hour writes of planner.py, the forward recurrence of
    the expected battery level, and the read-only scans and range queries. */
module PlanTable {
  import opened Numeric
  import opened Wrappers
  import opened Sorting
  import opened PlanTypes
  import opened PlanRows

  /** _battery_calculate_expected_level: hour 0 takes the measured level, every later hour
      the level and delta of the hour before, rounded. */
  function LevelAt(rows: seq<Row>, i: nat): real
    requires i < |rows|
  {
    if i == 0 then CurrentChargeLevel()
    else Round4(rows[i - 1].batteryExpected + rows[i - 1].batteryDelta)
  }

  /** Every BatteryExpected follows the recurrence. */
  predicate LevelsFollow(rows: seq<Row>)
  {
    forall k {:trigger LevelAt(rows, k)} :: 0 <= k < |rows| ==> rows[k].batteryExpected == LevelAt(rows, k)
  }

  /** The columns of one plan row that its input row and its own action determine: the
      copied Time, the computed SolarSurplus, a BatteryDelta that agrees with the action, and
      grid charge that is never negative and only on a charge hour. */
  predicate RowOk(r: Row, h: Hour, rate: real)
  {
    && r.time == h.time
    && r.solarSurplus == SurplusOf(h)
    && r.batteryDelta == RowDelta(r, rate)
    && r.elNetCharge >= 0.0
    && (r.elNetCharge != 0.0 ==> r.action == Charge)
  }

  /** The table invariant of a committed plan: every row is RowOk and the levels follow the
      recurrence. */
  predicate Consistent(rows: seq<Row>, data: seq<Hour>, rate: real)
  {
    && |rows| == |data|
    && (forall k :: 0 <= k < |rows| ==> RowOk(rows[k], data[k], rate))
    && LevelsFollow(rows)
  }

  /** after differs from before at most in hour i and in the levels after hour i. */
  predicate ChangesOnlyAt(before: seq<Row>, after: seq<Row>, i: nat)
  {
    && |after| == |before|
    && (forall k :: 0 <= k < |before| && k != i ==>
          after[k] == before[k].(batteryExpected := after[k].batteryExpected))
    && (forall k :: 0 <= k <= i && k < |before| ==> after[k].batteryExpected == before[k].batteryExpected)
  }

  /** Columns of the input table, indexed by hour. */
  function Prices(data: seq<Hour>): (p: seq<real>)
    ensures |p| == |data| && forall k :: 0 <= k < |data| ==> p[k] == data[k].price
  {
    seq(|data|, k requires 0 <= k < |data| => data[k].price)
  }

  function SpotPrices(data: seq<Hour>): (p: seq<real>)
    ensures |p| == |data| && forall k :: 0 <= k < |data| ==> p[k] == data[k].spotPrice
  {
    seq(|data|, k requires 0 <= k < |data| => data[k].spotPrice)
  }

  // ---------------------------------------------------------------------------------------
  // Writes to one hour

  function WithSurplus(rows: seq<Row>, data: seq<Hour>, i: nat): seq<Row>
    requires i < |rows| && i < |data|
  {
    rows[i := rows[i].(solarSurplus := SurplusOf(data[i]))]
  }

  function WithDelta(rows: seq<Row>, i: nat, rate: real): seq<Row>
    requires i < |rows|
  {
    rows[i := rows[i].(batteryDelta := RowDelta(rows[i], rate))]
  }

  function WithLevel(rows: seq<Row>, i: nat): seq<Row>
    requires i < |rows|
  {
    rows[i := rows[i].(batteryExpected := LevelAt(rows, i))]
  }

  function WithExport(rows: seq<Row>, i: nat, rate: real): seq<Row>
    requires i < |rows|
  {
    rows[i := rows[i].(solarExport := ExportFor(rows[i].action, rows[i].solarSurplus, rate))]
  }

  /** _set_action_reason */
  function WithReason(rows: seq<Row>, i: nat, reason: ActionReason): seq<Row>
    requires i < |rows|
  {
    rows[i := rows[i].(reason := reason)]
  }

  /** The loop of _recalculate_delta_and_battery_level: levels of hours from, from + 1, ...
      recomputed in ascending order. */
  function Propagate(rows: seq<Row>, from: nat): (r: seq<Row>)
    ensures |r| == |rows|
    decreases |rows| - from
  {
    if from >= |rows| then rows else Propagate(WithLevel(rows, from), from + 1)
  }

  /** _recalculate_delta_and_battery_level */
  function Recalculated(rows: seq<Row>, i: nat, rate: real): seq<Row>
    requires i < |rows|
  {
    Propagate(WithDelta(rows, i, rate), i + 1)
  }

  /** _set_loadplan_action for an action other than charge. */
  function SetAction(rows: seq<Row>, i: nat, action: Action, rate: real): (r: seq<Row>)
    requires i < |rows| && action != Charge
    ensures |r| == |rows|
  {
    var cleared := if rows[i].action == Charge then rows[i := rows[i].(elNetCharge := 0.0)] else rows;
    var acted := cleared[i := cleared[i].(action := action)];
    WithExport(Recalculated(acted, i, rate), i, rate)
  }

  /** _set_charge_at_index: whether the charge was admitted, and the table after it. The
      hour's SolarExport is not recomputed. */
  function ChargeAt(rows: seq<Row>, i: nat, amount: real, rate: real): (r: (bool, seq<Row>))
    requires i < |rows|
    ensures |r.1| == |rows|
  {
    if !ChargeAdmissible(rows[i], amount, rate) then (false, rows)
    else (true, Recalculated(rows[i := ChargedRow(rows[i], amount)], i, rate))
  }

  /** _set_loadplan_action: a charge goes through the charge setter (the rate when no amount
      is given) and its outcome is dropped. */
  function SetLoadplanAction(rows: seq<Row>, i: nat, action: Action, amount: Option<real>,
                             rate: real): (r: seq<Row>)
    requires i < |rows|
    ensures |r| == |rows|
  {
    if action == Charge then ChargeAt(rows, i, if amount.Some? then amount.value else rate, rate).1
    else SetAction(rows, i, action, rate)
  }

  // ---------------------------------------------------------------------------------------
  // Read-only scans

  /** _battery_check_if_above_maximum_charge */
  function FirstAbove(rows: seq<Row>, begin: nat, maxCapacity: real): (v: Option<Violation>)
    ensures v.Some? ==> v.value.index < |rows|
    decreases |rows| - begin
  {
    if begin >= |rows| then None
    else if rows[begin].batteryExpected > maxCapacity then
      Some(Violation(begin, rows[begin].batteryExpected - maxCapacity))
    else FirstAbove(rows, begin + 1, maxCapacity)
  }

  /** The per-hour test of _battery_check_if_below_minimum_charge, with its 0.001 tolerance. */
  predicate BelowMinimum(r: Row, minCapacity: real)
  {
    r.batteryExpected < minCapacity && Abs(r.batteryExpected - minCapacity) > 0.001
  }

  function FirstBelowFrom(rows: seq<Row>, begin: nat, minCapacity: real): (v: Option<Violation>)
    ensures v.Some? ==> v.value.index < |rows|
    decreases |rows| - begin
  {
    if begin >= |rows| then None
    else if BelowMinimum(rows[begin], minCapacity) then
      Some(Violation(begin, Abs(rows[begin].batteryExpected - minCapacity)))
    else FirstBelowFrom(rows, begin + 1, minCapacity)
  }

  /** The last-hour rule: a discharging equalize hour at the end of the table that would take
      the battery below the minimum after the horizon. */
  function TerminalShortfall(rows: seq<Row>, minCapacity: real): real
    requires |rows| > 0
  {
    var last := rows[|rows| - 1];
    Abs(last.solarSurplus) - (last.batteryExpected - minCapacity)
  }

  predicate TerminalViolation(rows: seq<Row>, minCapacity: real)
    requires |rows| > 0
  {
    var last := rows[|rows| - 1];
    last.action == Equalize && last.solarSurplus < 0.0 && TerminalShortfall(rows, minCapacity) > 0.0
  }

  /** _battery_check_if_below_minimum_charge (the table must have a last row). */
  function FirstBelow(rows: seq<Row>, begin: nat, minCapacity: real): (v: Option<Violation>)
    requires |rows| > 0
    ensures v.Some? ==> v.value.index < |rows|
  {
    match FirstBelowFrom(rows, begin, minCapacity)
    case Some(w) => Some(w)
    case None =>
      if TerminalViolation(rows, minCapacity) then
        Some(Violation(|rows| - 1, TerminalShortfall(rows, minCapacity)))
      else None
  }

  /** min() over BatteryExpected of hours b..e. */
  function LowestLevel(rows: seq<Row>, b: nat, e: nat): real
    requires b <= e < |rows|
    decreases e - b
  {
    if b == e then rows[e].batteryExpected
    else
      var rest := LowestLevel(rows, b + 1, e);
      if rows[b].batteryExpected < rest then rows[b].batteryExpected else rest
  }

  /** max() over BatteryExpected of hours b..e. */
  function HighestLevel(rows: seq<Row>, b: nat, e: nat): real
    requires b <= e < |rows|
    decreases e - b
  {
    if b == e then rows[e].batteryExpected
    else
      var rest := HighestLevel(rows, b + 1, e);
      if rows[b].batteryExpected > rest then rows[b].batteryExpected else rest
  }

  /** _get_battery_minimum_between_indices: the lowest level of hours b..e, also counting the
      level after the last hour when e is the last hour and it discharges by equalizing. */
  function MinimumBetween(rows: seq<Row>, b: nat, e: nat): real
    requires b <= e < |rows|
  {
    var m := LowestLevel(rows, b, e);
    if e == |rows| - 1 && rows[e].action == Equalize && rows[e].batteryDelta < 0.0
       && rows[e].batteryExpected + rows[e].batteryDelta < m
    then rows[e].batteryExpected + rows[e].batteryDelta
    else m
  }

  /** _battery_check_equalize_possible */
  predicate EqualizePossible(rows: seq<Row>, i: nat, minCapacity: real)
    requires i < |rows|
  {
    MinimumBetween(rows, i, |rows| - 1) - minCapacity >= Abs(rows[i].solarSurplus)
  }

  /** The backward scan over x = from, from - 1, ..., 1 for a level at or below the minimum
      (index 0 is never inspected); 0 when none is found. */
  function ScanDownLow(rows: seq<Row>, from: nat, minCapacity: real): nat
    requires from < |rows|
    decreases from
  {
    if from == 0 then 0
    else if rows[from].batteryExpected <= minCapacity then from
    else ScanDownLow(rows, from - 1, minCapacity)
  }

  function ScanDownHigh(rows: seq<Row>, from: nat, maxCapacity: real): nat
    requires from < |rows|
    decreases from
  {
    if from == 0 then 0
    else if rows[from].batteryExpected >= maxCapacity then from
    else ScanDownHigh(rows, from - 1, maxCapacity)
  }

  /** zero_point of _battery_fix_excess for a violation at v. */
  function ZeroPoint(rows: seq<Row>, v: nat, minCapacity: real): nat
    requires v < |rows|
  {
    if v == 0 then 0 else ScanDownLow(rows, v - 1, minCapacity)
  }

  /** max_point of _battery_fix_lacking for a violation at v. */
  function MaxPoint(rows: seq<Row>, v: nat, maxCapacity: real): nat
    requires v < |rows|
  {
    if v == 0 then 0 else ScanDownHigh(rows, v - 1, maxCapacity)
  }

  lemma {:induction false} ScanDownLowMeaning(rows: seq<Row>, from: nat, minCapacity: real)
    requires from < |rows|
    ensures ScanDownLow(rows, from, minCapacity) <= from
    ensures ScanDownLow(rows, from, minCapacity) == 0 ||
            rows[ScanDownLow(rows, from, minCapacity)].batteryExpected <= minCapacity
    ensures forall k :: ScanDownLow(rows, from, minCapacity) < k <= from ==>
              rows[k].batteryExpected > minCapacity
    decreases from
  {
    if from > 0 && rows[from].batteryExpected > minCapacity {
      ScanDownLowMeaning(rows, from - 1, minCapacity);
    }
  }

  lemma {:induction false} ScanDownHighMeaning(rows: seq<Row>, from: nat, maxCapacity: real)
    requires from < |rows|
    ensures ScanDownHigh(rows, from, maxCapacity) <= from
    ensures ScanDownHigh(rows, from, maxCapacity) == 0 ||
            rows[ScanDownHigh(rows, from, maxCapacity)].batteryExpected >= maxCapacity
    ensures forall k :: ScanDownHigh(rows, from, maxCapacity) < k <= from ==>
              rows[k].batteryExpected < maxCapacity
    decreases from
  {
    if from > 0 && rows[from].batteryExpected < maxCapacity {
      ScanDownHighMeaning(rows, from - 1, maxCapacity);
    }
  }

  // ---------------------------------------------------------------------------------------
  // Row filters over an index range lo..hi-1, in index order

  /** Idle hours with a consumption deficit (the first filter of _battery_fix_excess). */
  function IdleDeficitHours(rows: seq<Row>, lo: nat, hi: nat): (s: seq<nat>)
    requires hi <= |rows|
    ensures forall j :: 0 <= j < |s| ==> lo <= s[j] < hi
    decreases hi - lo
  {
    if lo >= hi then []
    else
      var rest := IdleDeficitHours(rows, lo + 1, hi);
      if rows[lo].action == Idle && rows[lo].solarSurplus < 0.0 then [lo] + rest else rest
  }

  /** Equalize hours storing a solar surplus. */
  function SolarChargingHours(rows: seq<Row>, lo: nat, hi: nat): (s: seq<nat>)
    requires hi <= |rows|
    ensures forall j :: 0 <= j < |s| ==> lo <= s[j] < hi
    decreases hi - lo
  {
    if lo >= hi then []
    else
      var rest := SolarChargingHours(rows, lo + 1, hi);
      if rows[lo].action == Equalize && rows[lo].solarSurplus > 0.0 then [lo] + rest else rest
  }

  /** Hours lo..hi-1 except x (the candidate hours of _battery_fix_lacking). */
  function HoursExcept(lo: nat, hi: nat, x: nat): (s: seq<nat>)
    ensures forall j :: 0 <= j < |s| ==> lo <= s[j] < hi
    decreases hi - lo
  {
    if lo >= hi then []
    else
      var rest := HoursExcept(lo + 1, hi, x);
      if lo == x then rest else [lo] + rest
  }

  // ---------------------------------------------------------------------------------------
  // What the scans and queries find

  /** _battery_check_if_above_maximum_charge reports the first hour from begin whose level
      exceeds the capacity, with the excess, and nothing when there is none. */
  lemma {:induction false} FirstAboveMeaning(rows: seq<Row>, begin: nat, maxCapacity: real)
    ensures var v := FirstAbove(rows, begin, maxCapacity);
      && (v.None? <==> forall k :: begin <= k < |rows| ==> rows[k].batteryExpected <= maxCapacity)
      && (v.Some? ==>
            && begin <= v.value.index
            && rows[v.value.index].batteryExpected > maxCapacity
            && v.value.amount == rows[v.value.index].batteryExpected - maxCapacity
            && forall k :: begin <= k < v.value.index ==> rows[k].batteryExpected <= maxCapacity)
    decreases |rows| - begin
  {
    if begin < |rows| && rows[begin].batteryExpected <= maxCapacity {
      FirstAboveMeaning(rows, begin + 1, maxCapacity);
    }
  }

  lemma {:induction false} FirstBelowFromMeaning(rows: seq<Row>, begin: nat, minCapacity: real)
    ensures var v := FirstBelowFrom(rows, begin, minCapacity);
      && (v.None? <==> forall k :: begin <= k < |rows| ==> !BelowMinimum(rows[k], minCapacity))
      && (v.Some? ==>
            && begin <= v.value.index
            && BelowMinimum(rows[v.value.index], minCapacity)
            && v.value.amount == minCapacity - rows[v.value.index].batteryExpected
            && forall k :: begin <= k < v.value.index ==> !BelowMinimum(rows[k], minCapacity))
    decreases |rows| - begin
  {
    if begin < |rows| && !BelowMinimum(rows[begin], minCapacity) {
      FirstBelowFromMeaning(rows, begin + 1, minCapacity);
    }
  }

  /** _battery_check_if_below_minimum_charge reports the first hour from begin that is under
      the minimum by more than 0.001, with the positive amount lacking; only when there is
      none does the last-hour rule apply: a final equalize hour with a deficit larger than
      the level it has above the minimum. */
  lemma FirstBelowMeaning(rows: seq<Row>, begin: nat, minCapacity: real)
    requires |rows| > 0
    ensures var v := FirstBelow(rows, begin, minCapacity);
      && (v.Some? ==> v.value.amount > 0.0)
      && (v.Some? && begin < |rows| ==> begin <= v.value.index)
      && ((exists k :: begin <= k < |rows| && BelowMinimum(rows[k], minCapacity)) ==>
            && v.Some?
            && BelowMinimum(rows[v.value.index], minCapacity)
            && v.value.amount == minCapacity - rows[v.value.index].batteryExpected
            && v.value.amount > 0.001
            && forall k :: begin <= k < v.value.index ==> !BelowMinimum(rows[k], minCapacity))
      && ((forall k :: begin <= k < |rows| ==> !BelowMinimum(rows[k], minCapacity)) ==>
            && (v.Some? <==> TerminalViolation(rows, minCapacity))
            && (v.Some? ==> v.value.index == |rows| - 1
                            && v.value.amount == TerminalShortfall(rows, minCapacity)))
  {
    FirstBelowFromMeaning(rows, begin, minCapacity);
  }

  /** The lowest and highest levels of hours b..e are levels of that range and bound all of
      them. */
  lemma {:induction false} LevelRangeMeaning(rows: seq<Row>, b: nat, e: nat)
    requires b <= e < |rows|
    ensures forall k :: b <= k <= e ==> LowestLevel(rows, b, e) <= rows[k].batteryExpected
    ensures exists k :: b <= k <= e && LowestLevel(rows, b, e) == rows[k].batteryExpected
    ensures forall k :: b <= k <= e ==> rows[k].batteryExpected <= HighestLevel(rows, b, e)
    ensures exists k :: b <= k <= e && HighestLevel(rows, b, e) == rows[k].batteryExpected
    decreases e - b
  {
    if b < e {
      LevelRangeMeaning(rows, b + 1, e);
      var lo :| b + 1 <= lo <= e && LowestLevel(rows, b + 1, e) == rows[lo].batteryExpected;
      var hi :| b + 1 <= hi <= e && HighestLevel(rows, b + 1, e) == rows[hi].batteryExpected;
      if rows[b].batteryExpected >= LowestLevel(rows, b + 1, e) {
        assert LowestLevel(rows, b, e) == rows[lo].batteryExpected;
      }
      if rows[b].batteryExpected <= HighestLevel(rows, b + 1, e) {
        assert HighestLevel(rows, b, e) == rows[hi].batteryExpected;
      }
    }
  }

  /** zero_point of _battery_fix_excess: 0, or an earlier hour at or below the minimum with
      every hour strictly between it and the violation above the minimum. */
  lemma ZeroPointMeaning(rows: seq<Row>, v: nat, minCapacity: real)
    requires v < |rows|
    ensures var z := ZeroPoint(rows, v, minCapacity);
      && (z == 0 || (z < v && rows[z].batteryExpected <= minCapacity))
      && forall k :: z < k < v ==> rows[k].batteryExpected > minCapacity
  {
    if v > 0 {
      ScanDownLowMeaning(rows, v - 1, minCapacity);
    }
  }

  /** max_point of _battery_fix_lacking: 0, or an earlier hour at or above the capacity with
      every hour strictly between it and the violation below the capacity. */
  lemma MaxPointMeaning(rows: seq<Row>, v: nat, maxCapacity: real)
    requires v < |rows|
    ensures var z := MaxPoint(rows, v, maxCapacity);
      && (z == 0 || (z < v && rows[z].batteryExpected >= maxCapacity))
      && forall k :: z < k < v ==> rows[k].batteryExpected < maxCapacity
  {
    if v > 0 {
      ScanDownHighMeaning(rows, v - 1, maxCapacity);
    }
  }

  /** The filters keep exactly the hours of the range that satisfy their test. */
  lemma {:induction false} FiltersMeaning(rows: seq<Row>, lo: nat, hi: nat, x: nat)
    requires hi <= |rows|
    ensures forall k :: k in IdleDeficitHours(rows, lo, hi) <==>
      lo <= k < hi && rows[k].action == Idle && rows[k].solarSurplus < 0.0
    ensures forall k :: k in SolarChargingHours(rows, lo, hi) <==>
      lo <= k < hi && rows[k].action == Equalize && rows[k].solarSurplus > 0.0
    ensures forall k :: k in HoursExcept(lo, hi, x) <==> lo <= k < hi && k != x
    decreases hi - lo
  {
    if lo < hi {
      FiltersMeaning(rows, lo + 1, hi, x);
    }
  }

  /** The levels written by Propagate: every other column kept, hours before from kept,
      and every hour from from on following the recurrence. */
  lemma {:induction false} PropagateMeaning(rows: seq<Row>, from: nat)
    ensures var r := Propagate(rows, from);
      && (forall k :: 0 <= k < |rows| ==> r[k] == rows[k].(batteryExpected := r[k].batteryExpected))
      && (forall k :: 0 <= k < from && k < |rows| ==> r[k].batteryExpected == rows[k].batteryExpected)
      && (forall k {:trigger LevelAt(r, k)} :: from <= k < |rows| ==> r[k].batteryExpected == LevelAt(r, k))
    decreases |rows| - from
  {
    if from < |rows| {
      var next := WithLevel(rows, from);
      PropagateMeaning(next, from + 1);
      var r := Propagate(next, from + 1);
      assert r == Propagate(rows, from);
      if from > 0 {
        assert r[from - 1] == next[from - 1];
      }
      assert r[from].batteryExpected == LevelAt(r, from);
    }
  }

  // ---------------------------------------------------------------------------------------
  // What the writes preserve

  /** Propagating from hour from repairs every later level, given the levels before it. */
  lemma {:induction false} PropagateFollows(rows: seq<Row>, from: nat)
    requires forall k {:trigger LevelAt(rows, k)} :: 0 <= k < from && k < |rows| ==>
      rows[k].batteryExpected == LevelAt(rows, k)
    ensures LevelsFollow(Propagate(rows, from))
  {
    PropagateMeaning(rows, from);
    var r := Propagate(rows, from);
    forall k | 0 <= k < |r|
      ensures r[k].batteryExpected == LevelAt(r, k)
    {
      if k < from {
        assert rows[k].batteryExpected == LevelAt(rows, k);
        if k > 0 {
          assert r[k - 1] == rows[k - 1];
        }
      } else {
        assert r[k].batteryExpected == LevelAt(r, k);
      }
    }
  }

  /** _recalculate_delta_and_battery_level(i): hour i gets the delta of its action, every
      other column and every hour up to i keep their values, and each later hour's level
      follows from the hour before it. */
  lemma RecalculatedMeaning(rows: seq<Row>, i: nat, rate: real)
    requires i < |rows|
    ensures var r := Recalculated(rows, i, rate);
      && ChangesOnlyAt(rows, r, i)
      && r[i] == rows[i].(batteryDelta := RowDelta(rows[i], rate))
      && (forall k :: i < k < |rows| ==>
            r[k].batteryExpected == Round4(r[k - 1].batteryExpected + r[k - 1].batteryDelta))
  {
    var w := WithDelta(rows, i, rate);
    PropagateMeaning(w, i + 1);
    var r := Propagate(w, i + 1);
    assert r == Recalculated(rows, i, rate);
    forall k | 0 <= k < |rows| && k != i
      ensures r[k] == rows[k].(batteryExpected := r[k].batteryExpected)
    {
      assert w[k] == rows[k];
    }
    assert r[i] == w[i];
    forall k | i < k < |rows|
      ensures r[k].batteryExpected == Round4(r[k - 1].batteryExpected + r[k - 1].batteryDelta)
    {
      assert r[k].batteryExpected == LevelAt(r, k);
    }
  }

  /** Two rows that agree on every column the table invariant reads. */
  predicate SameCore(a: Row, b: Row)
  {
    && a.time == b.time && a.action == b.action && a.solarSurplus == b.solarSurplus
    && a.elNetCharge == b.elNetCharge && a.batteryDelta == b.batteryDelta
    && a.batteryExpected == b.batteryExpected
  }

  /** Writing only SolarExport or ActionReason cannot break the table invariant. */
  lemma SameCoreKeepsConsistent(rows: seq<Row>, q: seq<Row>, data: seq<Hour>, rate: real)
    requires Consistent(rows, data, rate) && |q| == |rows|
    requires forall k :: 0 <= k < |q| ==> SameCore(q[k], rows[k])
    ensures Consistent(q, data, rate)
  {
    forall k | 0 <= k < |q|
      ensures q[k].batteryExpected == LevelAt(q, k)
    {
      assert rows[k].batteryExpected == LevelAt(rows, k);
      if k > 0 {
        assert SameCore(q[k - 1], rows[k - 1]);
      }
    }
  }

  lemma ReasonKeepsConsistent(rows: seq<Row>, data: seq<Hour>, i: nat, reason: ActionReason, rate: real)
    requires Consistent(rows, data, rate) && i < |rows|
    ensures Consistent(WithReason(rows, i, reason), data, rate)
  {
    var q := WithReason(rows, i, reason);
    assert forall k :: 0 <= k < |q| ==> SameCore(q[k], rows[k]);
    SameCoreKeepsConsistent(rows, q, data, rate);
  }

  lemma ExportKeepsConsistent(rows: seq<Row>, data: seq<Hour>, i: nat, rate: real)
    requires Consistent(rows, data, rate) && i < |rows|
    ensures Consistent(WithExport(rows, i, rate), data, rate)
  {
    var q := WithExport(rows, i, rate);
    assert forall k :: 0 <= k < |q| ==> SameCore(q[k], rows[k]);
    SameCoreKeepsConsistent(rows, q, data, rate);
  }

  /** Levels up to hour i still follow the recurrence when only hour i's action, grid
      charge or delta changed. */
  lemma PrefixLevels(rows: seq<Row>, w: seq<Row>, i: nat)
    requires LevelsFollow(rows) && i < |rows| && |w| == |rows|
    requires forall k :: 0 <= k < i ==> w[k] == rows[k]
    requires w[i].batteryExpected == rows[i].batteryExpected
    ensures forall k {:trigger LevelAt(w, k)} :: 0 <= k <= i ==> w[k].batteryExpected == LevelAt(w, k)
  {
    forall k | 0 <= k <= i
      ensures w[k].batteryExpected == LevelAt(w, k)
    {
      assert rows[k].batteryExpected == LevelAt(rows, k);
      if k > 0 {
        assert w[k - 1] == rows[k - 1];
      }
    }
  }

  /** A table that differs from a consistent one only in hour i, whose delta agrees with its
      new action and grid charge, is consistent again once the levels after i are
      recomputed. */
  lemma {:induction false} PropagateRestores(rows: seq<Row>, w: seq<Row>, data: seq<Hour>, i: nat, rate: real)
    requires Consistent(rows, data, rate) && i < |rows| && |w| == |rows|
    requires forall k :: 0 <= k < |w| && k != i ==> w[k] == rows[k]
    requires w[i].time == rows[i].time && w[i].solarSurplus == rows[i].solarSurplus
    requires w[i].batteryExpected == rows[i].batteryExpected
    requires w[i].batteryDelta == RowDelta(w[i], rate)
    requires w[i].elNetCharge >= 0.0 && (w[i].elNetCharge != 0.0 ==> w[i].action == Charge)
    ensures Consistent(Propagate(w, i + 1), data, rate)
  {
    PrefixLevels(rows, w, i);
    PropagateFollows(w, i + 1);
    PropagateMeaning(w, i + 1);
    var r := Propagate(w, i + 1);
    forall k | 0 <= k < |r|
      ensures r[k].time == data[k].time && r[k].solarSurplus == SurplusOf(data[k])
      ensures r[k].batteryDelta == RowDelta(r[k], rate)
      ensures r[k].elNetCharge >= 0.0 && (r[k].elNetCharge != 0.0 ==> r[k].action == Charge)
    {
      assert r[k] == w[k].(batteryExpected := r[k].batteryExpected);
      if k != i {
        assert w[k] == rows[k];
      }
    }
  }

  /** What _set_loadplan_action writes for a non-charge action: hour i's action, its grid
      charge cleared if it was a charge hour, its delta and export recomputed, and the later
      levels; nothing else. */
  lemma SetActionShape(rows: seq<Row>, i: nat, action: Action, rate: real)
    requires i < |rows| && action != Charge
    ensures var r := SetAction(rows, i, action, rate);
      var grid := if rows[i].action == Charge then 0.0 else rows[i].elNetCharge;
      && ChangesOnlyAt(rows, r, i)
      && r[i] == rows[i].(action := action, elNetCharge := grid,
                          batteryDelta := DeltaFor(action, rows[i].solarSurplus, grid, rate),
                          solarExport := ExportFor(action, rows[i].solarSurplus, rate))
  {
    var cleared := if rows[i].action == Charge then rows[i := rows[i].(elNetCharge := 0.0)] else rows;
    var acted := cleared[i := cleared[i].(action := action)];
    RecalculatedMeaning(acted, i, rate);
  }

  /** Setting a non-charge action keeps the table consistent, clears the hour's grid charge
      and recomputes its export; nothing else but the later levels changes. */
  lemma SetActionKeepsConsistent(rows: seq<Row>, data: seq<Hour>, i: nat, action: Action, rate: real)
    requires Consistent(rows, data, rate) && i < |rows| && action != Charge
    ensures var r := SetAction(rows, i, action, rate);
      && Consistent(r, data, rate)
      && ChangesOnlyAt(rows, r, i)
      && r[i].action == action
      && r[i].elNetCharge == 0.0
      && r[i].batteryDelta == DeltaFor(action, rows[i].solarSurplus, 0.0, rate)
      && r[i].solarExport == ExportFor(action, rows[i].solarSurplus, rate)
      && r[i].reason == rows[i].reason
  {
    var cleared := if rows[i].action == Charge then rows[i := rows[i].(elNetCharge := 0.0)] else rows;
    var acted := cleared[i := cleared[i].(action := action)];
    var w := WithDelta(acted, i, rate);
    assert forall k :: 0 <= k < |w| && k != i ==> w[k] == rows[k];
    PropagateRestores(rows, w, data, i, rate);
    RecalculatedMeaning(acted, i, rate);
    ExportKeepsConsistent(Propagate(w, i + 1), data, i, rate);
  }

  /** The charge setter keeps the table consistent: a refused charge leaves it as it was, an
      admitted one gives hour i the ChargedRow action and grid charge. */
  lemma ChargeAtKeepsConsistent(rows: seq<Row>, data: seq<Hour>, i: nat, amount: real, rate: real)
    requires Consistent(rows, data, rate) && i < |rows|
    ensures var (ok, r) := ChargeAt(rows, i, amount, rate);
      && (ok <==> ChargeAdmissible(rows[i], amount, rate))
      && (!ok ==> r == rows)
      && Consistent(r, data, rate)
      && ChangesOnlyAt(rows, r, i)
      && (ok ==>
            && r[i].action == ChargedRow(rows[i], amount).action
            && r[i].elNetCharge == ChargedRow(rows[i], amount).elNetCharge
            && r[i].solarExport == rows[i].solarExport
            && r[i].reason == rows[i].reason)
  {
    if ChargeAdmissible(rows[i], amount, rate) {
      var c := rows[i := ChargedRow(rows[i], amount)];
      var w := WithDelta(c, i, rate);
      assert forall k :: 0 <= k < |w| && k != i ==> w[k] == rows[k];
      PropagateRestores(rows, w, data, i, rate);
      RecalculatedMeaning(c, i, rate);
    }
  }

  /** On an hour that consumes more than the sun gives, an admitted charge raises the delta by
      exactly the amount, up to the rate; only a discharging equalize hour whose deficit
      exceeds the amount becomes idle, with delta 0. */
  lemma NegativeSurplusCharge(rows: seq<Row>, data: seq<Hour>, i: nat, amount: real, rate: real)
    requires Consistent(rows, data, rate) && i < |rows| && rate >= 0.0
    requires rows[i].solarSurplus < 0.0
    requires ChargeAt(rows, i, amount, rate).0
    ensures var r := ChargeAt(rows, i, amount, rate).1;
      if rows[i].action == Equalize && Abs(rows[i].batteryDelta) > amount then
        r[i].action == Idle && r[i].batteryDelta == 0.0
      else
        && r[i].action == Charge
        && r[i].batteryDelta == rows[i].batteryDelta + amount
        && r[i].batteryDelta <= rate
  {
    ChargeAtKeepsConsistent(rows, data, i, amount, rate);
    var r := ChargeAt(rows, i, amount, rate).1;
    assert r[i].batteryDelta == RowDelta(r[i], rate);
    assert rows[i].batteryDelta == RowDelta(rows[i], rate);
  }
}
