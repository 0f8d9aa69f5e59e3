# Home battery charge planner — a Dafny model

Project_HBC plans when a home battery should charge from the grid, store solar power,
or cover household consumption. It looks one or two days ahead, hour by hour. The
`Planner` of `src/controller/planner.py` takes a table with one row per hour: time,
total electricity price, spot price, solar forecast and expected consumption. It fills
in a plan table, one row per hour, with these columns:

- the action (`idle`, `charge`, `equalize`);
- the solar surplus;
- the grid charge (`ElNetCharge`);
- the battery delta;
- the expected battery level;
- the solar export;
- the reason for the action.

The planner runs these passes:

1. A first pass stores every solar surplus.
2. The planner refills the battery when it starts below its minimum.
3. It removes charging that would exceed the capacity.
4. It equalizes the most expensive hours from the battery. Where that would empty the
   battery, it charges in cheaper hours first.
5. Under the SELL_ALL strategy it sells solar surplus that the rest of the day does not
   need.
6. It sells solar power at a high spot price when it can buy the energy back more
   cheaply.

The hourly price comes from the data layer:

- grid tariffs (`tariff.py`);
- provider prices (`provider.py`);
- spot prices with flat charges and value-added tax (`electricity.py`);
- solar forecasts (`solar.py`);
- URLs built for the web services (`url_builder.py`).

`profit.py` compares the planned first hour with buying all consumption from the grid.
`minicon.py` reads the replies of the MiniCon battery controller.

## Layout

The model follows the program's structure.

- **Planner.** `planner.dfy` (module `BatteryPlanner`) is the running planner:
  - A class `Frame` holds the plan table that the passes update in place.
  - A class `Planner` holds the input, the settings and the outcome of `_main`.
  - Every loop of the source is a `while` loop with invariants. Each method is proved to
    leave the table, or return the value, that a function of `PlanTable` or `PlanRepair`
    describes.
  - The properties are proved as lemmas about those functions:
    - `PlanProperties`: every plan satisfies the table invariant.
    - `PlanOutcomes`: what each pass may change.
    - `PlanTable`: what each per-hour write changes.
- **Planner building blocks.**
  - `plan_types.dfy`: the input and plan tables, the settings and the ways a run aborts.
  - `plan_rows.dfy`: per-hour rules (delta, export, charge amounts, the price index).
  - `plan_table.dfy`: table operations (level recalculation, the violation scans, range
    minimum and maximum).
  - `plan_repair.dfy`: the passes as functions.
  - `sorting.dfy`: `sort_values(...).index` as a stable sort of hour indices by a key.
- **Data layer.**
  - `tariff.py`: `tariff.dfy`
  - `provider.py`: `provider.dfy`
  - `solar.py`: `solar.dfy`
  - `electricity.py`: `electricity.dfy`
  - `url_builder.py`: `url_builder.dfy`
  - `profit.py`: `profit.dfy`
  - `minicon.py`: `minicon.dfy`
- **Shared modules.**
  - `hours.dfy`: times and the window of known spot prices.
  - `numeric.dfy`: rounding.
  - `wrappers.dfy`: `Option` and `Result`.

Some errors that Python raises are modelled as `Err` outcomes, because nothing catches
them:

- a row label the table does not have (`KeyError`);
- an unassigned local variable (`UnboundLocal`);
- `max()` of an empty sequence (`EmptyMaximum`);
- an `Hour` past 23 or an index past the end of a list (`DataError`).

The model follows the code in two places where it raises:

- The third option of `_battery_refill_buffer_immidiately` subtracts from
  `remaining_lacking`, a name that function never assigns (planner.py:672). The model
  ends the run with `UnboundLocal` after that option's charge is applied.
- The second buy loop of `_solar_decide_sell_or_use` asks for the maximum level from a
  later buy hour back to the sell hour (planner.py:908-911). That is `max()` of an empty
  slice, so the model ends the run with `EmptyMaximum`.

## Model

| member | source | states |
|---|---|---|
| BatteryPlanner.Planner.constructor | src/controller/planner.py:36-49 | the planner keeps its input table and settings, and its outcome is exactly what `_main` computes for them |
| BatteryPlanner.Planner.RunMain | src/controller/planner.py:51-104 | the whole run returns the plan, or the error, of `Main` |
| PlanRepair.Main | src/controller/planner.py:51-104 | a plan has one row per input hour; an empty input fails with `KeyError(-1)` |
| PlanProperties.MainIsConsistent | src/controller/planner.py:51-104 | every plan `_main` produces satisfies the table invariant: levels follow the recurrence from the measured level, each delta agrees with its hour's action, and grid charge is non-negative and only on charge hours |
| BatteryPlanner.Planner.RefillWhenLow | src/controller/planner.py:64-71 | an empty table fails with `KeyError(-1)`; otherwise the table becomes the refill result, or the method reports its error |
| BatteryPlanner.Planner.RepairExcess | src/controller/planner.py:75-79 | the above-maximum loop leaves the table of `ExcessLoop` or reports `Diverged` |
| PlanProperties.ExcessLoopKeepsConsistent | src/controller/planner.py:75-79 | repeating excess repairs keeps a consistent table consistent |
| BatteryPlanner.Planner.SetLoadplanAction | src/controller/planner.py:108-127 | the table after setting an action: a charge goes through the charge setter, with the rate when no amount is given |
| PlanTable.SetActionShape | src/controller/planner.py:108-127 | a non-charge action changes only hour i and later levels; hour i gets the action, its grid charge is cleared if it was a charge hour, and its delta and export are recomputed |
| PlanTable.SetActionKeepsConsistent | src/controller/planner.py:108-127 | setting a non-charge action keeps the table consistent and leaves hour i with zero grid charge and its reason unchanged |
| PlanProperties.ActionKeepsConsistent | src/controller/planner.py:593-595 | an action followed by a reason keeps the table consistent |
| BatteryPlanner.Planner.SetPeakActionsAutomatic | src/controller/planner.py:130-166 | returns `Peak`, the hours tried most expensive first; the caller's table ends as `PeakHeldFrom`: it is written up to the first successful speculative charge, and a copy is written after it |
| BatteryPlanner.Planner.PeakLoop | src/controller/planner.py:148-166 | the loop returns `PeakFrom` over the given order and writes the caller's table as described above |
| PlanProperties.PeakFromKeepsConsistent | src/controller/planner.py:148-166 | equalizing peak hours, directly or through a speculative charge, keeps the table consistent |
| BatteryPlanner.Planner.BatteryFirstCalculation | src/controller/planner.py:169-191 | the table after the first pass equals `FirstCalculation` from hour 0 |
| BatteryPlanner.Planner.FirstCalculationAt | src/controller/planner.py:178-191 | one iteration of the first pass leaves the table of `FirstStep` |
| PlanProperties.FirstStepShape | src/controller/planner.py:178-191 | one step keeps earlier hours, changes only the levels of later hours, and gives hour i the level of the recurrence; a fresh hour becomes a stored-or-sold hour with no grid charge |
| PlanProperties.FirstStepAdvances | src/controller/planner.py:177-191 | a step extends the handled prefix by one hour |
| PlanProperties.FirstCalculationFrom | src/controller/planner.py:177-191 | the rest of the pass handles every hour |
| PlanProperties.FirstCalculationMeaning | src/controller/planner.py:169-191 | on the template, the first pass yields a consistent table: every hour with a surplus equalizes with EQUALIZE_SOLAR_CHARGE, every other hour is idle with IDLE_DEFAULT, and there is no grid charge |
| PlanRows.ExportFor | src/controller/planner.py:201-214 | export is never negative; an idle hour exports exactly when its surplus is positive, any other hour exactly when its surplus exceeds the rate, and never more than the surplus |
| PlanRows.DeltaByAction | src/controller/planner.py:217-237 | an equalize hour never stores more than the rate; a charge hour's delta is never negative and never below what equalizing the same surplus would store; within those bounds idle holds the level and a surplus within the rate is stored whole |
| BatteryPlanner.Planner.RecalculateDeltaAndBatteryLevel | src/controller/planner.py:540-546 | the table after the recalculation equals `Recalculated` |
| PlanTable.RecalculatedMeaning | src/controller/planner.py:540-546 | only hour i and later levels change; hour i gets the delta of its action, and every later level is the rounded sum of the level and delta before it |
| PlanTable.PropagateMeaning | src/controller/planner.py:240-250 | recomputing levels from an hour on keeps every other column and every earlier hour, and makes each later level follow the recurrence |
| PlanTable.PropagateFollows | src/controller/planner.py:240-250 | when levels before the start follow the recurrence, all levels follow it afterwards |
| PlanTable.PropagateRestores | src/controller/planner.py:540-546 | a table that differs from a consistent one only in hour i, with an agreeing delta, is consistent again after the recalculation |
| BatteryPlanner.Planner.BatteryCheckIfAboveMaximumCharge | src/controller/planner.py:263-272 | the scan returns `FirstAbove` |
| PlanTable.FirstAboveMeaning | src/controller/planner.py:263-272 | the result is the first hour from begin above the capacity, with the excess, and it is None exactly when no such hour exists |
| BatteryPlanner.Planner.BatteryCheckIfBelowMinimumCharge | src/controller/planner.py:275-305 | an empty table fails with `KeyError(-1)`, which the last-hour rule reads; otherwise the scan returns `FirstBelow` |
| PlanTable.FirstBelowFromMeaning | src/controller/planner.py:284-292 | the loop finds the first hour from begin that is more than 0.001 under the minimum, and None exactly when there is none |
| PlanTable.FirstBelowMeaning | src/controller/planner.py:275-305 | a reported amount is positive; an hour under the minimum is reported first, with the amount lacking above 0.001; otherwise the last hour is reported exactly when it is a discharging equalize hour whose deficit exceeds its room above the minimum |
| BatteryPlanner.Planner.FindZeroPoint | src/controller/planner.py:314-319 | the backward scan returns `ZeroPoint` |
| PlanTable.ZeroPointMeaning | src/controller/planner.py:314-319 | the zero point is 0, or an earlier hour at or below the minimum; every hour strictly between it and the violation is above the minimum |
| PlanTable.ScanDownLowMeaning | src/controller/planner.py:316-319 | the scan from x down to 1 stops at the first level at or below the minimum, or gives 0 |
| BatteryPlanner.Planner.FindMaxPoint | src/controller/planner.py:382-387 | the backward scan returns `MaxPoint` |
| PlanTable.MaxPointMeaning | src/controller/planner.py:382-387 | the max point is 0, or an earlier hour at or above the capacity; every hour strictly between it and the violation is below the capacity |
| PlanTable.ScanDownHighMeaning | src/controller/planner.py:384-387 | the scan from x down to 1 stops at the first level at or above the capacity, or gives 0 |
| PlanTable.FiltersMeaning | src/controller/planner.py:320-326 | the filters keep exactly the idle hours with a deficit, the equalize hours with a surplus, and the range without the violating hour (also 355-358 and 388-391) |
| BatteryPlanner.Planner.BatteryFixExcess | src/controller/planner.py:308-373 | the table after the repair equals `FixExcess` |
| BatteryPlanner.Planner.SpendExcess | src/controller/planner.py:328-347 | the first candidate loop leaves the table and remaining excess of `ExcessUse` |
| BatteryPlanner.Planner.SellExcess | src/controller/planner.py:351-373 | the second candidate loop leaves the table and remaining excess of `ExcessSell` |
| PlanProperties.ExcessUseKeepsConsistent | src/controller/planner.py:328-347 | equalizing deficit hours keeps the table consistent |
| PlanProperties.ExcessSellKeepsConsistent | src/controller/planner.py:351-373 | idling solar-charging hours keeps the table consistent |
| PlanProperties.FixExcessKeepsConsistent | src/controller/planner.py:308-373 | an excess repair keeps the table consistent |
| BatteryPlanner.Planner.BatteryFixLacking | src/controller/planner.py:376-494 | the table and remaining lack after the repair equal `FixLacking` |
| BatteryPlanner.Planner.FixLackingAt | src/controller/planner.py:403-486 | one candidate hour leaves the table and remaining lack of `LackingStep` |
| BatteryPlanner.Planner.ChargeDecision | src/controller/planner.py:415-484 | the inline decision table picks `LackingDecision` from the hour's swing minimum and maximum |
| PlanRepair.FixLackingKeepsPlan | src/controller/planner.py:376-494 | a lacking repair keeps a consistent table consistent and never changes the action or reason of the hour that caused the shortfall |
| PlanRepair.FixLackingKeepsConsistent | src/controller/planner.py:376-494 | a lacking repair keeps the table consistent |
| PlanRepair.FixLackingKeepsCause | src/controller/planner.py:388-391 | the violating hour is left out of the candidates, so its plan is unchanged |
| PlanRepair.LackingPassKeepsConsistent | src/controller/planner.py:402-490 | the candidate loop keeps the table consistent |
| PlanRepair.LackingPassKeepsOthers | src/controller/planner.py:402-490 | the candidate loop keeps the plan of every hour that is not a candidate |
| PlanRepair.LackingStepKeepsConsistent | src/controller/planner.py:403-486 | one candidate step keeps the table consistent |
| PlanRepair.LackingStepKeepsOthers | src/controller/planner.py:403-486 | one candidate step changes the plan of no other hour |
| PlanRepair.ChargedKeepsConsistent | src/controller/planner.py:443-445 | a charge followed by CHARGE_LATER_CONSUMPTION keeps the table consistent |
| PlanRepair.ChargedKeepsOthers | src/controller/planner.py:502-537 | a charge leaves the plan of every other hour alone |
| PlanRows.PriceIndex | src/controller/planner.py:24 | the index is the floor of the saving per kWh in hundredths |
| PlanRows.PriceIndexAboveThreshold | src/controller/planner.py:21-24 | an hour passes the test against threshold 10 exactly when the effective saving is at least 0.11 per kWh |
| PlanRows.LackingDecisionAgrees | src/controller/planner.py:439-484 | the inline seven-way table and `_decide_charge_amount` pick the same amount, and the table skips only when the swing minimum exceeds the room |
| PlanRows.DecideChargeAmount | src/controller/planner.py:740-794 | a non-zero charge lies between the available minimum and maximum and within the upper limit; it exceeds the need only when it is the minimum; it is exactly the need when the need fits |
| PlanRows.AvailableAgreesWithSwing | src/controller/planner.py:705-737 | the two available-charge helpers compute the same swing as the inline rule |
| BatteryPlanner.Planner.SetChargeAtIndex | src/controller/planner.py:502-537 | the admission flag and the table after the charge equal `ChargeAt` |
| PlanTable.ChargeAtKeepsConsistent | src/controller/planner.py:502-537 | a charge is admitted exactly when the admission test holds; a refused charge changes nothing; either way the table stays consistent and only hour i and later levels change |
| PlanTable.NegativeSurplusCharge | src/controller/planner.py:502-537 | on a deficit hour an admitted charge raises the delta by the amount, up to the rate; only a discharging equalize hour with a larger deficit becomes idle |
| PlanTable.ReasonKeepsConsistent | src/controller/planner.py:496-499 | writing a reason keeps the table consistent |
| PlanTable.ExportKeepsConsistent | src/controller/planner.py:201-214 | writing an export keeps the table consistent |
| PlanTable.LevelRangeMeaning | src/controller/planner.py:549-568 | the range minimum and maximum are levels of the range and bound all of its levels |
| BatteryPlanner.Planner.TryToGetCharge | src/controller/planner.py:586-613 | the caller's table is untouched, and the result is `PlanRepair.TryToGetCharge` |
| PlanRepair.TryToGetCharge | src/controller/planner.py:586-613 | a successful result has one row per hour |
| BatteryPlanner.Planner.RepairShortfalls | src/controller/planner.py:598-609 | the while loop returns `TryLoop` from the first shortfall |
| PlanRepair.TryLoop | src/controller/planner.py:600-609 | a successful outcome keeps the length and the plan of the equalized hour, leaves no shortfall from that hour on, and keeps a consistent table consistent |
| PlanRepair.TryRound | src/controller/planner.py:601-605 | one repair round, followed by the rest of the loop, gives the same guarantees |
| PlanOutcomes.TryToGetChargeOutcome | src/controller/planner.py:586-613 | a successful result has hour idx equalizing with EQUALIZE_USE_BATTERY and no shortfall from idx on |
| PlanProperties.TryToGetChargeKeepsConsistent | src/controller/planner.py:586-613 | a successful result of a consistent table is consistent |
| BatteryPlanner.Planner.BatteryRefillBufferImmediately | src/controller/planner.py:616-703 | the table becomes the result of `Refill`, or the method reports its `KeyError` or `UnboundLocal` |
| PlanRepair.Refill | src/controller/planner.py:616-703 | a refilled table has one row per hour |
| PlanProperties.RefillKeepsConsistent | src/controller/planner.py:616-703 | a refill keeps the table consistent |
| BatteryPlanner.Planner.SolarDecideSellOrUse | src/controller/planner.py:797-950 | the caller's table is untouched, and the result is `SellOrUse` |
| BatteryPlanner.Planner.BuyBeforeSell | src/controller/planner.py:828-887 | the first buy loop, over earlier hours cheapest first, leaves the state of `BuyBefore` |
| BatteryPlanner.Planner.BuyLoop | src/controller/planner.py:835-887 | the same, over a given order of buy hours |
| BatteryPlanner.Planner.BuyAt | src/controller/planner.py:847-871 | one buy hour leaves the simulation and remaining need of `BuyStep` |
| BatteryPlanner.Planner.NoViolationFrom | src/controller/planner.py:875-879 | the re-check is true exactly when neither bound is broken from the first buy hour on |
| BatteryPlanner.Planner.FindCheaperBuy | src/controller/planner.py:897-899 | the loop finds a buy hour cheaper than the sell price exactly when one exists in the list |
| BatteryPlanner.Planner.LaterBuyFails | src/controller/planner.py:891-911 | the second loop reaches its empty `max()` exactly when some later hour is cheaper than the sell price |
| BatteryPlanner.LaterHoursCovered | src/controller/planner.py:894-899 | the later hours, sorted by price, hold a cheaper hour exactly when some later hour is cheaper |
| PlanOutcomes.SellOrUseCommitsClean | src/controller/planner.py:797-950 | the result is the input table, or the sale of one candidate hour s: s is idle for IDLE_SOLAR_SELL_HIGH_BUY_LOW, and for some earlier hour b whose price is below the spot price of s, neither bound is broken from b on |
| PlanOutcomes.SellFromCommitsClean | src/controller/planner.py:820-945 | starting from the input or a committed sale, the loop over sell hours returns the input or a committed sale of one of its sell hours |
| PlanOutcomes.SellFromLastSale | src/controller/planner.py:820-945 | the loop returns the table it was given, or the table that the sale of one sell hour committed on some earlier table |
| PlanOutcomes.SellAttemptCommits | src/controller/planner.py:820-887 | one sell hour keeps the committed table, or commits a sale bought back from an earlier hour b; every hour before b is unchanged and neither bound is broken from b on |
| PlanOutcomes.SellAttemptWitness | src/controller/planner.py:820-887 | a sell hour that commits a new table commits a sale with a named earliest buy hour |
| PlanOutcomes.BuyBeforeCommitsClean | src/controller/planner.py:835-887 | the buy loop keeps the committed table, or commits its own simulation with first_buy_point named: that hour is before the sell hour and cheaper than its spot price, the hours before it match the committed table, the sell hour sells, and neither bound is broken from it on |
| PlanOutcomes.BuyStepShape | src/controller/planner.py:864-871 | a charge at buy hour b writes only hour b and the levels after it |
| PlanProperties.SellFromKeepsConsistent | src/controller/planner.py:820-945 | every committed table is consistent |
| PlanProperties.SellAttemptKeepsConsistent | src/controller/planner.py:820-945 | one sell hour commits a consistent table |
| PlanProperties.BuyBeforeKeepsConsistent | src/controller/planner.py:835-887 | the buy loop commits a consistent table |
| PlanProperties.BuyStepKeepsConsistent | src/controller/planner.py:847-871 | one buy hour keeps the simulation consistent |
| BatteryPlanner.Planner.SolarSellTimeframeSurplus | src/controller/planner.py:953-992 | the table after the pass equals `TimeframeSell` |
| BatteryPlanner.Planner.SellTimeframeHour | src/controller/planner.py:967-992 | one iteration leaves the table of `TimeframeStep` |
| PlanOutcomes.TimeframeStepMeaning | src/controller/planner.py:967-992 | an hour is sold only under SELL_ALL and only when the room below the later levels covers its delta; it becomes idle with IDLE_SOLAR_OVERFLOW and no other hour's plan changes |
| PlanOutcomes.TimeframeFromShape | src/controller/planner.py:967-992 | the loop only turns solar-storing hours into selling ones, and changes nothing under SAVE_ALL |
| PlanOutcomes.TimeframeSellShape | src/controller/planner.py:953-992 | under SAVE_ALL the pass changes nothing; under SELL_ALL it only turns solar-storing equalize hours into idle hours that sell |
| PlanProperties.TimeframeFromKeepsConsistent | src/controller/planner.py:967-992 | the pass keeps the table consistent |
| PlanRepair.SellCandidates | src/controller/planner.py:959-964 | the hours visited are equalize hours with a positive surplus |
| Sorting.SortByMeaning | src/controller/planner.py:145-147 | `sort_values(...).index` is a permutation of the sorted hours, in key order |
| Sorting.SortByKeeps | src/controller/planner.py:145-147 | every hour survives sorting |
| Sorting.SortByWithin | src/controller/planner.py:320-326 | sorting keeps the hours inside the range that held them |
| Sorting.InsertSorted | src/controller/planner.py:145-147 | inserting into a sorted list keeps it sorted |
| Tariffs.TariffOrder | src/data/electricity/tariff.py:40-44 | tariffs compare by price alone: a strict weak order whose ties are equal prices, whatever the times |
| Tariffs.HourlyTariff | src/data/electricity/tariff.py:112-131 | an hour count below 48 whose hour every record has a price for gives a tariff: below 24 on the start date at that hour, else on the end date 24 hours earlier, priced at the sum of the records' prices for that hour; a count of 48 or more raises ValueError, a record with neither that hour's price nor a Price1 raises TypeError |
| Tariffs.PriceSum | src/data/electricity/tariff.py:124-129 | the sum exists exactly when every record has a price for the hour, its Price{h+1} or else its Price1 |
| Tariffs.MissingPriceRaises | src/data/electricity/tariff.py:125-129 | a record with neither the hour's price nor a Price1 makes the hour raise TypeError |
| Tariffs.PriceSumPrefix | src/data/electricity/tariff.py:124-129 | a record without a price anywhere in the list leaves the whole list without a sum |
| Tariffs.Price1Suffices | src/data/electricity/tariff.py:124-129 | when every record carries a Price1, every hour has a sum |
| Tariffs.CreateHourlyTariff | src/data/electricity/tariff.py:112-131 | the summing loop returns `HourlyTariff` |
| Tariffs.GetTariffs | src/data/electricity/tariff.py:90-93 | one tariff per hour of the window from its start hour, each that hour's `HourlyTariff`; it fails when the window runs past the next day, and, when every record carries a Price1, only then |
| Tariffs.TariffsFrom | src/data/electricity/tariff.py:90-93 | the list succeeds exactly when every hour count in the range has a tariff, and then holds those tariffs in order |
| Tariffs.PriceSumSplit | src/data/electricity/tariff.py:124-129 | summing over a list of records is summing over its parts, when both parts have a sum |
| Tariffs.FlatRecordsFlatTariff | src/data/electricity/tariff.py:124-129 | records with only Price1 give every hour the same sum, or none at every hour |
| Tariffs.FlatPairExample | src/data/electricity/tariff.py:124-129 | two Price1-only records of 0.0114 and 0.2709 give 0.2823 at every hour |
| Tariffs.GetActiveRecords | src/data/electricity/tariff.py:134-190 | the scan returns `ActiveRecordsOf` |
| Tariffs.ActiveRecordsShape | src/data/electricity/tariff.py:134-190 | the result is the kept closed records followed by at most one open-ended record, the direct choice |
| Tariffs.ScanChoosesOpen | src/data/electricity/tariff.py:172-185 | the open-ended record chosen is the last qualifying one strictly closer to the start date than the first qualifying one, else that first one |
| Tariffs.ScanStepOpen | src/data/electricity/tariff.py:172-185 | how one record moves the open-ended choice |
| Tariffs.ScanKeepsClosed | src/data/electricity/tariff.py:153-170 | every closed record kept starts on the end date or covers the window |
| Tariffs.ScanKeepsEndDateRecords | src/data/electricity/tariff.py:156-157 | a closed record starting on the end date is never dropped |
| Tariffs.ScanStepReplacesOnlyOlder | src/data/electricity/tariff.py:158-170 | a kept record is replaced only by a covering record of the same code with a strictly later ValidFrom date |
| Tariffs.ActiveRecordsExample | tests/data/electricity/test_tariff.py:167-271 | the nine test records give Tariff1, Tariff4, Tariff9, Tariff7 in that order |
| Tariffs.ExampleScanFirstHalf | tests/data/electricity/test_tariff.py:173-201 | the scan state after the first four test records |
| Providers.ProviderOrder | src/data/electricity/provider.py:15-19 | providers compare by price alone |
| Providers.BracketPriceFound | src/data/electricity/provider.py:81-86 | the price is that of the first bracket whose time of day is strictly later |
| Providers.BracketPriceNone | src/data/electricity/provider.py:81-86 | with no later bracket the price is 0.0 |
| Providers.HourlyProvider | src/data/electricity/provider.py:71-88 | an hour count below 48 gives the time of that count and the price of its bracket; 48 or more raises |
| Providers.CreateHourlyProvider | src/data/electricity/provider.py:71-88 | the bracket loop returns `HourlyProvider` |
| Providers.GetProviders | src/data/electricity/provider.py:49-54 | one provider per hour of the window, each that hour's `HourlyProvider`; it fails exactly when the window runs past the next day |
| Providers.VindstodExamples | tests/data/electricity/test_provider.py:68-92 | 5:00 falls in the 9:00 bracket, 22:00 in the last one, 1:00 in the first |
| Providers.FlatPrice | tests/data/electricity/test_provider.py:82-85 | a single 23:59:59 bracket gives every whole hour its price |
| Solars.SolarOrder | src/data/solar/solar.py:43-47 | solars compare by power alone |
| Solars.HourlySolar | src/data/solar/solar.py:183-196 | the hour ends at the first forecast's period end, with the mean of the first two estimates to four decimals; fewer than two forecasts raise |
| Solars.GetEmptySolars | src/data/solar/solar.py:92-120 | one zero-power solar per hour of the window, at the time of that hour count |
| Solars.GetActiveForecasts | src/data/solar/solar.py:199-218 | keeps, in order, exactly the forecasts whose period end lies in the window extended by half an hour |
| Solars.BetweenMeaning | src/data/solar/solar.py:213-216 | the filter keeps exactly the forecasts in range |
| Solars.BetweenSplit | src/data/solar/solar.py:213-216 | the filter keeps the input order |
| Solars.GetActiveAndPastForecasts | src/data/solar/solar.py:221-257 | the loop returns `ActiveAndPastOf`; an empty forecast list, or one forecast ending at half past, raises |
| Solars.ActiveAndPastChronological | src/data/solar/solar.py:221-257 | with estimates newest first and forecasts oldest first, the result is in time order: estimates from the window start to before the cut, then forecasts from the cut to the extended window end |
| Solars.ReversedChronological | src/data/solar/solar.py:249-250 | reversing the newest-first estimates puts them in time order |
| Solars.PairForecasts | src/data/solar/solar.py:174-180 | each consecutive pair of forecasts becomes one hourly solar; an odd count raises |
| Solars.SumRooftops | src/data/solar/solar.py:82-89 | one rooftop is returned as it is; several are zipped to the shortest, each hour taking the first rooftop's time and the summed power; no rooftop raises |
| Solars.MinLength | src/data/solar/solar.py:84-85 | the length zip stops at is that of the shortest rooftop |
| Urls.RemoveSpaces | src/data/helperfunctions/url_builder.py:99 | the result has no spaces and holds every other character of the input as often as the input does |
| Urls.RemoveSpacesSplit | src/data/helperfunctions/url_builder.py:99 | spaces are dropped piece by piece, so the kept characters stay in their order |
| Urls.UrlOf | src/data/helperfunctions/url_builder.py:81-104 | the URL starts with the base and the first delimiter; an empty first delimiter raises |
| Urls.AppendSegment | src/data/helperfunctions/url_builder.py:96-102 | one pass appends the parameter's segment |
| Urls.Build | src/data/helperfunctions/url_builder.py:81-104 | the loop builds `UrlOf` |
| Urls.ExtraParamsIgnored | src/data/helperfunctions/url_builder.py:95 | parameters beyond the delimiters never reach the URL |
| Urls.BuildExample | tests/data/helperfunctions/test_url_builder.py:16-25 | the test components build https://www.dr.dk/sporten/resultater/fodbold |
| Urls.SetValues | src/data/helperfunctions/url_builder.py:57-78 | the components with the empty values filled, or an error when values run out |
| Urls.FilledMeaning | src/data/helperfunctions/url_builder.py:69-78 | every key and non-empty value is kept, the j-th empty value becomes values[j], and filling fails exactly when there are fewer values than empty ones |
| Urls.SetValuesExample | tests/data/helperfunctions/test_url_builder.py:173-197 | the test parameters are filled in order |
| Urls.SetParams | src/data/helperfunctions/url_builder.py:26-53 | the components with their keys renamed and rebuilt as a dict |
| Urls.NewKeys | src/data/helperfunctions/url_builder.py:39-50 | each key is renamed by its first rename, and with no renames at all no key is produced |
| Urls.DictOfDistinct | src/data/helperfunctions/url_builder.py:52 | with distinct keys, dict() keeps every pair in order |
| Urls.SetParamsExample | tests/data/helperfunctions/test_url_builder.py:142-172 | two keys are renamed; the empty key, the other key, every value and the order are kept |
| Electricities.TotalPricing | src/data/electricity/electricity.py:67-70 | the price is the sum of the parts times 1.25, to within half of the fourth decimal |
| Electricities.NewElectricity | src/data/electricity/electricity.py:30-32 | after construction the time is the tariff's, the parts are kept, and the price is the total pricing |
| Electricities.DearerPartNeverCheaper | src/data/electricity/electricity.py:20-28 | dearer parts never make a cheaper hour |
| Electricities.Round4Monotone | src/data/electricity/electricity.py:69-70 | rounding never reverses an order |
| Electricities.PricingExample | tests/data/electricity/test_electricity.py:41-57 | the test parts give 3.9238, and equal part prices compare equal whatever the times |
| Electricities.ComparisonExample | tests/data/electricity/test_electricity.py:60-73 | cheaper parts give a cheaper hour and dearer parts a dearer one |
| Electricities.GetElectricity | src/data/electricity/electricity.py:98-100 | the zip is as long as the shortest list, and each hour is built from the parts at its position with the default flat charges |
| Electricities.ElectricityFollowsTariffHours | src/data/electricity/electricity.py:89-100 | the i-th hour lies on hour count FirstIndex + i of the window, wrapped onto the end date past 23 |
| Profits.ExpectedProfit | src/ui/post_processing/profit.py:41-73 | defined exactly when both tables have row 0 (else `KeyError(0)`), and within half a cent of normal buy minus smart buy |
| Profits.SmartBuyIsGridCostPlusSale | src/ui/post_processing/profit.py:56-71 | the smart buy equals the grid import bought at the price plus the export sold at a positive spot price, except in two left-out cases |
| Profits.ProfitAtMostNormalBuy | src/ui/post_processing/profit.py:52-73 | with non-negative prices the smart buy is never negative, so the profit never exceeds the normal buy; an equalize hour's profit is the rounded normal buy |
| Profits.ChargeAtRateCountsNothing | src/ui/post_processing/profit.py:63-71 | a charge hour whose surplus is exactly 3 counts nothing |
| Profits.GridImport | src/ui/post_processing/profit.py:56-71 | the grid import is never negative |
| MiniConReplies.Find | src/data/helperfunctions/minicon/minicon.py:113-114 | `str.find` returns the first occurrence at or after the normalised start, or -1 when there is none |
| MiniConReplies.InIsFind | src/data/helperfunctions/minicon/minicon.py:112 | `in` holds exactly when a search from the start finds something |
| MiniConReplies.SliceBound | src/data/helperfunctions/minicon/minicon.py:115 | a slice bound is clamped to the string, and negative bounds count from the end |
| MiniConReplies.FilterWithoutEcho | src/data/helperfunctions/minicon/minicon.py:116-117 | a reply that does not echo the command is passed through |
| MiniConReplies.FilterBetweenBreaks | src/data/helperfunctions/minicon/minicon.py:101-118 | with the first two line breaks at i and j, the value is the text between them without its last character |
| MiniConReplies.FilterAfterLastBreak | src/data/helperfunctions/minicon/minicon.py:112-115 | with a single line break, the end bound -2 drops the two last characters |
| MiniConReplies.FilterWithoutBreak | src/data/helperfunctions/minicon/minicon.py:112-115 | an echoing reply with no line break loses its last two characters |
| MiniConReplies.FilterExample | src/data/helperfunctions/minicon/minicon.py:101-118 | "show b\r\n57\r\n#" yields "57" |
| MiniConReplies.VerifySetResponse | src/data/helperfunctions/minicon/minicon.py:121-140 | false without an echo; true exactly when the echoed value read back parses to the value set; a value that does not parse raises |
| MiniConReplies.SetValueField | src/data/helperfunctions/minicon/minicon.py:133-136 | the value read is the text after the first space following "string", up to one character before the next line break |
| Hours.ReplaceHour | src/data/electricity/tariff.py:120-122 | `replace(hour=h)` keeps the date, minute and second and sets the hour; an hour past 23 raises |
| Hours.HoursBetween | src/data/electricity/tariff.py:90 | the count is one more than the whole hours between the window's ends |
| Hours.HourlyTime | src/data/electricity/tariff.py:112-122 | a count below 24 is that hour on the start date, a count from 24 to 47 is 24 hours less on the end date, and a larger count raises |
| Numeric.Round4 | src/data/solar/solar.py:196 | `round(x, 4)` is within half of the fourth decimal of x |
| Numeric.Round2 | src/ui/post_processing/profit.py:73 | `round(x, 2)` is within half a cent of x |

## Left out

- Fetching data is not modelled. The model starts from the parsed records and the
  fetched lists. This covers HTTP requests, status codes and `sys.exit`, and the JSON
  files of `solar.py`. It also covers `get_data`, `get_spot_prices` and deriving the window
  from the spot prices.
- The serial connection of `minicon.py` is not modelled, nor are `get_value`,
  `set_value` and the retries. Only the two reply filters are modelled.
- `float()` in `_verify_set_response` is a parameter, `parse`. Parsing numbers is not
  modelled.
- The `Collector` superclass of `Planner` is not modelled. Its inputs are given to the
  constructor.
- `print` calls and `__repr__` methods are left out: they have no effect on the
  results.
- `current_profit`, `_calculate_current_profit` and `calculate_total_profit` are unwritten
  in the source and return 0.0 (profit.py:20-38). `Profits.CurrentProfit` and
  `Profits.TotalProfit` are those constants and carry no contract.
- The `URLBuilder` constructor is not modelled. It only calls `_build`.
- The MiniCon battery level is not read. `_battery_get_current_charge_level` is a stub in
  the source that returns 0.0, and the model keeps it.
- Floating-point arithmetic is modelled on exact reals. Python's `round` rounds halves to
  even on binary floats; `Round4` and `Round2` round halves up on reals. Their contracts
  state only the bound.
- The tie order of pandas' `sort_values` is not specified. `SortBy` is a stable
  insertion sort, and no property proved depends on the order of ties.
- The while loops of `_main` (planner.py:75-79) and `_try_to_get_charge`
  (planner.py:600-609) have no bound in the source. They run on a `fuel` budget and end
  in `Diverged` when it runs out. A run that needs more repairs than its fuel is not
  modelled.
- Times are whole seconds (an `int`), and dates are whole days of them. Time zones and
  daylight saving are not modelled.
- The template's empty Action is represented by `Idle`. The only read of an action before
  the first pass assigns it is the test for 'charge' in `_set_loadplan_action`
  (planner.py:123). The first pass makes that test for every hour (planner.py:178-191), and
  it is false for both the empty string and `Idle`.
- Copies of data frames become values. A deep copy and the sharing it avoids cannot be
  told apart in the model. The one piece of sharing that matters is covered:
  `_set_peak_actions_automatic_v2` writes into the caller's frame until its first
  successful speculative charge, which `PeakHeldFrom` states.
- The parameter values of the URL components (`Any` in the source) are strings.
- Profits.SmartBuyIsGridCostPlusSale: it excludes two cases where the profit rule and the
  planner's own battery rule disagree. The first is an equalize hour whose surplus
  exceeds the rate; the second is a charge hour whose surplus is exactly the rate and
  that takes grid charge. `ChargeAtRateCountsNothing` states the second case directly.
- Urls.SetParamsExample: the renaming test of test_url_builder.py uses more parameters.
  The model's example keeps four of them: two renamed keys, the empty key and one
  unchanged key.
- Tariffs.ActiveRecordsExample: the test records are modelled with whole-day dates and
  only the columns the scan reads.
