/** The data of one planning run: the hourly input table, the plan table the planner
    fills in, the configuration, and the ways a run can abort. */
module PlanTypes {

  /** The Action column. The template's empty string is represented by Idle: the only read of
      an hour's action before it is first assigned is the 'charge' test of
      _set_loadplan_action (planner.py:123), made by the first pass (planner.py:178-191),
      which is false for the empty string and for Idle alike; and an unassigned hour's
      BatteryDelta stays 0.0 exactly as an idle hour's does. */
  datatype Action = Idle | Charge | Equalize

  /** The ActionReason column; Blank is the template's empty string. */
  datatype ActionReason =
    | Blank
    | IdleWaiting
    | IdleDefault
    | IdleSolarOverflow
    | IdleSolarSellHighBuyLow
    | EqualizeUseBattery
    | EqualizeSolarCharge
    | ChargeLaterConsumption

  datatype SolarStrategy = SellAll | SaveAll

  /** The planner's settings: max_rate, capacity, threshold, effectivity, solar_strategy. */
  datatype Config = Config(
    maxChargeRate: real,
    maxCapacity: real,
    minCapacity: real,
    effectivity: real,
    strategy: SolarStrategy)

  /** One row of the input table; Time is an hour count. */
  datatype Hour = Hour(
    time: int,
    price: real,
    spotPrice: real,
    power: real,
    expectedConsumption: real)

  /** One row of the plan table (all kWh quantities as reals). */
  datatype Row = Row(
    time: int,
    action: Action,
    solarSurplus: real,
    elNetCharge: real,
    batteryDelta: real,
    batteryExpected: real,
    solarExport: real,
    reason: ActionReason)

  /** Why a planning run ends without a plan. */
  datatype PlanError =
    | KeyError(rowLabel: int)   // a row label the table does not have was read
    | UnboundLocal           // the refill's third option reads an unassigned local
    | EmptyMaximum           // max() over an empty slice of the table
    | Diverged               // a repair loop ran longer than the fuel it was given

  /** A repair violation: (hour index, excess or lacking kWh). */
  datatype Violation = Violation(index: nat, amount: real)
}
