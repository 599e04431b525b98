/**
 * The states of the battery state machine, the events it reacts to, and the
 * table that names each state for the log.
 */
module States {

  /** One constructor per state handler. */
  datatype State =
    | Standby
    | Drive
    | BatteryHeating
    | Charging
    | BatteryEmpty
    | OverTempFault
    | IllegalStateTransitionFault

  /**
   * The sixteen declared events, plus the two update events the pack code
   * raises after every temperature and cell-voltage frame.
   */
  datatype Event =
    | TooHot
    | TooColdToCharge
    | TemperatureOk
    | BatteryIsEmpty
    | BatteryNotEmpty
    | BatteryIsFull
    | PacksImbalanced
    | PacksNotImbalanced
    | IgnitionOn
    | IgnitionOff
    | ChargingInitiated
    | ChargingTerminated
    | ModuleUnresponsive
    | ModulesAllResponsive
    | ShuntUnresponsive
    | ShuntResponsive
    | TemperatureUpdate
    | CellVoltageUpdate

  /** The seven-entry name table, in its declared order (the last name's spelling is the table's own). */
  const STATE_NAMES: seq<(State, string)> := [
    (Standby, "standby"),
    (Drive, "drive"),
    (BatteryHeating, "batteryHeating"),
    (Charging, "charging"),
    (BatteryEmpty, "batteryEmpty"),
    (OverTempFault, "overTempFault"),
    (IllegalStateTransitionFault, "illegalStateTransistionFault")
  ]

  /** Position of a state in the name table. */
  function TableIndex(s: State): (i: nat)
    ensures i < |STATE_NAMES| && STATE_NAMES[i].0 == s
    ensures forall k :: 0 <= k < i ==> STATE_NAMES[k].0 != s
  {
    match s
    case Standby => 0
    case Drive => 1
    case BatteryHeating => 2
    case Charging => 3
    case BatteryEmpty => 4
    case OverTempFault => 5
    case IllegalStateTransitionFault => 6
  }

  /**
   * Name lookup. The scan runs up to index 8 of a seven-entry table; every
   * state is found before the scan leaves the table, so the out-of-range
   * reads and the "unknownState" fallback are never reached.
   */
  method GetStateName(s: State) returns (name: string)
    ensures exists i :: 0 <= i < |STATE_NAMES| && STATE_NAMES[i] == (s, name)
    ensures name == STATE_NAMES[TableIndex(s)].1
  {
    var i := 0;
    while i < 8
      invariant 0 <= i <= TableIndex(s)
      invariant forall k :: 0 <= k < i ==> STATE_NAMES[k].0 != s
    {
      if s == STATE_NAMES[i].0 {
        return STATE_NAMES[i].1;
      }
      i := i + 1;
    }
    assert false;
    name := "unknownState";
  }

  /** Distinct states get distinct names. */
  lemma StateNamesDistinct(s: State, t: State)
    requires s != t
    ensures STATE_NAMES[TableIndex(s)].1 != STATE_NAMES[TableIndex(t)].1
  {
  }
}
