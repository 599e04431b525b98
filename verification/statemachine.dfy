/**
 * The event handlers of the battery state machine. Each handler reacts to
 * one event in one state: it switches the drive inhibit, charge inhibit and
 * heater outputs of the management object, the per-pack contactor inhibits,
 * the state (and with it the status light's pattern) and the diagnostics.
 *
 * The handlers read the battery through its predicates and pack voltages,
 * and the ignition and charge-enable inputs; these arrive as a `Readings`
 * value, taken as the handler sees them (after the battery's voltage update
 * in the branches that run it).
 */
module StateMachine {
  import opened Settings
  import opened CTypes
  import opened States
  import opened StatusLights
  import opened Management
  import opened Batteries

  /** What a handler reads from the battery and the input pins. */
  datatype Readings = Readings(
    tooColdToCharge: bool,
    fullCell: bool,
    emptyCell: bool,
    overMaxTemperature: bool,
    packVoltages: seq<int>,
    ignitionOn: bool,
    chargeEnabled: bool,
    highestTemperature: int,
    throttledChargeCurrent: int)

  /** One contactor inhibit per pack. */
  type PackInhibits = s: seq<bool> | |s| == NUM_PACKS witness seq(NUM_PACKS, _ => false)

  /** Everything a handler may change. */
  datatype Outputs = Outputs(
    state: State,
    driveInhibited: bool,
    chargeInhibited: bool,
    heaterEnabled: bool,
    contactorsInhibited: PackInhibits,
    light: (int, int),
    maxChargeCurrent: int8,
    invalidEventCount: nat,
    illegalStateTransition: bool,
    shuntResetRequests: nat)

  /** One voltage per pack. */
  predicate Fits(r: Readings) {
    |r.packVoltages| == NUM_PACKS
  }

  /** The outputs of the management object and the contactor pins. */
  function Observe(bms: Bms, pins: array<bool>): Outputs
    requires pins.Length == NUM_PACKS
    reads bms, bms.statusLight, pins
  {
    Outputs(bms.state, bms.driveInhibited, bms.chargeInhibited, bms.heaterEnabled, pins[..],
            (bms.statusLight.onDuration, bms.statusLight.offDuration),
            bms.maxChargeCurrent, bms.invalidEventCount, bms.illegalStateTransition,
            bms.shuntResetRequests)
  }

  // ---------------------------------------------------------------------
  // The transitions as a function on values.
  // ---------------------------------------------------------------------

  /** Every pack given the same inhibit. */
  function Uniform(n: nat, b: bool): (s: seq<bool>)
    ensures |s| == n && forall k :: 0 <= k < n ==> s[k] == b
  {
    seq(n, _ => b)
  }

  /** Switching state also switches the status light to the state's pattern. */
  function Enter(o: Outputs, s: State): Outputs {
    var d := ModeDurations(LedModeFor(s));
    o.(state := s, light := (d.0, d.1))
  }

  /** A rejected event only counts. */
  function Reject(o: Outputs): Outputs {
    o.(invalidEventCount := o.invalidEventCount + 1)
  }

  /** Charge inhibited when too cold to charge or a cell is full, released otherwise. */
  function ColdOrFull(o: Outputs, r: Readings): Outputs {
    o.(chargeInhibited := r.tooColdToCharge || r.fullCell)
  }

  /** Both inhibits on. */
  function InhibitBoth(o: Outputs): Outputs {
    o.(driveInhibited := true, chargeInhibited := true)
  }

  /** When some pack is inhibited, release the packs a drive may close. */
  function ReleaseForDrive(o: Outputs, r: Readings): Outputs
    requires Fits(r)
  {
    var c := o.contactorsInhibited;
    o.(contactorsInhibited := if AnyInhibited(c) then ReleasedForDrive(c, r.packVoltages) else c)
  }

  /** When some pack is inhibited, release the packs a charge may close. */
  function ReleaseForCharge(o: Outputs, r: Readings): Outputs
    requires Fits(r)
  {
    var c := o.contactorsInhibited;
    o.(contactorsInhibited := if AnyInhibited(c) then ReleasedForCharge(c, r.packVoltages) else c)
  }

  /** The charge current limit: the full current up to the throttling temperature. */
  function ChargeCurrentLimit(r: Readings): int8 {
    if r.highestTemperature > CHARGE_THROTTLE_TEMP_LOW then I8(r.throttledChargeCurrent) else CHARGE_CURRENT_MAX
  }

  /** New cell voltages in standby: contactors inhibited while the packs are imbalanced; an empty cell stops driving. */
  function StandbyVoltageUpdate(o: Outputs, r: Readings): Outputs
    requires Fits(r)
  {
    var o1 := ColdOrFull(o, r).(contactorsInhibited := Uniform(NUM_PACKS, Batteries.PacksImbalanced(r.packVoltages)));
    if r.emptyCell then Enter(o1.(driveInhibited := true), BatteryEmpty) else o1
  }

  function StandbyNext(o: Outputs, e: Event, r: Readings): Outputs
    requires Fits(r)
  {
    if e.TemperatureUpdate? then
      var o1 := ColdOrFull(o, r);
      if r.overMaxTemperature then Enter(InhibitBoth(o1), OverTempFault)
      else StandbyVoltageUpdate(o1, r)
    else if e.CellVoltageUpdate? then StandbyVoltageUpdate(o, r)
    else if e.IgnitionOn? then Enter(ReleaseForDrive(o, r), Drive)
    else if e.ChargingInitiated? then
      if r.tooColdToCharge then
        Enter(o.(heaterEnabled := true, chargeInhibited := true, driveInhibited := true), BatteryHeating)
      else Enter(o.(driveInhibited := true), Charging)
    else Reject(o)
  }

  /** New cell voltages in drive: an empty cell stops driving; otherwise packs that have come together are released. */
  function DriveVoltageUpdate(o: Outputs, r: Readings): Outputs
    requires Fits(r)
  {
    if r.emptyCell then Enter(o.(driveInhibited := true), BatteryEmpty)
    else ReleaseForDrive(o.(chargeInhibited := r.fullCell), r)
  }

  function DriveNext(o: Outputs, e: Event, r: Readings): Outputs
    requires Fits(r)
  {
    if e.TemperatureUpdate? then
      var o1 := ColdOrFull(o, r);
      if r.overMaxTemperature then Enter(InhibitBoth(o1), OverTempFault)
      else DriveVoltageUpdate(o1, r)
    else if e.CellVoltageUpdate? then DriveVoltageUpdate(o, r)
    else if e.IgnitionOff? then
      var o1 := if Batteries.PacksImbalanced(r.packVoltages) then o.(contactorsInhibited := Uniform(NUM_PACKS, true)) else o;
      Enter(o1, Standby)
    else if e.ChargingInitiated? then
      if AnyInhibited(o.contactorsInhibited) then
        Enter(InhibitBoth(o).(illegalStateTransition := true), IllegalStateTransitionFault)
      else Enter(o.(driveInhibited := true), Charging)
    else Reject(o)
  }

  function BatteryHeatingNext(o: Outputs, e: Event, r: Readings): Outputs {
    if e.TemperatureUpdate? then
      if r.overMaxTemperature then Enter(InhibitBoth(o), OverTempFault)
      else if !r.tooColdToCharge && !r.fullCell then
        Enter(o.(heaterEnabled := false, chargeInhibited := false), Charging)
      else o
    else if e.CellVoltageUpdate? then
      if r.fullCell then Enter(o.(chargeInhibited := true, heaterEnabled := false), Charging) else o
    else if e.IgnitionOn? then o
    else if e.IgnitionOff? then o
    else if e.ChargingTerminated? then
      var o1 := o.(heaterEnabled := false);
      if AnyInhibited(o.contactorsInhibited) && r.ignitionOn then
        Enter(InhibitBoth(o1).(illegalStateTransition := true), IllegalStateTransitionFault)
      else if r.emptyCell then Enter(o1.(driveInhibited := true), BatteryEmpty)
      else if r.ignitionOn then Enter(o1.(chargeInhibited := false, driveInhibited := false), Drive)
      else Enter(o1.(driveInhibited := false, chargeInhibited := false), Standby)
    else Reject(o)
  }

  /** A temperature update while charging: heater and charge inhibit follow the temperature, then the current limit is recalculated. */
  function ChargingTemperatureUpdate(o: Outputs, r: Readings): Outputs {
    var o1 := if r.overMaxTemperature then InhibitBoth(o).(heaterEnabled := false) else o;
    var o2 := if o1.heaterEnabled && !r.tooColdToCharge then o1.(heaterEnabled := false, chargeInhibited := false) else o1;
    var o3 := if !o2.heaterEnabled && r.tooColdToCharge then o2.(chargeInhibited := true, heaterEnabled := true) else o2;
    o3.(maxChargeCurrent := ChargeCurrentLimit(r))
  }

  function ChargingNext(o: Outputs, e: Event, r: Readings): Outputs {
    if e.TemperatureUpdate? then ChargingTemperatureUpdate(o, r)
    else if e.CellVoltageUpdate? then if r.fullCell then o.(chargeInhibited := true) else o
    else if e.IgnitionOn? then o
    else if e.IgnitionOff? then o
    else if e.ChargingTerminated? then
      LeaveCharging(if r.fullCell then o.(shuntResetRequests := o.shuntResetRequests + 1) else o, r)
    else Reject(o)
  }

  /** The state a finished charge moves to, in priority order. */
  function LeaveCharging(o: Outputs, r: Readings): Outputs {
    if r.overMaxTemperature then Enter(InhibitBoth(o), OverTempFault)
    else if AnyInhibited(o.contactorsInhibited) && r.ignitionOn then
      Enter(InhibitBoth(o).(illegalStateTransition := true), IllegalStateTransitionFault)
    else if r.emptyCell then Enter(o.(driveInhibited := true), BatteryEmpty)
    else if r.ignitionOn then Enter(o, Drive)
    else Enter(o, Standby)
  }

  function BatteryEmptyNext(o: Outputs, e: Event, r: Readings): Outputs {
    if e.TemperatureUpdate? then
      var o1 := ColdOrFull(o, r);
      if r.overMaxTemperature then Enter(InhibitBoth(o1), OverTempFault) else o1
    else if e.CellVoltageUpdate? then
      var o1 := ColdOrFull(o, r);
      if r.emptyCell then o1
      else if AnyInhibited(o.contactorsInhibited) && r.ignitionOn then
        Enter(Reject(InhibitBoth(o1)), IllegalStateTransitionFault)
      else Enter(o1.(driveInhibited := false), Standby)
    else if e.IgnitionOn? then o
    else if e.IgnitionOff? then o
    else if e.ChargingInitiated? then
      if r.tooColdToCharge then Enter(o.(chargeInhibited := true, heaterEnabled := true), BatteryHeating)
      else Enter(o, Charging)
    else Reject(o)
  }

  function OverTempFaultNext(o: Outputs, e: Event, r: Readings): Outputs
    requires Fits(r)
  {
    if e.TemperatureUpdate? then
      if r.overMaxTemperature then o
      else if r.chargeEnabled then Enter(ReleaseForCharge(o, r).(chargeInhibited := false), Charging)
      else if r.ignitionOn then
        Enter(ReleaseForDrive(o, r).(chargeInhibited := false, driveInhibited := false), Drive)
      else Enter(o.(driveInhibited := false, chargeInhibited := false), Standby)
    else if e.CellVoltageUpdate? then o
    else if e.IgnitionOn? then o
    else if e.IgnitionOff? then o
    else if e.ChargingInitiated? then o
    else if e.ChargingTerminated? then o
    else Reject(o)
  }

  function IllegalStateTransitionFaultNext(o: Outputs, e: Event, r: Readings): Outputs {
    if e.TemperatureUpdate? then o
    else if e.CellVoltageUpdate? then if !o.chargeInhibited && r.fullCell then o.(chargeInhibited := true) else o
    else if e.IgnitionOn? then o
    else if e.IgnitionOff? then if !r.chargeEnabled then Enter(o, Standby) else o
    else if e.ChargingInitiated? then o
    else if e.ChargingTerminated? then if !r.ignitionOn then Enter(o, Standby) else o
    else Reject(o)
  }

  /** One event, handled by the current state's handler. */
  function Next(o: Outputs, e: Event, r: Readings): Outputs
    requires Fits(r)
  {
    match o.state
    case Standby => StandbyNext(o, e, r)
    case Drive => DriveNext(o, e, r)
    case BatteryHeating => BatteryHeatingNext(o, e, r)
    case Charging => ChargingNext(o, e, r)
    case BatteryEmpty => BatteryEmptyNext(o, e, r)
    case OverTempFault => OverTempFaultNext(o, e, r)
    case IllegalStateTransitionFault => IllegalStateTransitionFaultNext(o, e, r)
  }

  // ---------------------------------------------------------------------
  // The handlers.
  // ---------------------------------------------------------------------

  /** Charge inhibit on when too cold to charge or a cell is full, off otherwise. */
  method ChargeInhibitForColdOrFull(bms: Bms, r: Readings)
    modifies bms`chargeInhibited
    ensures bms.chargeInhibited == (r.tooColdToCharge || r.fullCell)
  {
    if r.tooColdToCharge {
      bms.EnableChargeInhibit();
    } else if r.fullCell {
      bms.EnableChargeInhibit();
    } else {
      bms.DisableChargeInhibit();
    }
  }

  /** When some pack is inhibited, release the packs a drive may close. */
  method ReleaseContactorsIfInhibitedForDrive(pins: array<bool>, r: Readings)
    requires pins.Length == |r.packVoltages| == NUM_PACKS
    modifies pins
    ensures pins[..] == (if AnyInhibited(old(pins[..])) then ReleasedForDrive(old(pins[..]), r.packVoltages) else old(pins[..]))
  {
    var inhibited := OneOrMoreContactorsInhibited(pins);
    if inhibited {
      ReleaseContactorsForDrive(pins, r.packVoltages);
    }
  }

  /** The cell-voltage branch of the standby handler, which a temperature update falls into. */
  method StandbyCellVoltageUpdate(bms: Bms, pins: array<bool>, r: Readings)
    requires pins.Length == |r.packVoltages| == NUM_PACKS
    modifies bms`state, bms`driveInhibited, bms`chargeInhibited, bms.statusLight`onDuration, bms.statusLight`offDuration, pins
    ensures Observe(bms, pins) == StandbyVoltageUpdate(old(Observe(bms, pins)), r)
  {
    ChargeInhibitForColdOrFull(bms, r);
    var imbalanced := PacksAreImbalanced(r.packVoltages);
    if imbalanced {
      InhibitAllContactors(pins);
    } else {
      ReleaseAllContactors(pins);
    }
    assert pins[..] == Uniform(NUM_PACKS, imbalanced);
    if r.emptyCell {
      bms.EnableDriveInhibit();
      bms.SetState(BatteryEmpty);
    }
  }

  method StateStandby(bms: Bms, pins: array<bool>, event: Event, r: Readings)
    requires pins.Length == |r.packVoltages| == NUM_PACKS
    modifies bms`state, bms`driveInhibited, bms`chargeInhibited, bms`heaterEnabled, bms`invalidEventCount
    modifies bms.statusLight`onDuration, bms.statusLight`offDuration, pins
    ensures Observe(bms, pins) == StandbyNext(old(Observe(bms, pins)), event, r)
  {
    if event.TemperatureUpdate? {
      ChargeInhibitForColdOrFull(bms, r);
      if r.overMaxTemperature {
        bms.EnableDriveInhibit();
        bms.EnableChargeInhibit();
        bms.SetState(OverTempFault);
      } else {
        StandbyCellVoltageUpdate(bms, pins, r);
      }
    } else if event.CellVoltageUpdate? {
      StandbyCellVoltageUpdate(bms, pins, r);
    } else if event.IgnitionOn? {
      ReleaseContactorsIfInhibitedForDrive(pins, r);
      bms.SetState(Drive);
    } else if event.ChargingInitiated? {
      if r.tooColdToCharge {
        bms.EnableHeater();
        bms.EnableChargeInhibit();
        bms.EnableDriveInhibit();
        bms.SetState(BatteryHeating);
      } else {
        bms.EnableDriveInhibit();
        bms.SetState(Charging);
      }
    } else {
      bms.IncrementInvalidEventCount();
    }
  }

  /** The cell-voltage branch of the drive handler, which a temperature update falls into. */
  method DriveCellVoltageUpdate(bms: Bms, pins: array<bool>, r: Readings)
    requires pins.Length == |r.packVoltages| == NUM_PACKS
    modifies bms`state, bms`driveInhibited, bms`chargeInhibited, bms.statusLight`onDuration, bms.statusLight`offDuration, pins
    ensures Observe(bms, pins) == DriveVoltageUpdate(old(Observe(bms, pins)), r)
  {
    if r.emptyCell {
      bms.EnableDriveInhibit();
      bms.SetState(BatteryEmpty);
      return;
    }
    if r.fullCell {
      bms.EnableChargeInhibit();
    } else {
      bms.DisableChargeInhibit();
    }
    ReleaseContactorsIfInhibitedForDrive(pins, r);
  }

  method StateDrive(bms: Bms, pins: array<bool>, event: Event, r: Readings)
    requires pins.Length == |r.packVoltages| == NUM_PACKS
    modifies bms`state, bms`driveInhibited, bms`chargeInhibited, bms`invalidEventCount, bms`illegalStateTransition
    modifies bms.statusLight`onDuration, bms.statusLight`offDuration, pins
    ensures Observe(bms, pins) == DriveNext(old(Observe(bms, pins)), event, r)
  {
    if event.TemperatureUpdate? {
      ChargeInhibitForColdOrFull(bms, r);
      if r.overMaxTemperature {
        bms.EnableDriveInhibit();
        bms.EnableChargeInhibit();
        bms.SetState(OverTempFault);
      } else {
        DriveCellVoltageUpdate(bms, pins, r);
      }
    } else if event.CellVoltageUpdate? {
      DriveCellVoltageUpdate(bms, pins, r);
    } else if event.IgnitionOff? {
      IgnitionOffWhileDriving(bms, pins, r);
    } else if event.ChargingInitiated? {
      ChargingInitiatedWhileDriving(bms, pins, r);
    } else {
      bms.IncrementInvalidEventCount();
    }
  }

  /** Ignition off in drive: contactors inhibited if the packs are imbalanced, then standby. */
  method IgnitionOffWhileDriving(bms: Bms, pins: array<bool>, r: Readings)
    requires pins.Length == |r.packVoltages| == NUM_PACKS
    modifies bms`state, bms.statusLight`onDuration, bms.statusLight`offDuration, pins
    ensures Observe(bms, pins) == DriveNext(old(Observe(bms, pins)), IgnitionOff, r)
  {
    var imbalanced := PacksAreImbalanced(r.packVoltages);
    if imbalanced {
      InhibitAllContactors(pins);
      assert pins[..] == Uniform(NUM_PACKS, true);
    }
    bms.SetState(Standby);
  }

  /** A charge request in drive: the illegal-transition fault if a pack is inhibited, else charging. */
  method ChargingInitiatedWhileDriving(bms: Bms, pins: array<bool>, r: Readings)
    requires pins.Length == |r.packVoltages| == NUM_PACKS
    modifies bms`state, bms`driveInhibited, bms`chargeInhibited, bms`illegalStateTransition
    modifies bms.statusLight`onDuration, bms.statusLight`offDuration
    ensures Observe(bms, pins) == DriveNext(old(Observe(bms, pins)), ChargingInitiated, r)
  {
    var inhibited := OneOrMoreContactorsInhibited(pins);
    if inhibited {
      bms.EnableDriveInhibit();
      bms.EnableChargeInhibit();
      bms.SetIllegalStateTransition();
      bms.SetState(IllegalStateTransitionFault);
    } else {
      bms.EnableDriveInhibit();
      bms.SetState(Charging);
    }
  }

  method StateBatteryHeating(bms: Bms, pins: array<bool>, event: Event, r: Readings)
    requires pins.Length == NUM_PACKS
    modifies bms`state, bms`driveInhibited, bms`chargeInhibited, bms`heaterEnabled, bms`invalidEventCount
    modifies bms`illegalStateTransition, bms.statusLight`onDuration, bms.statusLight`offDuration
    ensures Observe(bms, pins) == BatteryHeatingNext(old(Observe(bms, pins)), event, r)
  {
    if event.TemperatureUpdate? {
      if r.overMaxTemperature {
        bms.EnableDriveInhibit();
        bms.EnableChargeInhibit();
        bms.SetState(OverTempFault);
      } else if !r.tooColdToCharge && !r.fullCell {
        bms.DisableHeater();
        bms.DisableChargeInhibit();
        bms.SetState(Charging);
      }
    } else if event.CellVoltageUpdate? {
      if r.fullCell {
        bms.EnableChargeInhibit();
        bms.DisableHeater();
        bms.SetState(Charging);
      }
    } else if event.IgnitionOn? {
    } else if event.IgnitionOff? {
    } else if event.ChargingTerminated? {
      ChargingTerminatedWhileHeating(bms, pins, r);
    } else {
      bms.IncrementInvalidEventCount();
    }
  }

  /** Charging is no longer sought: the heater goes off and the next state is picked. */
  method ChargingTerminatedWhileHeating(bms: Bms, pins: array<bool>, r: Readings)
    requires pins.Length == NUM_PACKS
    modifies bms`state, bms`driveInhibited, bms`chargeInhibited, bms`heaterEnabled, bms`illegalStateTransition
    modifies bms.statusLight`onDuration, bms.statusLight`offDuration
    ensures Observe(bms, pins) == BatteryHeatingNext(old(Observe(bms, pins)), ChargingTerminated, r)
  {
    bms.DisableHeater();
    var inhibited := OneOrMoreContactorsInhibited(pins);
    if inhibited && r.ignitionOn {
      bms.EnableDriveInhibit();
      bms.EnableChargeInhibit();
      bms.SetIllegalStateTransition();
      bms.SetState(IllegalStateTransitionFault);
    } else if r.emptyCell {
      bms.EnableDriveInhibit();
      bms.SetState(BatteryEmpty);
    } else if r.ignitionOn {
      bms.DisableChargeInhibit();
      bms.DisableDriveInhibit();
      bms.SetState(Drive);
    } else {
      bms.DisableDriveInhibit();
      bms.DisableChargeInhibit();
      bms.SetState(Standby);
    }
  }

  /** The temperature branch of the charging handler. */
  method ChargingTemperatureBranch(bms: Bms, pins: array<bool>, r: Readings)
    requires pins.Length == NUM_PACKS
    modifies bms`driveInhibited, bms`chargeInhibited, bms`heaterEnabled, bms`maxChargeCurrent
    ensures Observe(bms, pins) == ChargingTemperatureUpdate(old(Observe(bms, pins)), r)
  {
    if r.overMaxTemperature {
      bms.DisableHeater();
      bms.EnableDriveInhibit();
      bms.EnableChargeInhibit();
    }
    if bms.heaterEnabled && !r.tooColdToCharge {
      bms.DisableHeater();
      bms.DisableChargeInhibit();
    }
    if !bms.heaterEnabled && r.tooColdToCharge {
      bms.EnableChargeInhibit();
      bms.EnableHeater();
    }
    bms.UpdateMaxChargeCurrent(r.highestTemperature, r.throttledChargeCurrent);
  }

  method StateCharging(bms: Bms, pins: array<bool>, event: Event, r: Readings)
    requires pins.Length == NUM_PACKS
    modifies bms`state, bms`driveInhibited, bms`chargeInhibited, bms`heaterEnabled, bms`maxChargeCurrent
    modifies bms`invalidEventCount, bms`illegalStateTransition, bms`shuntResetRequests
    modifies bms.statusLight`onDuration, bms.statusLight`offDuration
    ensures Observe(bms, pins) == ChargingNext(old(Observe(bms, pins)), event, r)
  {
    if event.TemperatureUpdate? {
      ChargingTemperatureBranch(bms, pins, r);
    } else if event.CellVoltageUpdate? {
      if r.fullCell {
        bms.EnableChargeInhibit();
      }
    } else if event.IgnitionOn? {
    } else if event.IgnitionOff? {
    } else if event.ChargingTerminated? {
      ChargingTerminatedWhileCharging(bms, pins, r);
    } else {
      bms.IncrementInvalidEventCount();
    }
  }

  /** Charging has stopped: reset the shunt's counters if full, then pick the next state. */
  method ChargingTerminatedWhileCharging(bms: Bms, pins: array<bool>, r: Readings)
    requires pins.Length == NUM_PACKS
    modifies bms`state, bms`driveInhibited, bms`chargeInhibited, bms`illegalStateTransition, bms`shuntResetRequests
    modifies bms.statusLight`onDuration, bms.statusLight`offDuration
    ensures Observe(bms, pins) == ChargingNext(old(Observe(bms, pins)), ChargingTerminated, r)
  {
    if r.fullCell {
      bms.SendShuntResetMessage();
    }
    LeaveChargingState(bms, pins, r);
  }

  /** The end of a charge after the shunt reset request: the next state in priority order. */
  method LeaveChargingState(bms: Bms, pins: array<bool>, r: Readings)
    requires pins.Length == NUM_PACKS
    modifies bms`state, bms`driveInhibited, bms`chargeInhibited, bms`illegalStateTransition
    modifies bms.statusLight`onDuration, bms.statusLight`offDuration
    ensures Observe(bms, pins) == LeaveCharging(old(Observe(bms, pins)), r)
  {
    var inhibited := OneOrMoreContactorsInhibited(pins);
    if r.overMaxTemperature {
      bms.EnableDriveInhibit();
      bms.EnableChargeInhibit();
      bms.SetState(OverTempFault);
    } else if inhibited && r.ignitionOn {
      bms.EnableDriveInhibit();
      bms.EnableChargeInhibit();
      bms.SetIllegalStateTransition();
      bms.SetState(IllegalStateTransitionFault);
    } else {
      LeaveChargingWithoutFault(bms, pins, r);
    }
  }

  /** A charge that ends with neither fault: an empty battery, drive or standby. */
  method LeaveChargingWithoutFault(bms: Bms, pins: array<bool>, r: Readings)
    requires pins.Length == NUM_PACKS
    requires !r.overMaxTemperature && !(AnyInhibited(pins[..]) && r.ignitionOn)
    modifies bms`state, bms`driveInhibited
    modifies bms.statusLight`onDuration, bms.statusLight`offDuration
    ensures Observe(bms, pins) == LeaveCharging(old(Observe(bms, pins)), r)
  {
    if r.emptyCell {
      bms.EnableDriveInhibit();
      bms.SetState(BatteryEmpty);
    } else if r.ignitionOn {
      bms.SetState(Drive);
    } else {
      bms.SetState(Standby);
    }
  }

  method StateBatteryEmpty(bms: Bms, pins: array<bool>, event: Event, r: Readings)
    requires pins.Length == NUM_PACKS
    modifies bms`state, bms`driveInhibited, bms`chargeInhibited, bms`heaterEnabled, bms`invalidEventCount
    modifies bms.statusLight`onDuration, bms.statusLight`offDuration
    ensures Observe(bms, pins) == BatteryEmptyNext(old(Observe(bms, pins)), event, r)
  {
    if event.TemperatureUpdate? {
      ChargeInhibitForColdOrFull(bms, r);
      if r.overMaxTemperature {
        bms.EnableDriveInhibit();
        bms.EnableChargeInhibit();
        bms.SetState(OverTempFault);
      }
    } else if event.CellVoltageUpdate? {
      CellVoltageUpdateWhileEmpty(bms, pins, r);
    } else if event.IgnitionOn? {
    } else if event.IgnitionOff? {
    } else if event.ChargingInitiated? {
      if r.tooColdToCharge {
        bms.EnableChargeInhibit();
        bms.EnableHeater();
        bms.SetState(BatteryHeating);
      } else {
        bms.SetState(Charging);
      }
    } else {
      bms.IncrementInvalidEventCount();
    }
  }

  /** New cell voltages with an empty battery: leave once no cell is empty. */
  method CellVoltageUpdateWhileEmpty(bms: Bms, pins: array<bool>, r: Readings)
    requires pins.Length == NUM_PACKS
    modifies bms`state, bms`driveInhibited, bms`chargeInhibited, bms`invalidEventCount
    modifies bms.statusLight`onDuration, bms.statusLight`offDuration
    ensures Observe(bms, pins) == BatteryEmptyNext(old(Observe(bms, pins)), CellVoltageUpdate, r)
  {
    ChargeInhibitForColdOrFull(bms, r);
    if !r.emptyCell {
      var inhibited := OneOrMoreContactorsInhibited(pins);
      if inhibited && r.ignitionOn {
        bms.EnableDriveInhibit();
        bms.EnableChargeInhibit();
        bms.IncrementInvalidEventCount();
        bms.SetState(IllegalStateTransitionFault);
      } else {
        bms.DisableDriveInhibit();
        bms.SetState(Standby);
      }
    }
  }

  method StateOverTempFault(bms: Bms, pins: array<bool>, event: Event, r: Readings)
    requires pins.Length == |r.packVoltages| == NUM_PACKS
    modifies bms`state, bms`driveInhibited, bms`chargeInhibited, bms`invalidEventCount
    modifies bms.statusLight`onDuration, bms.statusLight`offDuration, pins
    ensures Observe(bms, pins) == OverTempFaultNext(old(Observe(bms, pins)), event, r)
  {
    if event.TemperatureUpdate? {
      if !r.overMaxTemperature {
        var inhibited := OneOrMoreContactorsInhibited(pins);
        if r.chargeEnabled {
          if inhibited {
            ReleaseContactorsForCharge(pins, r.packVoltages);
          }
          bms.DisableChargeInhibit();
          bms.SetState(Charging);
        } else if r.ignitionOn {
          if inhibited {
            ReleaseContactorsForDrive(pins, r.packVoltages);
          }
          bms.DisableChargeInhibit();
          bms.DisableDriveInhibit();
          bms.SetState(Drive);
        } else {
          bms.DisableDriveInhibit();
          bms.DisableChargeInhibit();
          bms.SetState(Standby);
        }
      }
    } else if event.CellVoltageUpdate? {
    } else if event.IgnitionOn? {
    } else if event.IgnitionOff? {
    } else if event.ChargingInitiated? {
    } else if event.ChargingTerminated? {
    } else {
      bms.IncrementInvalidEventCount();
    }
  }

  method StateIllegalStateTransitionFault(bms: Bms, pins: array<bool>, event: Event, r: Readings)
    requires pins.Length == NUM_PACKS
    modifies bms`state, bms`chargeInhibited, bms`invalidEventCount
    modifies bms.statusLight`onDuration, bms.statusLight`offDuration
    ensures Observe(bms, pins) == IllegalStateTransitionFaultNext(old(Observe(bms, pins)), event, r)
  {
    if event.TemperatureUpdate? {
    } else if event.CellVoltageUpdate? {
      if !bms.chargeInhibited && r.fullCell {
        bms.EnableChargeInhibit();
      }
    } else if event.IgnitionOn? {
    } else if event.IgnitionOff? {
      if !r.chargeEnabled {
        bms.SetState(Standby);
      }
    } else if event.ChargingInitiated? {
    } else if event.ChargingTerminated? {
      if !r.ignitionOn {
        bms.SetState(Standby);
      }
    } else {
      bms.IncrementInvalidEventCount();
    }
  }

  /** Hands the event to the current state's handler, and to no other. */
  method SendEvent(bms: Bms, pins: array<bool>, event: Event, r: Readings)
    requires pins.Length == |r.packVoltages| == NUM_PACKS
    modifies bms`state, bms`driveInhibited, bms`chargeInhibited, bms`heaterEnabled, bms`maxChargeCurrent
    modifies bms`invalidEventCount, bms`illegalStateTransition, bms`shuntResetRequests
    modifies bms.statusLight`onDuration, bms.statusLight`offDuration, pins
    ensures Observe(bms, pins) == Next(old(Observe(bms, pins)), event, r)
  {
    match bms.state
    case Standby => StateStandby(bms, pins, event, r);
    case Drive => StateDrive(bms, pins, event, r);
    case BatteryHeating => StateBatteryHeating(bms, pins, event, r);
    case Charging => StateCharging(bms, pins, event, r);
    case BatteryEmpty => StateBatteryEmpty(bms, pins, event, r);
    case OverTempFault => StateOverTempFault(bms, pins, event, r);
    case IllegalStateTransitionFault => StateIllegalStateTransitionFault(bms, pins, event, r);
  }

  // ---------------------------------------------------------------------
  // Properties of the transitions.
  // ---------------------------------------------------------------------

  /** The six events every state has a case for. */
  predicate Expected(e: Event) {
    e == TemperatureUpdate || e == CellVoltageUpdate || e == IgnitionOn || e == IgnitionOff
    || e == ChargingInitiated || e == ChargingTerminated
  }

  /** The events a state accepts; every other event is rejected and counted as invalid. */
  predicate Handled(s: State, e: Event) {
    match s
    case Standby => e == TemperatureUpdate || e == CellVoltageUpdate || e == IgnitionOn || e == ChargingInitiated
    case Drive => e == TemperatureUpdate || e == CellVoltageUpdate || e == IgnitionOff || e == ChargingInitiated
    case BatteryHeating => Expected(e) && e != ChargingInitiated
    case Charging => Expected(e) && e != ChargingInitiated
    case BatteryEmpty => Expected(e) && e != ChargingTerminated
    case OverTempFault => Expected(e)
    case IllegalStateTransitionFault => Expected(e)
  }

  /** A rejected event changes nothing but the invalid-event count. */
  lemma RejectedEventOnlyCounts(o: Outputs, e: Event, r: Readings)
    requires Fits(r) && !Handled(o.state, e)
    ensures Next(o, e, r) == o.(invalidEventCount := o.invalidEventCount + 1)
  {
    if o.state == Standby || o.state == Drive || o.state == BatteryHeating {
      RejectedInStandbyDriveOrHeating(o, e, r);
    } else if o.state == Charging || o.state == BatteryEmpty {
      RejectedInChargingOrEmpty(o, e, r);
    } else {
      RejectedInFault(o, e, r);
    }
  }

  lemma RejectedInStandbyDriveOrHeating(o: Outputs, e: Event, r: Readings)
    requires Fits(r) && !Handled(o.state, e) && (o.state == Standby || o.state == Drive || o.state == BatteryHeating)
    ensures Next(o, e, r) == o.(invalidEventCount := o.invalidEventCount + 1)
  {
  }

  lemma RejectedInChargingOrEmpty(o: Outputs, e: Event, r: Readings)
    requires Fits(r) && !Handled(o.state, e) && (o.state == Charging || o.state == BatteryEmpty)
    ensures Next(o, e, r) == o.(invalidEventCount := o.invalidEventCount + 1)
  {
  }

  lemma RejectedInFault(o: Outputs, e: Event, r: Readings)
    requires Fits(r) && !Handled(o.state, e) && (o.state == OverTempFault || o.state == IllegalStateTransitionFault)
    ensures Next(o, e, r) == o.(invalidEventCount := o.invalidEventCount + 1)
  {
  }

  /** New cell voltages with an empty cell stop driving, in standby and in drive, also when a temperature update falls through. */
  lemma EmptyCellStopsDriving(o: Outputs, e: Event, r: Readings)
    requires Fits(r) && (o.state == Standby || o.state == Drive) && r.emptyCell
    requires e == CellVoltageUpdate || (e == TemperatureUpdate && !r.overMaxTemperature)
    ensures Next(o, e, r).state == BatteryEmpty && Next(o, e, r).driveInhibited
  {
  }

  /**
   * In standby, new cell voltages (or a temperature update that falls
   * through to them) inhibit every pack's contactors when the packs are
   * imbalanced and release every pack when they are not; with two packs
   * below 1000 V that means exactly when they differ by 10 mV or more.
   */
  lemma StandbyContactorsFollowImbalance(o: Outputs, e: Event, r: Readings)
    requires Fits(r) && o.state == Standby
    requires e == CellVoltageUpdate || (e == TemperatureUpdate && !r.overMaxTemperature)
    requires forall p :: 0 <= p < NUM_PACKS ==> 0 <= r.packVoltages[p] < 1000000
    ensures var v := r.packVoltages;
      forall p :: 0 <= p < NUM_PACKS ==>
        (Next(o, e, r).contactorsInhibited[p] <==>
          (v[0] - v[1] >= SAFE_VOLTAGE_DELTA_BETWEEN_PACKS || v[1] - v[0] >= SAFE_VOLTAGE_DELTA_BETWEEN_PACKS))
  {
    var v := r.packVoltages;
    TwoPacksImbalancedIff(v[0], v[1]);
    assert v == [v[0], v[1]];
  }

  /**
   * A charge request while driving: with some pack inhibited the packs
   * cannot be switched over, so both inhibits go on, the illegal transition
   * is flagged and the fault state entered; otherwise the drive inhibit goes
   * on and charging starts with the contactors as they are.
   */
  lemma ChargeRequestWhileDriving(o: Outputs, r: Readings)
    requires Fits(r) && o.state == Drive
    ensures var n := Next(o, ChargingInitiated, r);
      && (AnyInhibited(o.contactorsInhibited) ==>
            n.state == IllegalStateTransitionFault && n.driveInhibited && n.chargeInhibited && n.illegalStateTransition)
      && (!AnyInhibited(o.contactorsInhibited) ==>
            n.state == Charging && n.driveInhibited && n.chargeInhibited == o.chargeInhibited
            && n.illegalStateTransition == o.illegalStateTransition)
      && n.contactorsInhibited == o.contactorsInhibited && n.invalidEventCount == o.invalidEventCount
  {
  }

  /**
   * A sensor over the maximum temperature inhibits driving and charging. From
   * standby, drive, heating and an empty battery the state machine enters the
   * over-temperature fault; while charging it stays in charging, and the
   * heater ends up on exactly when the battery is also too cold to charge.
   */
  lemma OverTemperatureStopsEverything(o: Outputs, r: Readings)
    requires Fits(r) && r.overMaxTemperature
    ensures var n := Next(o, TemperatureUpdate, r);
      && (o.state in {Standby, Drive, BatteryHeating, BatteryEmpty} ==>
            n.state == OverTempFault && n.driveInhibited && n.chargeInhibited
            && n.heaterEnabled == o.heaterEnabled && n.contactorsInhibited == o.contactorsInhibited)
      && (o.state == Charging ==>
            n.state == Charging && n.driveInhibited && n.chargeInhibited && (n.heaterEnabled <==> r.tooColdToCharge))
      && (o.state == OverTempFault ==> n == o)
  {
    match o.state
    case Standby => assert Next(o, TemperatureUpdate, r) == StandbyNext(o, TemperatureUpdate, r);
    case Drive => assert Next(o, TemperatureUpdate, r) == DriveNext(o, TemperatureUpdate, r);
    case BatteryHeating => assert Next(o, TemperatureUpdate, r) == BatteryHeatingNext(o, TemperatureUpdate, r);
    case BatteryEmpty => assert Next(o, TemperatureUpdate, r) == BatteryEmptyNext(o, TemperatureUpdate, r);
    case Charging => assert Next(o, TemperatureUpdate, r) == ChargingNext(o, TemperatureUpdate, r);
    case OverTempFault =>
    case IllegalStateTransitionFault =>
  }

  /**
   * The over-temperature fault is left only on a temperature update with no
   * sensor over the maximum: to charging when charge is enabled, else to drive
   * when the ignition is on, else to standby. The charge inhibit is released
   * on leaving, the drive inhibit everywhere but into charging.
   */
  lemma OverTemperatureRecovery(o: Outputs, e: Event, r: Readings)
    requires Fits(r) && o.state == OverTempFault && Expected(e)
    ensures var n := Next(o, e, r);
      && n.state == (if e == TemperatureUpdate && !r.overMaxTemperature then
                       if r.chargeEnabled then Charging else if r.ignitionOn then Drive else Standby
                     else OverTempFault)
      && (n.state != OverTempFault ==>
            !n.chargeInhibited && (n.state == Charging ==> n.driveInhibited == o.driveInhibited)
            && (n.state != Charging ==> !n.driveInhibited))
  {
  }

  /**
   * When charging stops the next state is chosen in priority order: the
   * over-temperature fault, the illegal-transition fault (some pack
   * inhibited and the ignition on), an empty battery, drive (ignition on),
   * standby. A full battery also asks for a shunt counter reset.
   */
  lemma ChargingTerminatedPriority(o: Outputs, r: Readings)
    requires Fits(r) && o.state == Charging
    ensures var n := Next(o, ChargingTerminated, r);
      && n.state == (if r.overMaxTemperature then OverTempFault
                     else if AnyInhibited(o.contactorsInhibited) && r.ignitionOn then IllegalStateTransitionFault
                     else if r.emptyCell then BatteryEmpty
                     else if r.ignitionOn then Drive
                     else Standby)
      && n.shuntResetRequests == o.shuntResetRequests + (if r.fullCell then 1 else 0)
      && n.contactorsInhibited == o.contactorsInhibited
  {
  }

  /**
   * The illegal-transition fault is left only for standby: on ignition off
   * with charge not enabled, or on charging stopped with the ignition off. It
   * never releases an inhibit.
   */
  lemma IllegalTransitionFaultExit(o: Outputs, e: Event, r: Readings)
    requires Fits(r) && o.state == IllegalStateTransitionFault
    ensures var n := Next(o, e, r);
      && (n.state == Standby || n.state == IllegalStateTransitionFault)
      && (n.state == Standby <==> (e == IgnitionOff && !r.chargeEnabled) || (e == ChargingTerminated && !r.ignitionOn))
      && n.driveInhibited == o.driveInhibited && (o.chargeInhibited ==> n.chargeInhibited)
      && n.contactorsInhibited == o.contactorsInhibited
  {
  }

  lemma HeatingKeepsContactors(o: Outputs, e: Event, r: Readings)
    requires Fits(r) && o.state == BatteryHeating
    ensures BatteryHeatingNext(o, e, r).contactorsInhibited == o.contactorsInhibited
  {
  }

  lemma ChargingKeepsContactors(o: Outputs, e: Event, r: Readings)
    requires Fits(r) && o.state == Charging
    ensures ChargingNext(o, e, r).contactorsInhibited == o.contactorsInhibited
  {
  }

  lemma EmptyKeepsContactors(o: Outputs, e: Event, r: Readings)
    requires Fits(r) && o.state == BatteryEmpty
    ensures BatteryEmptyNext(o, e, r).contactorsInhibited == o.contactorsInhibited
  {
  }

  /** Only standby, drive and the over-temperature fault touch the contactor inhibits. */
  lemma ContactorsHeldOutsideDriveDecisions(o: Outputs, e: Event, r: Readings)
    requires Fits(r) && o.state in {BatteryHeating, Charging, BatteryEmpty, IllegalStateTransitionFault}
    ensures Next(o, e, r).contactorsInhibited == o.contactorsInhibited
  {
    match o.state
    case BatteryHeating => HeatingKeepsContactors(o, e, r);
    case Charging => ChargingKeepsContactors(o, e, r);
    case BatteryEmpty => EmptyKeepsContactors(o, e, r);
    case IllegalStateTransitionFault => IllegalTransitionFaultExit(o, e, r);
  }

  // ---------------------------------------------------------------------
  // The outputs each state stands for.
  // ---------------------------------------------------------------------

  /** States in which the car must not drive, and in which the battery must not be charged. */
  predicate DriveForbidden(s: State) {
    s == BatteryHeating || s == Charging || s == BatteryEmpty || s == OverTempFault || s == IllegalStateTransitionFault
  }

  predicate ChargeForbidden(s: State) {
    s == OverTempFault || s == IllegalStateTransitionFault
  }

  /**
   * Driving is inhibited in every state but standby and drive, charging in
   * both fault states, and while heating the heater is on and charging
   * inhibited.
   */
  predicate Safe(o: Outputs) {
    (DriveForbidden(o.state) ==> o.driveInhibited)
    && (ChargeForbidden(o.state) ==> o.chargeInhibited)
    && (o.state == BatteryHeating ==> o.heaterEnabled && o.chargeInhibited)
  }

  lemma StandbyKeepsSafe(o: Outputs, e: Event, r: Readings)
    requires Fits(r) && o.state == Standby && Safe(o)
    ensures Safe(StandbyNext(o, e, r))
  {
  }

  lemma DriveKeepsSafe(o: Outputs, e: Event, r: Readings)
    requires Fits(r) && o.state == Drive && Safe(o)
    ensures Safe(DriveNext(o, e, r))
  {
  }

  lemma HeatingKeepsSafe(o: Outputs, e: Event, r: Readings)
    requires Fits(r) && o.state == BatteryHeating && Safe(o)
    ensures Safe(BatteryHeatingNext(o, e, r))
  {
  }

  lemma ChargingKeepsSafe(o: Outputs, e: Event, r: Readings)
    requires Fits(r) && o.state == Charging && Safe(o)
    ensures Safe(ChargingNext(o, e, r))
  {
  }

  lemma EmptyKeepsSafe(o: Outputs, e: Event, r: Readings)
    requires Fits(r) && o.state == BatteryEmpty && Safe(o)
    ensures Safe(BatteryEmptyNext(o, e, r))
  {
  }

  lemma OverTempKeepsSafe(o: Outputs, e: Event, r: Readings)
    requires Fits(r) && o.state == OverTempFault && Safe(o)
    ensures Safe(OverTempFaultNext(o, e, r))
  {
  }

  lemma IllegalFaultKeepsSafe(o: Outputs, e: Event, r: Readings)
    requires Fits(r) && o.state == IllegalStateTransitionFault && Safe(o)
    ensures Safe(IllegalStateTransitionFaultNext(o, e, r))
  {
  }

  /** Every transition from safe outputs leads to safe outputs. */
  lemma NextKeepsSafe(o: Outputs, e: Event, r: Readings)
    requires Fits(r) && Safe(o)
    ensures Safe(Next(o, e, r))
  {
    match o.state
    case Standby => StandbyKeepsSafe(o, e, r);
    case Drive => DriveKeepsSafe(o, e, r);
    case BatteryHeating => HeatingKeepsSafe(o, e, r);
    case Charging => ChargingKeepsSafe(o, e, r);
    case BatteryEmpty => EmptyKeepsSafe(o, e, r);
    case OverTempFault => OverTempKeepsSafe(o, e, r);
    case IllegalStateTransitionFault => IllegalFaultKeepsSafe(o, e, r);
  }

  /** The outputs after a sequence of events, each with what its handler reads. */
  function Run(o: Outputs, steps: seq<(Event, Readings)>): Outputs
    requires forall i :: 0 <= i < |steps| ==> |steps[i].1.packVoltages| == NUM_PACKS
    decreases |steps|
  {
    if steps == [] then o
    else
      Run(Next(o, steps[0].0, steps[0].1), steps[1..])
  }

  /** From safe outputs, every sequence of events keeps the outputs safe. */
  lemma {:induction false} RunKeepsSafe(o: Outputs, steps: seq<(Event, Readings)>)
    requires Safe(o)
    requires forall i :: 0 <= i < |steps| ==> |steps[i].1.packVoltages| == NUM_PACKS
    ensures Safe(Run(o, steps))
    decreases |steps|
  {
    if steps != [] {
      NextKeepsSafe(o, steps[0].0, steps[0].1);
      RunKeepsSafe(Next(o, steps[0].0, steps[0].1), steps[1..]);
    }
  }

  // ---------------------------------------------------------------------
  // Behaviour as written that a reader might not expect.
  // ---------------------------------------------------------------------

  /**
   * When charging stops with the ignition on, nothing inhibited, no sensor
   * over the maximum and no empty cell, the state machine enters drive with
   * the drive inhibit it had while charging still on.
   */
  lemma DriveEnteredWithDriveInhibited(o: Outputs, r: Readings)
    requires Fits(r) && o.state == Charging && Safe(o)
    requires !r.overMaxTemperature && !AnyInhibited(o.contactorsInhibited) && !r.emptyCell && r.ignitionOn
    ensures Next(o, ChargingTerminated, r).state == Drive && Next(o, ChargingTerminated, r).driveInhibited
  {
  }

  /**
   * When charging stops with the ignition off, the state machine returns to
   * standby with the drive inhibit of charging still on, and a later
   * ignition-on event enters drive with driving still inhibited.
   */
  lemma StandbyEnteredWithDriveInhibited(o: Outputs, r: Readings, r2: Readings)
    requires Fits(r) && Fits(r2) && o.state == Charging && Safe(o)
    requires !r.overMaxTemperature && !r.emptyCell && !r.ignitionOn
    ensures var s := Next(o, ChargingTerminated, r);
      s.state == Standby && s.driveInhibited
      && Next(s, IgnitionOn, r2).state == Drive && Next(s, IgnitionOn, r2).driveInhibited
  {
  }

  /**
   * Leaving an empty battery for the illegal-transition fault counts an
   * invalid event and does not set the illegal-transition flag.
   */
  lemma EmptyBatteryFaultIsNotFlagged(o: Outputs, r: Readings)
    requires Fits(r) && o.state == BatteryEmpty
    requires !r.emptyCell && AnyInhibited(o.contactorsInhibited) && r.ignitionOn
    ensures var n := Next(o, CellVoltageUpdate, r);
      n.state == IllegalStateTransitionFault && n.invalidEventCount == o.invalidEventCount + 1
      && n.illegalStateTransition == o.illegalStateTransition
  {
  }

  /**
   * In drive, a temperature update falls through to the cell-voltage branch,
   * which sets the charge inhibit from the full-cell test alone: a battery
   * too cold to charge ends the update with charging allowed.
   */
  lemma DriveTemperatureUpdateForgetsCold(o: Outputs, r: Readings)
    requires Fits(r) && o.state == Drive
    requires r.tooColdToCharge && !r.fullCell && !r.emptyCell && !r.overMaxTemperature
    ensures !Next(o, TemperatureUpdate, r).chargeInhibited
  {
  }

  /**
   * The heater is not switched off when the battery overheats while being
   * heated, nor when the over-temperature fault clears: a charge request in
   * the cold, an overheat, then cooling with the ignition on ends in drive
   * with the heater still on.
   */
  lemma HeaterLeftOnAfterOverheat(o: Outputs, cold: Readings, hot: Readings, cool: Readings)
    requires Fits(cold) && Fits(hot) && Fits(cool) && o.state == Standby
    requires cold.tooColdToCharge && hot.overMaxTemperature
    requires !cool.overMaxTemperature && !cool.chargeEnabled && cool.ignitionOn
    ensures var n := Run(o, [(ChargingInitiated, cold), (TemperatureUpdate, hot), (TemperatureUpdate, cool)]);
      n.state == Drive && n.heaterEnabled
  {
    var steps := [(ChargingInitiated, cold), (TemperatureUpdate, hot), (TemperatureUpdate, cool)];
    var o1 := Next(o, ChargingInitiated, cold);
    var o2 := Next(o1, TemperatureUpdate, hot);
    assert steps[1..] == [(TemperatureUpdate, hot), (TemperatureUpdate, cool)];
    assert steps[1..][1..] == [(TemperatureUpdate, cool)];
    assert Run(o, steps) == Run(o1, steps[1..]);
    assert Run(o1, steps[1..]) == Run(o2, steps[1..][1..]);
  }
}
