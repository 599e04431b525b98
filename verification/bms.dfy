/**
 * The battery management object: the current state of the state machine,
 * the drive inhibit, charge inhibit and heater outputs it commands, the
 * state of charge, the error flag, the charge current limit and the status
 * light.
 */
module Management {
  import opened Settings
  import opened CTypes
  import opened States
  import opened StatusLights

  /** The blink pattern each state shows: heating shares the charging pattern, every fault state the fault one. */
  function LedModeFor(s: State): (mode: LedMode)
    ensures mode == StandbyMode <==> s == Standby
    ensures mode == DriveMode <==> s == Drive
    ensures mode == ChargingMode <==> s == BatteryHeating || s == Charging
    ensures mode == FaultMode <==> s == BatteryEmpty || s == OverTempFault || s == IllegalStateTransitionFault
  {
    match s
    case Standby => StandbyMode
    case Drive => DriveMode
    case BatteryHeating => ChargingMode
    case Charging => ChargingMode
    case _ => FaultMode
  }

  // ---------------------------------------------------------------------
  // Error and status bytes of the status frame.
  // ---------------------------------------------------------------------

  /** The lowest bit of a byte, and the byte shifted right by one. */
  predicate Low(b: nat) { b % 2 == 1 }
  function Shr(b: nat): nat { b / 2 }

  lemma Halve(b: nat)
    ensures b == FromBool(Low(b)) + 2 * Shr(b)
  {
  }

  /** Bit 0: internal error, bit 1: packs imbalanced, bit 2: shunt dead. */
  function ErrorByte(internalError: bool, imbalanced: bool, shuntDead: bool): (b: uint8)
    ensures b < 8
  {
    FromBool(internalError) + 2 * FromBool(imbalanced) + 4 * FromBool(shuntDead)
  }

  function DecodeErrorByte(b: uint8): (bool, bool, bool) {
    (Low(b), Low(Shr(b)), Low(Shr(Shr(b))))
  }

  /** The three error flags survive the trip through the byte, and every byte below 8 is some set of flags. */
  lemma ErrorByteRoundTrip(internalError: bool, imbalanced: bool, shuntDead: bool, b: uint8)
    ensures DecodeErrorByte(ErrorByte(internalError, imbalanced, shuntDead)) == (internalError, imbalanced, shuntDead)
    ensures b < 8 ==> ErrorByte(Low(b), Low(Shr(b)), Low(Shr(Shr(b)))) == b
  {
    Halve(b);
    Halve(Shr(b));
    Halve(Shr(Shr(b)));
  }

  /** Bit 0: charge inhibited, 1: drive inhibited, 2: heater on, 3: ignition on, 4: charge enable on. */
  function StatusByte(chargeInhibited: bool, driveInhibited: bool, heaterEnabled: bool,
                      ignitionOn: bool, chargeEnabled: bool): (b: uint8)
    ensures b < 32
  {
    FromBool(chargeInhibited) + 2 * FromBool(driveInhibited) + 4 * FromBool(heaterEnabled)
      + 8 * FromBool(ignitionOn) + 16 * FromBool(chargeEnabled)
  }

  function DecodeStatusByte(b: uint8): (bool, bool, bool, bool, bool) {
    (Low(b), Low(Shr(b)), Low(Shr(Shr(b))), Low(Shr(Shr(Shr(b)))), Low(Shr(Shr(Shr(Shr(b))))))
  }

  /** The five status flags survive the trip through the byte, and every byte below 32 is some set of flags. */
  lemma StatusByteRoundTrip(chargeInhibited: bool, driveInhibited: bool, heaterEnabled: bool,
                            ignitionOn: bool, chargeEnabled: bool, b: uint8)
    ensures DecodeStatusByte(StatusByte(chargeInhibited, driveInhibited, heaterEnabled, ignitionOn, chargeEnabled))
            == (chargeInhibited, driveInhibited, heaterEnabled, ignitionOn, chargeEnabled)
    ensures b < 32 ==> StatusByte(Low(b), Low(Shr(b)), Low(Shr(Shr(b))), Low(Shr(Shr(Shr(b)))), Low(Shr(Shr(Shr(Shr(b)))))) == b
  {
    var s := StatusByte(chargeInhibited, driveInhibited, heaterEnabled, ignitionOn, chargeEnabled);
    assert Shr(s) == FromBool(driveInhibited) + 2 * FromBool(heaterEnabled) + 4 * FromBool(ignitionOn) + 8 * FromBool(chargeEnabled);
    assert Shr(Shr(s)) == FromBool(heaterEnabled) + 2 * FromBool(ignitionOn) + 4 * FromBool(chargeEnabled);
    assert Shr(Shr(Shr(s))) == FromBool(ignitionOn) + 2 * FromBool(chargeEnabled);
    Halve(b);
    Halve(Shr(b));
    Halve(Shr(Shr(b)));
    Halve(Shr(Shr(Shr(b))));
    Halve(Shr(Shr(Shr(Shr(b)))));
  }

  // ---------------------------------------------------------------------
  // State of charge.
  // ---------------------------------------------------------------------

  /**
   * State of charge in percent from the shunt's amp-second count, which is
   * 0 when full and falls as charge is drawn: 100 * (capacity + count) /
   * capacity in 32-bit int arithmetic, stored in a uint8.
   */
  function SocFromAmpSeconds(ampSeconds: int32): uint8 {
    U8(CDiv(I32(100 * I32(BATTERY_CAPACITY_AS + ampSeconds)), BATTERY_CAPACITY_AS))
  }

  /** Between empty and full the state of charge is the percentage of capacity left, rounded down. */
  lemma SocWithinCapacity(ampSeconds: int32)
    requires -BATTERY_CAPACITY_AS <= ampSeconds <= 0
    ensures SocFromAmpSeconds(ampSeconds) == 100 * (BATTERY_CAPACITY_AS + ampSeconds) / BATTERY_CAPACITY_AS
    ensures SocFromAmpSeconds(ampSeconds) <= 100
    ensures ampSeconds == 0 ==> SocFromAmpSeconds(ampSeconds) == 100
    ensures ampSeconds == -BATTERY_CAPACITY_AS ==> SocFromAmpSeconds(ampSeconds) == 0
  {
    var x := BATTERY_CAPACITY_AS + ampSeconds;
    assert 0 <= 100 * x <= 100 * BATTERY_CAPACITY_AS;
    assert I32(x) == x;
    assert I32(100 * x) == 100 * x;
    assert 100 * x / BATTERY_CAPACITY_AS <= 100;
  }

  /** Drawing more charge never raises the state of charge. */
  lemma SocMonotone(a: int32, b: int32)
    requires -BATTERY_CAPACITY_AS <= a <= b <= 0
    ensures SocFromAmpSeconds(a) <= SocFromAmpSeconds(b)
  {
    SocWithinCapacity(a);
    SocWithinCapacity(b);
  }

  /**
   * Drawing one percent more than the capacity gives -1 percent, which the
   * uint8 store reports as 255 percent.
   */
  lemma SocWrapsBelowEmpty()
    ensures SocFromAmpSeconds(-BATTERY_CAPACITY_AS - 1872) == 255
  {
  }

  // ---------------------------------------------------------------------
  // The object.
  // ---------------------------------------------------------------------

  class Bms {
    var state: State
    /** Commanded outputs. */
    var driveInhibited: bool
    var chargeInhibited: bool
    var heaterEnabled: bool
    var soc: uint8
    var internalError: bool
    var maxChargeCurrent: int8
    var maxDischargeCurrent: int8
    /** Diagnostics the state machine records. */
    var invalidEventCount: nat
    var illegalStateTransition: bool
    var shuntResetRequests: nat
    /** Heartbeats recorded whenever a voltage update finds the packs balanced. */
    var packVoltagesMatchHeartbeats: nat
    const statusLight: StatusLight

    /** A new object starts in standby with no internal error and a new, dark status light. */
    constructor ()
      ensures state == Standby && !internalError
      ensures fresh(statusLight) && statusLight.State() == Light(false, 0, 0, 0)
      ensures invalidEventCount == 0 && !illegalStateTransition && shuntResetRequests == 0
      ensures packVoltagesMatchHeartbeats == 0
    {
      state := Standby;
      internalError := false;
      invalidEventCount := 0;
      illegalStateTransition := false;
      shuntResetRequests := 0;
      packVoltagesMatchHeartbeats := 0;
      statusLight := new StatusLight();
    }

    /** Switches state and changes the blink pattern to the new state's. */
    method SetState(newState: State)
      modifies this`state, statusLight`onDuration, statusLight`offDuration
      ensures state == newState
      ensures (statusLight.onDuration, statusLight.offDuration) == ModeDurations(LedModeFor(newState))
      ensures statusLight.on == old(statusLight.on) && statusLight.counter == old(statusLight.counter)
    {
      state := newState;
      if state == Standby {
        statusLight.SetMode(StandbyMode);
      } else if state == Drive {
        statusLight.SetMode(DriveMode);
      } else if state == BatteryHeating {
        statusLight.SetMode(ChargingMode);
      } else if state == Charging {
        statusLight.SetMode(ChargingMode);
      } else {
        statusLight.SetMode(FaultMode);
      }
    }

    method EnableDriveInhibit()
      modifies this`driveInhibited
      ensures driveInhibited
    {
      driveInhibited := true;
    }

    method DisableDriveInhibit()
      modifies this`driveInhibited
      ensures !driveInhibited
    {
      driveInhibited := false;
    }

    method EnableChargeInhibit()
      modifies this`chargeInhibited
      ensures chargeInhibited
    {
      chargeInhibited := true;
    }

    method DisableChargeInhibit()
      modifies this`chargeInhibited
      ensures !chargeInhibited
    {
      chargeInhibited := false;
    }

    method EnableHeater()
      modifies this`heaterEnabled
      ensures heaterEnabled
    {
      heaterEnabled := true;
    }

    method DisableHeater()
      modifies this`heaterEnabled
      ensures !heaterEnabled
    {
      heaterEnabled := false;
    }

    method RecalculateSoc(ampSeconds: int32)
      modifies this`soc
      ensures soc == SocFromAmpSeconds(ampSeconds)
    {
      soc := U8(CDiv(I32(100 * I32(BATTERY_CAPACITY_AS + ampSeconds)), BATTERY_CAPACITY_AS));
    }

    method SetInternalError()
      modifies this`internalError
      ensures internalError
    {
      internalError := true;
    }

    method ClearInternalError()
      modifies this`internalError
      ensures !internalError
    {
      internalError := false;
    }

    method GetErrorByte(imbalanced: bool, shuntDead: bool) returns (b: uint8)
      ensures b == ErrorByte(internalError, imbalanced, shuntDead)
      ensures DecodeErrorByte(b) == (internalError, imbalanced, shuntDead)
    {
      b := FromBool(internalError) + 2 * FromBool(imbalanced) + 4 * FromBool(shuntDead);
      ErrorByteRoundTrip(internalError, imbalanced, shuntDead, b);
    }

    method GetStatusByte(ignitionOn: bool, chargeEnabled: bool) returns (b: uint8)
      ensures b == StatusByte(chargeInhibited, driveInhibited, heaterEnabled, ignitionOn, chargeEnabled)
      ensures DecodeStatusByte(b) == (chargeInhibited, driveInhibited, heaterEnabled, ignitionOn, chargeEnabled)
    {
      b := FromBool(chargeInhibited) + 2 * FromBool(driveInhibited) + 4 * FromBool(heaterEnabled)
        + 8 * FromBool(ignitionOn) + 16 * FromBool(chargeEnabled);
      StatusByteRoundTrip(chargeInhibited, driveInhibited, heaterEnabled, ignitionOn, chargeEnabled, b);
    }

    /**
     * At or below the throttling temperature the limit is the full 125 A;
     * above it, the throttled current (computed in floating point by the
     * firmware and truncated to int) is stored in the int8 field.
     */
    method UpdateMaxChargeCurrent(highestTemperature: int, throttledCurrent: int)
      modifies this`maxChargeCurrent
      ensures highestTemperature <= CHARGE_THROTTLE_TEMP_LOW ==> maxChargeCurrent == CHARGE_CURRENT_MAX
      ensures highestTemperature > CHARGE_THROTTLE_TEMP_LOW ==> maxChargeCurrent == I8(throttledCurrent)
    {
      if highestTemperature > CHARGE_THROTTLE_TEMP_LOW {
        maxChargeCurrent := I8(throttledCurrent);
      } else {
        maxChargeCurrent := I8(CHARGE_CURRENT_MAX);
      }
    }

    method UpdateMaxDischargeCurrent()
      modifies this`maxDischargeCurrent
      ensures maxDischargeCurrent == 100
    {
      maxDischargeCurrent := 100;
    }

    method IncrementInvalidEventCount()
      modifies this`invalidEventCount
      ensures invalidEventCount == old(invalidEventCount) + 1
    {
      invalidEventCount := invalidEventCount + 1;
    }

    method SetIllegalStateTransition()
      modifies this`illegalStateTransition
      ensures illegalStateTransition
    {
      illegalStateTransition := true;
    }

    method SendShuntResetMessage()
      modifies this`shuntResetRequests
      ensures shuntResetRequests == old(shuntResetRequests) + 1
    {
      shuntResetRequests := shuntResetRequests + 1;
    }

    method PackVoltagesMatchHeartbeat()
      modifies this`packVoltagesMatchHeartbeats
      ensures packVoltagesMatchHeartbeats == old(packVoltagesMatchHeartbeats) + 1
    {
      packVoltagesMatchHeartbeats := packVoltagesMatchHeartbeats + 1;
    }

    method LedBlink()
      modifies statusLight`on, statusLight`counter
      ensures statusLight.State() == Blink(old(statusLight.State()))
    {
      statusLight.LedBlink();
    }
  }
}
