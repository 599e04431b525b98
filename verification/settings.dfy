/**
 * Configuration constants of the two-pack battery management system.
 * Voltages are in millivolts, temperatures in degrees Celsius, currents in
 * amps, charge in amp-seconds.
 */
module Settings {
  /** Topology of the battery. */
  const NUM_PACKS := 2
  const CELLS_PER_MODULE := 16
  const TEMPS_PER_MODULE := 4
  const MODULES_PER_PACK := 6

  /** Two packs whose voltages differ by this much or more are imbalanced. */
  const SAFE_VOLTAGE_DELTA_BETWEEN_PACKS := 10

  /** Temperature thresholds. */
  const WARNING_TEMPERATURE := 30
  const MAXIMUM_TEMPERATURE := 50
  const CHARGE_TEMPERATURE_MINIMUM := -10
  const CHARGE_TEMPERATURE_DERATING_MINIMUM := 15
  const CHARGE_TEMPERATURE_DERATING_THRESHOLD := 1

  /** Capacity of the battery in amp-seconds. */
  const BATTERY_CAPACITY_AS := 187200

  /** Cell voltage limits. */
  const CELL_EMPTY_VOLTAGE := 2900
  const CELL_FULL_VOLTAGE := 4000

  /** Charge current limit and the temperature from which it is throttled. */
  const CHARGE_THROTTLE_TEMP_LOW := 20
  const CHARGE_CURRENT_MAX := 125

  /** Identifiers of the CAN frames the system sends. */
  const BMS_LIMITS_MSG_ID := 0x351
  const BMS_STATE_MSG_ID := 0x352
  const BMS_MODULE_LIVENESS_MSG_ID := 0x353
  const BMS_SOC_MSG_ID := 0x355
  const BMS_STATUS_MSG_ID := 0x356
  const BMS_ALARM_MSG_ID := 0x35A
  const ISA_RESET_MSG_ID := 0x411
}
