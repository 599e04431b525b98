# Two-pack battery management system, modelled in Dafny

This project models the control core of a battery management system (BMS)
for an electric car whose battery is built from two packs of salvaged
modules. Each pack has six modules of sixteen cells and four
temperature sensors, and each pack has its own contactor with an inhibit
line. The BMS polls the modules over one CAN bus per pack and decodes
the voltage and temperature frames. It keeps the pack and battery
aggregates current: lowest and highest cell, cell delta, sensor
extremes and pack imbalance. It also decides which contactors may
close. A state machine (standby, drive, battery heating, charging,
battery empty, over-temperature fault and illegal-state-transition fault)
reacts to events and sets the drive-inhibit, charge-inhibit and heater
outputs. Reports go out on the vehicle's main CAN bus, and the bus's
current-shunt frames are decoded on the way in.

Modules, following the source files:

| Dafny module | file | source |
|---|---|---|
| `Settings` | settings.dfy | constants of `settings.h` |
| `CTypes` | ctypes.dfy | C integer conversions: `uint8_t`, `uint16_t`, `uint32_t`, `int8_t`, `int32_t`, division truncating toward zero |
| `CanFrames` | can.dfy | the `can_frame` record |
| `Cells` | module.dfy | `BatteryModule` (src/module.cpp) |
| `Packs` | pack.dfy | `BatteryPack` (src/pack.cpp) |
| `Batteries` | battery.dfy | `Battery` (src/battery.cpp) |
| `StatusLights` | led.dfy | `StatusLight` (src/led.cpp) |
| `Management` | bms.dfy | `Bms` (src/bms.cpp) |
| `States` | states.dfy | state enumeration and state names (src/include/statemachine.h, src/statemachine.cpp) |
| `StateMachine` | statemachine.dfy | the seven state handlers (src/statemachine.cpp) |
| `Comms` | comms.dfy | main-bus senders and the shunt-frame handler (src/comms.cpp) |

The classes (`BatteryModule`, `BatteryPack`, `Battery`, `Bms`,
`StatusLight`, `MainBus`, `ShuntReceiver`) keep the source's fields and
update them in place. The module's cell and temperature buffers and the
contactor inhibit pins are `array`s. Each scanning loop of the source
is a `method` with a `while` loop. That method is proved against a
function on the array's contents, and the properties are proved about
that function.

The state machine is modelled twice:
- Each handler is a method that changes a `Bms` object and the inhibit
  pins as the source's handler does.
- A pure transition function `Next` acts on the observable outputs:
  state, drive inhibit, charge inhibit, heater, contactor inhibits,
  invalid-event count, illegal-transition flag and shunt-reset requests.

Every handler method's postcondition is that its effect on the outputs
equals the transition function. The safety invariant `Safe` is then
proved for `Next`, and for any run of events, by `RunKeepsSafe`. `Safe`
says:
- driving is inhibited in every state other than standby and drive;
- charging is inhibited in both fault states;
- heating means the heater is on and charging is inhibited.

Behaviour of the code that looks unintended is modelled as written, and a
lemma exhibits it on a concrete input. Examples:
- The low-pack scan always answers pack 0, because it tests pack 0's
  voltage on every pass.
- The module's "populated" flag is inverted.
- The charge-current table is indexed past its end above 40 °C.
- The lowest-cell scan of the battery skips pack 0.
- A charge termination in the charging state enters drive with driving
  still inhibited.

The inhibits are latched outputs: the state handlers of
src/statemachine.cpp set and clear them, and they keep their value until
a handler changes them again, and nothing is debounced. Standby does not
clear the drive inhibit: a charge that ends with the ignition off returns
to standby with driving still inhibited, and a later ignition-on enters
drive with the inhibit still set (`StateMachine.StandbyEnteredWithDriveInhibited`). An empty cell in standby or drive
inhibits driving at the next update (`StateMachine.EmptyCellStopsDriving`).

Further points of the model:
- The handlers use two events, `E_TEMPERATURE_UPDATE` and
  `E_CELL_VOLTAGE_UPDATE`, that the enumeration in
  src/include/statemachine.h:23-40 does not declare; the model's `Event`
  includes them.
- Three message identifiers are literals in src/comms.cpp: 0x411
  (:47), 0x352 (:145) and 0x353 (:203). The names `ISA_RESET_MSG_ID`,
  `BMS_STATE_MSG_ID` and `BMS_MODULE_LIVENESS_MSG_ID` are the model's own.
- src/settings.h does not define some constants, which are taken from
  test/settings.h: the identifiers 0x351, 0x355, 0x356 and 0x35A
  (test/settings.h:108-111), the charge throttle temperature and the
  maximum charge current.

## Model

| member | source | states |
|---|---|---|
| `Cells.CellSumBounds` | src/module.cpp:77-83 | the module voltage is the sum of its cells and lies between 0 and 0xFFFF per cell |
| `Cells.LowestCellIsMinimum` | src/module.cpp:86-95 | the lowest-cell scan (starting at 10000 mV) is at most every cell and equals a cell unless it stays at 10000 |
| `Cells.HighestCellIsMaximum` | src/module.cpp:98-107 | the highest-cell scan (starting at 0) is at least every cell and equals a cell unless it stays at 0 |
| `Cells.EmptyCellIffLowestBelowEmpty` | src/module.cpp:116-123 | a module has an empty cell exactly when its lowest cell is below the empty threshold |
| `Cells.FullCellIffHighestAboveFull` | src/module.cpp:126-133 | a module has a full cell exactly when its highest cell is above the full threshold |
| `Cells.PopulatedFlagInverted` | src/module.cpp:146-160 | as written, the flag is never set when every cell has a reading, and never set when no sensor has a reading |
| `Cells.NoReadingLowestIsMinusOne` | src/module.cpp:182-194 | with no temperature reading the lowest temperature is the 255 start value cast to int8, that is -1 |
| `Cells.NoReadingScanStaysAt255` | src/module.cpp:182-194 | readings below -127 never replace the 255 start value of the scan |
| `Cells.LowestTemperatureOfNonNegativeReadings` | src/module.cpp:182-194 | over non-negative readings the scan is the minimum reading and is returned unchanged |
| `Cells.NegativeReadingLostToLaterReading` | src/module.cpp:182-194 | a negative reading compared against the uint8 accumulator is lost: readings -5 and 20 give 20 |
| `Cells.OverMaxIffSomeSensorOverMax` | src/module.cpp:197-214 | the highest temperature exceeds the maximum exactly when some sensor does |
| `Cells.WarningLevelWhenBeyondIsCool` | src/module.cpp:220-227 | when the values read past the sensor array are cool, the warning fires exactly when a sensor is at warning level |
| `Cells.WarningLevelRaisedByMemoryPastSensors` | src/module.cpp:220-227 | the loop runs over all cells, not only the sensors, so memory past the sensor array can raise the warning: a low heartbeat-time byte of 35 does so with no warm sensor |
| `Cells.BatteryModule.constructor` | src/module.cpp:37-53 | a new module has every cell at 0, every sensor at the uninitialised temperature and is not populated |
| `Cells.BatteryModule.GetVoltage` | src/module.cpp:77-83 | returns the sum of the cell voltages |
| `Cells.BatteryModule.GetLowestCellVoltage` | src/module.cpp:86-95 | returns the lowest-cell scan of the cell array |
| `Cells.BatteryModule.GetHighestCellVoltage` | src/module.cpp:98-107 | returns the highest-cell scan of the cell array |
| `Cells.BatteryModule.SetCellVoltage` | src/module.cpp:110-113 | stores one cell voltage and leaves the other cells unchanged |
| `Cells.BatteryModule.HasEmptyCell` | src/module.cpp:116-123 | true exactly when some cell is below the empty threshold |
| `Cells.BatteryModule.HasFullCell` | src/module.cpp:126-133 | true exactly when some cell is above the full threshold |
| `Cells.BatteryModule.CheckIfModuleDataIsPopulated` | src/module.cpp:146-160 | sets the populated flag by the condition as written |
| `Cells.BatteryModule.UpdateTemperature` | src/module.cpp:177-179 | stores one sensor reading (uint8 reinterpreted as int8) and leaves the other sensors unchanged |
| `Cells.BatteryModule.GetLowestTemperature` | src/module.cpp:182-194 | returns the lowest-temperature scan through the uint8 accumulator |
| `Cells.BatteryModule.GetHighestTemperature` | src/module.cpp:197-209 | returns the highest-temperature scan |
| `Cells.BatteryModule.HasTemperatureSensorOverMax` | src/module.cpp:212-214 | true exactly when some sensor exceeds the maximum temperature |
| `Cells.BatteryModule.TemperatureAtWarningLevel` | src/module.cpp:220-227 | returns the warning condition as written, over all cell positions |
| `Packs.PackVoltageExactInFloat` | src/pack.cpp:309-315 | the pack voltage sum stays below 2^24, so the float accumulator holds it exactly |
| `Packs.PackLowestCellIsMinimum` | src/pack.cpp:318-330 | the pack's lowest cell is at most every cell of every populated module, is attained, and is 10000 when no module is populated |
| `Packs.PackHighestCellIsMaximum` | src/pack.cpp:343-355 | the pack's highest cell is at least every cell of every populated module, is attained, and is 0 when no module is populated |
| `Packs.PackLowestTemperatureIsMinimum` | src/pack.cpp:455-466 | the pack's lowest temperature is at most every populated module's lowest temperature, and equals one of them unless it stays at 126 |
| `Packs.PackHighestTemperatureIsMaximum` | src/pack.cpp:469-480 | the pack's highest temperature is at least every populated module's highest temperature, and equals one of them unless it stays at -126 |
| `Packs.UnpopulatedPackTemperatures` | src/pack.cpp:455-480 | with no populated module the pack's lowest temperature is 126 and its highest -126 |
| `Packs.ChargeCurrentTableBounds` | src/include/pack.h:131-136 | every entry of the charge-current table is between 0 and the maximum charge current |
| `Packs.ChargeCurrentTableIsRuns` | src/include/pack.h:126-136 | the table is the runs its comment describes: a ramp from -10 °C, a ramp from 0 °C, 125 A from 16 °C and 50 A from 36 °C |
| `Packs.MaxChargeCurrentProperties` | src/pack.cpp:541-576 | a full cell, a sensor over maximum or a pack below the minimum charge temperature gives 0 A; a table hit is within the table bounds; a fast temperature rise in a hot pack gives 0 A |
| `Packs.TableOverrunAtHighTemperature` | src/pack.cpp:541-576 | when no guard fires and the pack is at 40 °C or above, the lookup indexes past the 50-entry table |
| `Packs.TableOverrunReachable` | src/pack.cpp:541-576 | a concrete populated pack at 45 °C reads table entry 55 |
| `Packs.UnpopulatedPackOverrunsTable` | src/pack.cpp:541-576 | a pack with no populated module reads entry -116 of the table |
| `Packs.DecodedCellsSpec` | src/pack.cpp:384-411 | each voltage frame writes exactly its three cells (cell 15 from the last frame), from byte pairs masked to 14 bits, and keeps the other cells |
| `Packs.RouteOf` | src/pack.cpp:216-226 | a frame goes to temperature decoding exactly when its id masked by 0xFF0 is 0x180, and to voltage decoding exactly when its id is between 0x99 and 0x180 |
| `Packs.RoutesExclusive` | src/pack.cpp:216-226 | no frame id is routed both ways |
| `Packs.PollFrameDecodes` | src/pack.cpp:153-185 | the poll frame carries the module index in its id and the cycle in the high nibble of byte 6; the startup flags appear exactly during startup |
| `Packs.EnableInhibitContactorClose` | src/pack.cpp:508-513 | raises this pack's inhibit pin and no other |
| `Packs.DisableInhibitContactorClose` | src/pack.cpp:516-521 | lowers this pack's inhibit pin and no other |
| `Packs.PollingCycleStaysInRange` | src/pack.cpp:153-185 | the polling cycle wraps from 0xF to 0 and stays a nibble |
| `Packs.BatteryPack.constructor` | src/pack.cpp:36-49 | a new pack has fresh, empty modules, voltage 0, cell delta 0 and polling cycle 0, in startup |
| `Packs.BatteryPack.RecalculateTotalVoltage` | src/pack.cpp:309-315 | the stored voltage is the sum over the pack's modules |
| `Packs.BatteryPack.GetLowestCellVoltage` | src/pack.cpp:318-330 | returns the pack's lowest cell over populated modules |
| `Packs.BatteryPack.GetHighestCellVoltage` | src/pack.cpp:343-355 | returns the pack's highest cell over populated modules |
| `Packs.BatteryPack.HasEmptyCell` | src/pack.cpp:333-340 | true exactly when some module has an empty cell |
| `Packs.BatteryPack.HasFullCell` | src/pack.cpp:358-365 | true exactly when some module has a full cell |
| `Packs.BatteryPack.SetStatus` | src/pack.cpp:378-383 | the error status is bytes 0-3 little-endian as int32, and the balance status is bytes 4-5 |
| `Packs.BatteryPack.DecodeVoltages` | src/pack.cpp:373-422 | only the addressed module changes: its cells are decoded, it is marked populated by the check as written, and status frames set the status fields |
| `Packs.BatteryPack.StoreCellReadings` | src/pack.cpp:384-411 | the module's cell array becomes the decoded cells |
| `Packs.BatteryPack.RecalculateCellDelta` | src/pack.cpp:425-427 | the delta is the highest cell minus the lowest cell |
| `Packs.BatteryPack.ProcessVoltageUpdate` | src/pack.cpp:432-435 | refreshes both the pack voltage and the cell delta |
| `Packs.BatteryPack.HasTemperatureSensorOverMax` | src/pack.cpp:445-452 | true exactly when a sensor of some module exceeds the maximum |
| `Packs.BatteryPack.GetLowestTemperature` | src/pack.cpp:455-466 | returns the lowest temperature over populated modules |
| `Packs.BatteryPack.GetHighestTemperature` | src/pack.cpp:469-480 | returns the highest temperature over populated modules |
| `Packs.BatteryPack.GetMaxChargeCurrent` | src/pack.cpp:541-576 | returns the guarded table lookup, or the overrun the lookup makes |
| `Packs.BatteryPack.RequestData` | src/pack.cpp:153-185 | sends one poll frame per module with the current cycle, leaves startup after cycle 2 and advances the cycle |
| `Batteries.HighPackIsFirstHighest` | src/battery.cpp:158-168 | the high-pack index names a pack of maximal voltage, and the first one |
| `Batteries.HighPackScanValue` | src/battery.cpp:158-168 | the scan's running value is the voltage of the pack it names |
| `Batteries.LowPackIsAlwaysFirst` | src/battery.cpp:171-181 | as written, the low-pack index is always 0: every pass tests pack 0's voltage, so the test can pass only at p = 0 (when pack 0 is below the 1000 start value), and after that pack 0 is compared with itself |
| `Batteries.SpreadScanBounds` | src/battery.cpp:267-280 | the scan's maximum and minimum bound every pack voltage and are attained |
| `Batteries.VoltageDeltaIsSpread` | src/battery.cpp:267-280 | the delta between packs is the largest difference between two pack voltages |
| `Batteries.TwoPacksImbalancedIff` | src/battery.cpp:295-297 | two packs are imbalanced exactly when their voltages differ by the safe delta or more |
| `Batteries.GetIndexOfHighPack` | src/battery.cpp:158-168 | returns the first pack of highest voltage |
| `Batteries.GetIndexOfLowPack` | src/battery.cpp:171-181 | returns the low-pack index as written |
| `Batteries.VoltageDeltaBetweenPacks` | src/battery.cpp:267-280 | returns the spread between the highest and lowest pack voltage |
| `Batteries.PacksAreImbalanced` | src/battery.cpp:295-297 | true exactly when the spread reaches the safe delta |
| `Batteries.ReleaseForDriveKeepsPacksTogether` | src/battery.cpp:442-455 | the high pack is released, only inhibited packs are released, and every released pack is within the safe delta of the high pack |
| `Batteries.ReleaseForDriveWrapsBelowTenMillivolts` | src/battery.cpp:442-455 | when the high pack is below the safe delta, the unsigned subtraction wraps and no other pack is released |
| `Batteries.ReleaseForChargeMeasuresFromFirstPack` | src/battery.cpp:459-472 | a pack stays inhibited exactly when it was inhibited, is not pack 0 and lies more than the safe delta above pack 0; every other pack is released |
| `Batteries.ReleaseForChargeJoinsImbalancedPacks` | src/battery.cpp:459-472 | an example where two imbalanced packs end up both released |
| `Batteries.OneOrMoreContactorsInhibited` | src/battery.cpp:422-429 | true exactly when some inhibit pin is raised |
| `Batteries.AllContactorsInhibited` | src/battery.cpp:431-438 | true exactly when every inhibit pin is raised |
| `Batteries.InhibitAllContactors` | src/battery.cpp:403-410 | raises every inhibit pin |
| `Batteries.ReleaseAllContactors` | src/battery.cpp:412-419 | lowers every inhibit pin |
| `Batteries.ReleaseContactorsForDrive` | src/battery.cpp:442-455 | the pins become the release-for-drive function of the old pins and the pack voltages |
| `Batteries.ReleaseContactorsForCharge` | src/battery.cpp:459-472 | the pins become the release-for-charge function of the old pins and the pack voltages |
| `Batteries.MaxFromFirstIsMaximum` | src/battery.cpp:306-318 | the highest sensor temperature over packs is at least every pack's and is attained |
| `Batteries.MinFromFirstIsMinimum` | src/battery.cpp:329-341 | the lowest sensor temperature over packs is at most every pack's and is attained |
| `Batteries.TwoPackChargeCurrent` | src/battery.cpp:372-393 | with two packs the limit is the smaller pack limit, doubled unless pack 1 is inhibited |
| `Batteries.ChargeCurrentIgnoresFirstPackInhibit` | src/battery.cpp:372-393 | the count of active packs does not depend on pack 0's inhibit, because the loop starts at 1 |
| `Batteries.FirstEntryIgnored` | src/battery.cpp:372-393 | changing the first inhibit entry leaves the active-pack count unchanged |
| `Batteries.Battery.constructor` | src/battery.cpp:49-79 | a new battery has one fresh pack per index, numbered in order, and zeroed aggregates |
| `Batteries.Battery.HighestPackVoltage` | src/battery.cpp:132-140 | returns the highest pack voltage |
| `Batteries.Battery.RecalculateVoltage` | src/battery.cpp:132-140 | the battery voltage becomes the highest pack voltage |
| `Batteries.Battery.RecalculateCellDelta` | src/battery.cpp:143-145 | the delta becomes highest minus lowest cell, truncated to uint8 |
| `Batteries.Battery.LowestCellFromPackOne` | src/battery.cpp:205-217 | returns the lowest cell over packs 1 and up, skipping pack 0 |
| `Batteries.Battery.HighestCellOfPacks` | src/battery.cpp:236-248 | returns the highest cell over all packs |
| `Batteries.Battery.RecalculateLowestCellVoltage` | src/battery.cpp:205-217 | stores that scan and raises the internal error when the value is out of range |
| `Batteries.Battery.RecalculateHighestCellVoltage` | src/battery.cpp:236-248 | stores the highest cell and raises the internal error when the value is out of range |
| `Batteries.Battery.HasEmptyCell` | src/battery.cpp:224-231 | true exactly when some pack has an empty cell |
| `Batteries.Battery.HasFullCell` | src/battery.cpp:255-262 | true exactly when some pack has a full cell |
| `Batteries.Battery.UpdatePackVoltages` | src/battery.cpp:186-199 | every pack's figures are refreshed and no cell reading changes |
| `Batteries.Battery.UpdateVoltages` | src/battery.cpp:186-199 | refreshes the pack figures and sets the battery voltage to the highest pack sum |
| `Batteries.Battery.ProcessVoltageUpdate` | src/battery.cpp:186-199 | refreshes the packs, the voltage, the delta from the previous extremes, the new extremes and the error flag, changes no cell reading, and records a heartbeat with the BMS exactly when the packs are not imbalanced |
| `Batteries.Battery.RefreshVoltageFigures` | src/battery.cpp:186-195 | refreshes the packs, the voltage, the delta from the previous extremes, the new extremes and the error flag; the pack voltages become the sums of their readings |
| `Batteries.Battery.RecordHeartbeatIfBalanced` | src/battery.cpp:196-198 | the heartbeat count grows by one exactly when the pack voltages are not imbalanced |
| `Batteries.Battery.UpdateCellFigures` | src/battery.cpp:191-198 | stores the delta and the new cell extremes |
| `Batteries.Battery.StoreCellFigures` | src/battery.cpp:191-198 | stores the given figures and raises the internal error for an out-of-range extreme |
| `Batteries.Battery.HighestPackTemperature` | src/battery.cpp:306-318 | returns the highest sensor temperature over packs |
| `Batteries.Battery.LowestPackTemperature` | src/battery.cpp:329-341 | returns the lowest sensor temperature over packs |
| `Batteries.Battery.UpdateHighestSensorTemperature` | src/battery.cpp:306-318 | stores the highest sensor temperature and raises the internal error when it is out of range |
| `Batteries.Battery.UpdateLowestSensorTemperature` | src/battery.cpp:329-341 | stores the lowest sensor temperature and raises the internal error when it is out of range |
| `Batteries.Battery.ProcessTemperatureUpdate` | src/battery.cpp:347-350 | refreshes both sensor extremes and the error flag |
| `Batteries.Battery.TooHotIffSomePackTooHot` | src/battery.cpp:306-327 | once the highest sensor temperature is current, `too_hot` holds exactly when some pack's highest temperature is at the maximum or above |
| `Batteries.Battery.TooColdIffSomePackTooCold` | src/battery.cpp:329-363 | once the lowest sensor temperature is current, `too_cold_to_charge` holds exactly when some pack's lowest temperature is below the minimum charging temperature |
| `Batteries.Battery.GetMaxChargeCurrentByTemperature` | src/battery.cpp:372-393 | 0 when too hot or too cold, otherwise the smallest pack limit times the number of active packs (counted from pack 1), as uint16 |
| `Batteries.Battery.GetModuleLivenessByte` | src/battery.cpp:477-498 | a byte is returned exactly when the start id is past the last module, and it is then 0; the division faults exactly when the start id is 0; otherwise the loop indexes outside the pack array or the module array |
| `StatusLights.ModeDurations` | src/led.cpp:51-70 | drive mode is the only mode without an off phase |
| `StatusLights.BlinkBoundsCounter` | src/led.cpp:72-90 | after a tick the counter never exceeds the current phase's duration |
| `StatusLights.LitWithoutOffDurationStaysOn` | src/led.cpp:75-82 | with no off duration, a lit light stays lit |
| `StatusLights.OnPhaseEnds` | src/led.cpp:75-82 | a lit light goes dark after the rest of its on duration plus one tick, with the counter reset |
| `StatusLights.OffPhaseEnds` | src/led.cpp:83-89 | a dark light comes on after the rest of its off duration plus one tick, with the counter reset |
| `StatusLights.BlinkStepsAdd` | src/led.cpp:72-90 | running a ticks then b ticks equals running a+b ticks |
| `StatusLights.BlinkPeriod` | src/led.cpp:72-90 | from the start of an on phase the light returns to the same state after on + off + 2 ticks |
| `StatusLights.StatusLight.constructor` | src/led.cpp:34-47 | a new light is off with zero durations and counter |
| `StatusLights.StatusLight.SetMode` | src/led.cpp:51-70 | sets the durations of the mode, keeps the lit state and the counter |
| `StatusLights.StatusLight.LedBlink` | src/led.cpp:72-90 | one tick advances the light by the blink function |
| `Management.LedModeFor` | src/bms.cpp:44-67 | standby, drive, heating or charging, and the three fault states map to their own light modes, both ways |
| `Management.ErrorByte` | src/bms.cpp:167-174 | the error byte uses only its three low bits |
| `Management.ErrorByteRoundTrip` | src/bms.cpp:167-174 | the internal-error, imbalance and shunt-dead flags can be read back from the error byte, and every 3-bit byte is the encoding of its bits |
| `Management.StatusByte` | src/bms.cpp:177-186 | the status byte uses only its five low bits |
| `Management.StatusByteRoundTrip` | src/bms.cpp:177-186 | the charge-inhibit, drive-inhibit, heater, ignition and charge-enable flags can be read back, and every 5-bit byte is the encoding of its bits |
| `Management.SocWithinCapacity` | src/bms.cpp:148-154 | within the capacity, the state of charge is the remaining share in percent: 100 when full and 0 when empty |
| `Management.SocMonotone` | src/bms.cpp:148-154 | within the capacity, more remaining charge never lowers the state of charge |
| `Management.SocWrapsBelowEmpty` | src/bms.cpp:148-154 | below empty the uint8 result wraps, for example to 255 |
| `Management.Bms.constructor` | src/bms.cpp:33-42 | a new BMS is in standby with no internal error, a dark light, no invalid events and no requests |
| `Management.Bms.SetState` | src/bms.cpp:44-67 | enters the new state and sets the light's durations for that state's mode |
| `Management.Bms.EnableDriveInhibit` | src/bms.cpp:85-87 | drive is inhibited |
| `Management.Bms.DisableDriveInhibit` | src/bms.cpp:89-91 | drive is not inhibited |
| `Management.Bms.EnableChargeInhibit` | src/bms.cpp:99-101 | charge is inhibited |
| `Management.Bms.DisableChargeInhibit` | src/bms.cpp:103-105 | charge is not inhibited |
| `Management.Bms.EnableHeater` | src/bms.cpp:113-115 | the heater is on |
| `Management.Bms.DisableHeater` | src/bms.cpp:117-119 | the heater is off |
| `Management.Bms.RecalculateSoc` | src/bms.cpp:148-154 | the state of charge is recomputed from the shunt's amp-seconds |
| `Management.Bms.SetInternalError` | src/bms.cpp:158-160 | the internal error is raised |
| `Management.Bms.ClearInternalError` | src/bms.cpp:162-164 | the internal error is cleared |
| `Management.Bms.GetErrorByte` | src/bms.cpp:167-174 | the byte is exactly the three flag bits (internal error, imbalance, shunt dead), below 8, and decodes back to them |
| `Management.Bms.GetStatusByte` | src/bms.cpp:177-186 | the byte is exactly the five flag bits (charge inhibit, drive inhibit, heater, ignition, charge enable), below 32, and decodes back to them |
| `Management.Bms.UpdateMaxChargeCurrent` | src/bms.cpp:190-200 | the limit is the full charge current up to the throttle temperature, and the throttled value as int8 above it |
| `Management.Bms.UpdateMaxDischargeCurrent` | src/bms.cpp:206-209 | the discharge limit is 100 A |
| `Management.Bms.IncrementInvalidEventCount` | src/statemachine.cpp:106 | the invalid-event count grows by one |
| `Management.Bms.SetIllegalStateTransition` | src/statemachine.cpp:199 | the illegal-transition flag is raised |
| `Management.Bms.PackVoltagesMatchHeartbeat` | src/battery.cpp:196-198 | one more matching-voltages heartbeat is recorded |
| `Management.Bms.SendShuntResetMessage` | src/statemachine.cpp:356-360 | one more shunt reset is requested |
| `Management.Bms.LedBlink` | src/bms.cpp:217-219 | the status light advances one tick |
| `States.TableIndex` | src/statemachine.cpp:595-613 | every state has an entry in the name table, and the index is its first one |
| `States.GetStateName` | src/statemachine.cpp:606-613 | returns the name of the table entry for the state |
| `States.StateNamesDistinct` | src/statemachine.cpp:595-603 | different states have different names |
| `StateMachine.ChargeInhibitForColdOrFull` | src/statemachine.cpp:56-62 | charge is inhibited exactly when the battery is too cold to charge or has a full cell |
| `StateMachine.ReleaseContactorsIfInhibitedForDrive` | src/statemachine.cpp:100-102 | the pins are released for drive when some pin is inhibited, and are unchanged otherwise |
| `StateMachine.StandbyCellVoltageUpdate` | src/statemachine.cpp:70-95 | the standby voltage-update branch changes the outputs as the transition function says |
| `StateMachine.StateStandby` | src/statemachine.cpp:52-130 | the standby handler changes the outputs as the transition function says, for every event |
| `StateMachine.DriveCellVoltageUpdate` | src/statemachine.cpp:159-181 | the drive voltage-update branch changes the outputs as the transition function says |
| `StateMachine.StateDrive` | src/statemachine.cpp:141-217 | the drive handler changes the outputs as the transition function says, for every event |
| `StateMachine.IgnitionOffWhileDriving` | src/statemachine.cpp:186-192 | ignition off in drive changes the outputs as the transition function says: all contactors inhibited when the packs are imbalanced, then standby |
| `StateMachine.ChargingInitiatedWhileDriving` | src/statemachine.cpp:193-207 | a charge request in drive changes the outputs as the transition function says: the illegal-transition fault when a pack is inhibited, else charging with drive inhibited |
| `StateMachine.StateBatteryHeating` | src/statemachine.cpp:228-303 | the heating handler changes the outputs as the transition function says, for every event |
| `StateMachine.ChargingTerminatedWhileHeating` | src/statemachine.cpp:268-297 | the heating handler's charge-termination branch changes the outputs as the transition function says |
| `StateMachine.ChargingTemperatureBranch` | src/statemachine.cpp:316-337 | the charging handler's temperature branch changes the outputs as the transition function says |
| `StateMachine.StateCharging` | src/statemachine.cpp:314-396 | the charging handler changes the outputs as the transition function says, for every event |
| `StateMachine.ChargingTerminatedWhileCharging` | src/statemachine.cpp:355-391 | the charging handler's charge-termination branch changes the outputs as the transition function says |
| `StateMachine.LeaveChargingState` | src/statemachine.cpp:361-391 | after the shunt reset request, the outputs move to the next state in priority order: over-temperature fault, illegal-transition fault, empty battery, drive, standby |
| `StateMachine.LeaveChargingWithoutFault` | src/statemachine.cpp:378-391 | with neither fault, the outputs move to the empty state (drive inhibited), drive or standby as the priority order says |
| `StateMachine.StateBatteryEmpty` | src/statemachine.cpp:408-479 | the battery-empty handler changes the outputs as the transition function says, for every event |
| `StateMachine.CellVoltageUpdateWhileEmpty` | src/statemachine.cpp:426-454 | the battery-empty voltage-update branch changes the outputs as the transition function says |
| `StateMachine.StateOverTempFault` | src/statemachine.cpp:493-543 | the over-temperature handler changes the outputs as the transition function says, for every event |
| `StateMachine.StateIllegalStateTransitionFault` | src/statemachine.cpp:558-586 | the illegal-transition handler changes the outputs as the transition function says, for every event |
| `StateMachine.SendEvent` | src/bms.cpp:73-75 | dispatching an event to the current state's handler changes the outputs as `Next` says |
| `StateMachine.RejectedEventOnlyCounts` | src/statemachine.cpp:105-107 | an event a state does not handle only increments the invalid-event count |
| `StateMachine.RejectedInStandbyDriveOrHeating` | src/statemachine.cpp:105-300 | in standby, drive and heating, an event the state does not handle only increments the invalid-event count |
| `StateMachine.RejectedInChargingOrEmpty` | src/statemachine.cpp:351-477 | in charging and the empty state, an event the state does not handle only increments the invalid-event count |
| `StateMachine.RejectedInFault` | src/statemachine.cpp:539-584 | in both fault states, an event the state does not handle only increments the invalid-event count |
| `StateMachine.EmptyCellStopsDriving` | src/statemachine.cpp:70-95 | in standby or drive, an empty cell leads to the battery-empty state with driving inhibited |
| `StateMachine.StandbyContactorsFollowImbalance` | src/statemachine.cpp:70-95 | after a standby update, every contactor is inhibited exactly when the two packs are imbalanced |
| `StateMachine.ChargeRequestWhileDriving` | src/statemachine.cpp:193-208 | a charge request while driving on a subset of packs is an illegal-transition fault with both inhibits raised; otherwise charging starts with driving inhibited; the contactors are untouched |
| `StateMachine.OverTemperatureStopsEverything` | src/statemachine.cpp:143-158 | a sensor over maximum moves standby, drive, heating and empty to the over-temperature fault with both inhibits raised; charging stays in charging with both inhibits raised; the fault state stays as it is |
| `StateMachine.OverTemperatureRecovery` | src/statemachine.cpp:495-524 | the fault is left only on a temperature update below maximum, to charging, drive or standby by the inputs, with charging allowed again |
| `StateMachine.ChargingTerminatedPriority` | src/statemachine.cpp:355-391 | ending a charge goes to the over-temperature fault, then the illegal-transition fault, battery empty, drive or standby, in that priority; a full cell requests a shunt reset |
| `StateMachine.IllegalTransitionFaultExit` | src/statemachine.cpp:558-586 | the illegal-transition fault is left only to standby, on ignition off without charge enable or on charge termination with ignition off, and the drive inhibit is kept |
| `StateMachine.HeatingKeepsContactors` | src/statemachine.cpp:228-303 | the heating handler never changes a contactor inhibit |
| `StateMachine.ChargingKeepsContactors` | src/statemachine.cpp:314-396 | the charging handler never changes a contactor inhibit |
| `StateMachine.EmptyKeepsContactors` | src/statemachine.cpp:408-479 | the battery-empty handler never changes a contactor inhibit |
| `StateMachine.ContactorsHeldOutsideDriveDecisions` | src/statemachine.cpp:228-586 | in heating, charging, battery empty and the illegal-transition fault, no event changes a contactor inhibit |
| `StateMachine.StandbyKeepsSafe` | src/statemachine.cpp:52-130 | the standby handler preserves the safety invariant |
| `StateMachine.DriveKeepsSafe` | src/statemachine.cpp:141-217 | the drive handler preserves the safety invariant |
| `StateMachine.HeatingKeepsSafe` | src/statemachine.cpp:228-303 | the heating handler preserves the safety invariant |
| `StateMachine.ChargingKeepsSafe` | src/statemachine.cpp:314-396 | the charging handler preserves the safety invariant |
| `StateMachine.EmptyKeepsSafe` | src/statemachine.cpp:408-479 | the battery-empty handler preserves the safety invariant |
| `StateMachine.OverTempKeepsSafe` | src/statemachine.cpp:493-543 | the over-temperature handler preserves the safety invariant |
| `StateMachine.IllegalFaultKeepsSafe` | src/statemachine.cpp:558-586 | the illegal-transition handler preserves the safety invariant |
| `StateMachine.NextKeepsSafe` | src/statemachine.cpp:52-586 | every event in every state preserves the safety invariant |
| `StateMachine.RunKeepsSafe` | src/statemachine.cpp:52-586 | any sequence of events from a safe state ends in a safe state |
| `StateMachine.DriveEnteredWithDriveInhibited` | src/statemachine.cpp:355-391 | ending a charge with the ignition on enters drive without lifting the drive inhibit |
| `StateMachine.StandbyEnteredWithDriveInhibited` | src/statemachine.cpp:355-391 | ending a charge with the ignition off enters standby with driving still inhibited, and a later ignition-on enters drive with the inhibit still set |
| `StateMachine.EmptyBatteryFaultIsNotFlagged` | src/statemachine.cpp:426-454 | the battery-empty state's move to the illegal-transition fault counts an invalid event and does not raise the illegal-transition flag |
| `StateMachine.DriveTemperatureUpdateForgetsCold` | src/statemachine.cpp:143-181 | in drive, a temperature update falls through to the voltage update and clears the too-cold charge inhibit |
| `StateMachine.HeaterLeftOnAfterOverheat` | src/statemachine.cpp:228-246 | after heating, overheating and then cooling with the ignition on, the battery drives with the heater still on |
| `Comms.IsaResetFrame` | src/comms.cpp:45-58 | the shunt reset frame is id 0x411, 8 bytes, 0x3F then zeros |
| `Comms.CastLogicalAnd` | src/comms.cpp:80-93 | a byte written as `value && 0xFF` is 1 exactly when the value's low byte is non-zero, else 0 |
| `Comms.CastShift8` | src/comms.cpp:80-93 | a byte written as a uint8 shifted right by 8 is always 0 |
| `Comms.LimitsFrameBytes` | src/comms.cpp:80-93 | the limits frame is id 0x351; each high byte is 0; each low byte is 1 exactly when ten times the field has a non-zero low byte |
| `Comms.StateCodeRoundTrip` | src/comms.cpp:148-162 | each state's code decodes back to the state, except heating, which is sent as the undefined code 0xFF |
| `Comms.StateFrameContents` | src/comms.cpp:141-175 | the state frame is id 0x352; byte 1 holds the status byte; the error byte is overwritten and never reaches the bus |
| `Comms.ModuleLivenessFrameContents` | src/comms.cpp:201-215 | the liveness frame is id 0x353 with all bytes 0 |
| `Comms.SocFrameBytes` | src/comms.cpp:241-254 | the charge-level frame is id 0x355 and carries only the two logical-and bytes |
| `Comms.StatusFrameBytes` | src/comms.cpp:280-293 | the status frame is id 0x356, high bytes 0, low bytes 0 or 1 by the logical-and of each field |
| `Comms.AlarmFrameBits` | src/comms.cpp:340-371 | the alarm frame is id 0x35A, 3 bytes; bit 2 means an empty cell, bit 3 a full cell, byte 1 bit 6 over-temperature; no other bit is set |
| `Comms.MainBus.constructor` | src/comms.cpp:45-58 | nothing has been sent |
| `Comms.MainBus.SendIsaResetMessage` | src/comms.cpp:45-58 | appends the shunt reset frame to the bus |
| `Comms.MainBus.SendLimitsMessage` | src/comms.cpp:80-93 | the limits buffer becomes the limits frame and is appended to the bus |
| `Comms.MainBus.SendBmsStateMessage` | src/comms.cpp:141-175 | the state buffer becomes the state frame and is appended to the bus |
| `Comms.MainBus.SendModuleLivenessMessage` | src/comms.cpp:201-215 | the liveness buffer becomes the liveness frame and is appended to the bus |
| `Comms.MainBus.SendSocMessage` | src/comms.cpp:241-254 | the charge-level buffer becomes the charge-level frame and is appended to the bus |
| `Comms.MainBus.SendStatusMessage` | src/comms.cpp:280-293 | the status buffer becomes the status frame and is appended to the bus |
| `Comms.MainBus.SendAlarmMessage` | src/comms.cpp:340-371 | the alarm buffer becomes the alarm frame, built by or-ing the alarm bits, and is appended to the bus |
| `Comms.ShuntReceiver.constructor` | src/comms.cpp:394-443 | all shunt values start at zero |
| `Comms.ShuntReceiver.HandleMainCanMessages` | src/comms.cpp:394-443 | a received frame updates the shunt values by the frame decoder; a failed read changes nothing |
| `Comms.LittleEndianRoundTrip` | src/comms.cpp:399-439 | reading bytes 2-5 little-endian gives back the encoded 32-bit value |
| `Comms.AmpSecondsRoundTrip` | src/comms.cpp:399-439 | a 0x527 frame carrying a signed 32-bit value sets the amp-seconds to that value, counts a heartbeat and changes nothing else |
| `Comms.SixteenBitMeasurements` | src/comms.cpp:399-439 | every other shunt frame stores the low 16 bits of its payload in its field (the temperature divided by 10) and counts a heartbeat |
| `Comms.OtherFramesIgnored` | src/comms.cpp:394-443 | a frame outside 0x521-0x528 leaves the shunt values unchanged |

## Left out

- Floating point: the pack and battery voltages are kept as integer millivolt sums, and the float accumulator is shown exact by `Packs.PackVoltageExactInFloat`. The shunt's float voltage and power conversions, the charge throttle curve and the module's float charge-current estimate (src/module.cpp:237) are not modelled. The throttled current enters `Bms.UpdateMaxChargeCurrent` as an integer input, and the shunt voltage in hundredths enters `SendStatusMessage` as an integer input.
- Clocks: module liveness (`is_alive`, `heartbeat`), `Shunt::is_dead`, the pack balance timer and the pack's timed `process_temperature_update` (src/pack.cpp:492-498) depend on hardware time. The pack's temperature delta is a field the model does not advance; liveness is an input to `GetModuleLivenessByte`; shunt heartbeats are a counter.
- Timers and callbacks: the repeating timers of src/main.cpp, the watchdog and `set_watchdog_reboot` are not modelled.
- CAN drivers: the MCP2515 driver, `send_frame` and the mutexes are not modelled. A received frame is a parameter, and a sent frame is appended to a sequence or returned.
- The module poll's CRC-8 checksum (`getcheck`) is a function parameter.
- Logging: `printf` output and the reason strings passed to the inhibit setters are not modelled.
- GPIO: the pin levels written by src/io.cpp are not modelled. The inhibit and heater outputs are booleans, and the ignition and charge-enable inputs are readings.
- The model's boolean charge inhibit is the intended output, not the pin. `Io::disable_charge_inhibit` (src/io.cpp:118-125) writes the same pin levels as `Io::enable_charge_inhibit` (:109-116), so on the hardware releasing the charge inhibit never changes the pin.
- The model's inhibit and heater booleans are the commanded values. `Io::drive_is_inhibited`, `Io::charge_is_inhibited` and `Io::heater_is_enabled` (src/io.cpp:103-104, :127-128, :152) return the raw pin level and ignore the active-low settings; these readbacks are not modelled.
- `decode_temperatures` (src/pack.cpp:483-490): it converts a float computed as byte minus 40 to `uint8_t`, which is undefined for negative values. Only its routing and `BatteryModule.UpdateTemperature` are modelled.
- State-machine inputs: the handlers receive the battery's answers as readings: too cold, full cell, empty cell, sensor over maximum, pack voltages, ignition, charge enable, and the temperature and throttled current for the charge limit. The effect of `process_voltage_update` on the battery is modelled separately in `Batteries.Battery.ProcessVoltageUpdate`.
- Helpers the state machine calls without a definition in the source (`Battery::has_temperature_sensor_over_max`, `Battery::disable_inhibit_for_drive`, `Battery::disable_inhibit_for_charge`, `Bms::packs_are_imbalanced`, `Bms::increment_invalid_event_count`, `Bms::set_illegal_state_transition`, `Bms::send_shunt_reset_message`, and `Bms::pack_voltages_match_heartbeat` called from src/battery.cpp:196-198) are modelled by their evident meaning:
  - a reading;
  - the defined `disable_inhibit_contactors_for_drive` and `..._for_charge` of src/battery.cpp;
  - the two-pack imbalance test;
  - counters and a flag.
- `Batteries.Battery.GetMaxChargeCurrentByTemperature`: the per-pack limits are inputs. They stand for `packs[p].get_max_charge_current_by_temperature()` (src/battery.cpp:382-385), which `BatteryPack` does not declare; the evident counterpart is `Packs.BatteryPack.GetMaxChargeCurrent`. src/include/battery.h:84 declares the battery function as `int8_t`, while src/battery.cpp:372 defines it as `uint16_t`; the model follows the definition.
- Sender inputs: comms.cpp reads battery and shunt getters that `Battery` does not declare. The senders take those values as parameters.
- The shunt decode's `<<24` on a byte promoted to `int` is taken as the two's-complement result.
- `handle_battery_CAN_messages` and `Battery::read_message` only forward frames to the packs; they are covered by `Packs.RouteOf`.
- Accessors that return a field unchanged (`get_voltage`, `get_soc`, `get_state`, `drive_is_inhibited` and the like) have no member of their own; the field is read directly.
- `Batteries.Battery.GetModuleLivenessByte`: the contract states when a byte, a division fault or an access outside the pack array or the module array results (for a start id from -128 to -13 the first read is module 12 of pack 0). It does not give the bits of the byte on those paths, because the source's behaviour there is undefined.
- `Packs.BatteryPack.DecodeVoltages`: it requires the module index (the low nibble of the frame id) to be below the pack's module count. Frames whose low nibble is 6 to 15 make src/pack.cpp:375 and 385-421 write outside the module array; the model does not cover them, because that behaviour is undefined.
