/**
 * One battery module: sixteen cell voltages and four temperature sensors,
 * filled in place as frames from the module arrive.
 */
module Cells {
  import opened Settings
  import opened CTypes

  /** A temperature slot that has never received a reading. */
  const UNINITIALISED_TEMPERATURE := -128

  // ---------------------------------------------------------------------
  // Specification functions on the readings. Each scan mirrors the firmware
  // loop: it folds the readings from the first one onwards.
  // ---------------------------------------------------------------------

  /** Total of the cell voltages. */
  function CellSum(s: seq<int>): int {
    if s == [] then 0 else CellSum(s[..|s| - 1]) + s[|s| - 1]
  }

  /** The 32-bit accumulator of the module voltage never wraps: 16 cells of at most 65535 mV. */
  lemma {:induction false} CellSumBounds(s: seq<uint16>)
    ensures 0 <= CellSum(s) <= |s| * 0xFFFF
  {
    if s != [] {
      CellSumBounds(s[..|s| - 1]);
    }
  }

  /** Lowest cell voltage, scanning from a start value of 10000 mV. */
  function LowestCell(s: seq<int>): int {
    if s == [] then 10000
    else
      var acc := LowestCell(s[..|s| - 1]);
      if s[|s| - 1] < acc then s[|s| - 1] else acc
  }

  /** The scan yields the minimum of the cells, or 10000 when every cell is higher. */
  lemma {:induction false} LowestCellIsMinimum(s: seq<int>)
    ensures LowestCell(s) <= 10000
    ensures forall c :: 0 <= c < |s| ==> LowestCell(s) <= s[c]
    ensures LowestCell(s) == 10000 || exists c :: 0 <= c < |s| && s[c] == LowestCell(s)
  {
    if s != [] {
      var p := s[..|s| - 1];
      LowestCellIsMinimum(p);
      assert forall c :: 0 <= c < |p| ==> s[c] == p[c];
    }
  }

  /** Highest cell voltage, scanning from a start value of 0 mV. */
  function HighestCell(s: seq<int>): int {
    if s == [] then 0
    else
      var acc := HighestCell(s[..|s| - 1]);
      if s[|s| - 1] > acc then s[|s| - 1] else acc
  }

  /** The scan yields the maximum of the cells, or 0 when no cell is higher. */
  lemma {:induction false} HighestCellIsMaximum(s: seq<int>)
    ensures HighestCell(s) >= 0
    ensures forall c :: 0 <= c < |s| ==> s[c] <= HighestCell(s)
    ensures HighestCell(s) == 0 || exists c :: 0 <= c < |s| && s[c] == HighestCell(s)
  {
    if s != [] {
      var p := s[..|s| - 1];
      HighestCellIsMaximum(p);
      assert forall c :: 0 <= c < |p| ==> s[c] == p[c];
    }
  }

  /** Some cell is below the empty threshold. */
  predicate AnyEmptyCell(s: seq<int>) {
    exists c :: 0 <= c < |s| && s[c] < CELL_EMPTY_VOLTAGE
  }

  /** Some cell is above the full threshold. */
  predicate AnyFullCell(s: seq<int>) {
    exists c :: 0 <= c < |s| && s[c] > CELL_FULL_VOLTAGE
  }

  /** A module has an empty cell exactly when its lowest cell is below the empty threshold. */
  lemma EmptyCellIffLowestBelowEmpty(s: seq<int>)
    ensures AnyEmptyCell(s) <==> LowestCell(s) < CELL_EMPTY_VOLTAGE
  {
    LowestCellIsMinimum(s);
  }

  /** A module has a full cell exactly when its highest cell is above the full threshold. */
  lemma FullCellIffHighestAboveFull(s: seq<int>)
    ensures AnyFullCell(s) <==> HighestCell(s) > CELL_FULL_VOLTAGE
  {
    HighestCellIsMaximum(s);
  }

  /**
   * The populated flag as the firmware computes it: true when some cell
   * voltage is still zero AND some temperature reads exactly zero.
   */
  predicate PopulatedAsWritten(cells: seq<int>, temps: seq<int>) {
    (exists c :: 0 <= c < |cells| && cells[c] == 0) && (exists t :: 0 <= t < |temps| && temps[t] == 0)
  }

  /**
   * The flag is the inverse of its documented meaning: a module whose every
   * cell has reported a voltage is never flagged as populated, and a module
   * that has reported nothing (all voltages 0, all temperatures
   * uninitialised) is not flagged either.
   */
  lemma PopulatedFlagInverted(cells: seq<int>, temps: seq<int>)
    ensures (forall c :: 0 <= c < |cells| ==> cells[c] != 0) ==> !PopulatedAsWritten(cells, temps)
    ensures (forall t :: 0 <= t < |temps| ==> temps[t] == UNINITIALISED_TEMPERATURE) ==> !PopulatedAsWritten(cells, temps)
  {
  }

  /**
   * Lowest temperature as the firmware scans it: an 8-bit UNSIGNED
   * accumulator starting at 255, skipping uninitialised slots, compared
   * with each signed reading after integer promotion.
   */
  function LowestTemperatureScan(temps: seq<int>): uint8 {
    if temps == [] then 255
    else
      var acc := LowestTemperatureScan(temps[..|temps| - 1]);
      var t := temps[|temps| - 1];
      if t < -127 then acc
      else if t < acc then U8(t)
      else acc
  }

  /** The scan's accumulator, returned as int8_t. */
  function LowestTemperatureOf(temps: seq<int>): int8 {
    I8(LowestTemperatureScan(temps))
  }

  /** With no reading at all, the lowest temperature reads as -1. */
  lemma {:induction false} NoReadingLowestIsMinusOne(temps: seq<int>)
    requires forall t :: 0 <= t < |temps| ==> temps[t] == UNINITIALISED_TEMPERATURE
    ensures LowestTemperatureOf(temps) == -1
  {
    NoReadingScanStaysAt255(temps);
  }

  lemma {:induction false} NoReadingScanStaysAt255(temps: seq<int>)
    requires forall t :: 0 <= t < |temps| ==> temps[t] < -127
    ensures LowestTemperatureScan(temps) == 255
  {
    if temps != [] {
      NoReadingScanStaysAt255(temps[..|temps| - 1]);
    }
  }

  /** A reading that is taken into account by the scans. */
  predicate IsReading(t: int) {
    t >= -127
  }

  /**
   * When every reading is zero or above, the scan does yield the coldest
   * reading (or 255 when there is none).
   */
  lemma {:induction false} LowestTemperatureOfNonNegativeReadings(temps: seq<int8>)
    requires forall t :: 0 <= t < |temps| ==> temps[t] >= 0 || temps[t] == UNINITIALISED_TEMPERATURE
    ensures forall t :: 0 <= t < |temps| && IsReading(temps[t]) ==> LowestTemperatureScan(temps) <= temps[t]
    ensures LowestTemperatureScan(temps) == 255 || exists t :: 0 <= t < |temps| && IsReading(temps[t]) && temps[t] == LowestTemperatureScan(temps)
    ensures (exists t :: 0 <= t < |temps| && IsReading(temps[t])) ==> LowestTemperatureOf(temps) == LowestTemperatureScan(temps)
  {
    if temps != [] {
      var p := temps[..|temps| - 1];
      LowestTemperatureOfNonNegativeReadings(p);
      assert forall t :: 0 <= t < |p| ==> temps[t] == p[t];
    }
  }

  /**
   * A negative reading is lost once a higher reading follows it: the
   * accumulator holds -5 as 251, so a later 20 replaces it.
   */
  lemma NegativeReadingLostToLaterReading()
    ensures LowestTemperatureOf([-5, 20, -128, -128]) == 20
  {
    var temps := [-5, 20, -128, -128];
    assert temps[..1] == [-5] && [-5][..0] == [];
    assert LowestTemperatureScan([-5]) == 251;
    assert temps[..2] == [-5, 20] && [-5, 20][..1] == [-5];
    assert LowestTemperatureScan([-5, 20]) == 20;
    assert temps[..3] == [-5, 20, -128] && [-5, 20, -128][..2] == [-5, 20];
    assert LowestTemperatureScan(temps[..3]) == 20;
  }

  /** Highest temperature, scanning from -40 and skipping uninitialised slots. */
  function HighestTemperatureOf(temps: seq<int>): int {
    if temps == [] then -40
    else
      var acc := HighestTemperatureOf(temps[..|temps| - 1]);
      var t := temps[|temps| - 1];
      if t < -127 then acc
      else if t > acc then t
      else acc
  }

  /** Some sensor reads above the maximum temperature. */
  predicate SensorOverMax(temps: seq<int>) {
    exists t :: 0 <= t < |temps| && temps[t] > MAXIMUM_TEMPERATURE
  }

  /** The highest temperature exceeds the maximum exactly when some sensor does. */
  lemma {:induction false} OverMaxIffSomeSensorOverMax(temps: seq<int>)
    ensures HighestTemperatureOf(temps) > MAXIMUM_TEMPERATURE <==> SensorOverMax(temps)
  {
    if temps != [] {
      var p := temps[..|temps| - 1];
      OverMaxIffSomeSensorOverMax(p);
      assert forall t :: 0 <= t < |p| ==> temps[t] == p[t];
      assert (exists t :: 0 <= t < |temps| && temps[t] > MAXIMUM_TEMPERATURE)
          <==> (exists t :: 0 <= t < |p| && p[t] > MAXIMUM_TEMPERATURE) || temps[|p|] > MAXIMUM_TEMPERATURE;
    }
  }

  /** A reading at warning level: warm, but below the maximum. */
  predicate AtWarningLevel(t: int) {
    WARNING_TEMPERATURE <= t < MAXIMUM_TEMPERATURE
  }

  /**
   * The warning check as written: it runs over the sixteen cell indices, so
   * it reads the four sensors followed by twelve slots past the end of the
   * sensor array; `beyond` stands for whatever those slots hold.
   */
  predicate WarningLevelAsWritten(temps: seq<int8>, beyond: seq<int8>)
    requires |temps| + |beyond| == CELLS_PER_MODULE
  {
    exists c :: 0 <= c < CELLS_PER_MODULE && AtWarningLevel((temps + beyond)[c])
  }

  /** When nothing past the sensors reads as warm, the check means "some sensor is at warning level". */
  lemma WarningLevelWhenBeyondIsCool(temps: seq<int8>, beyond: seq<int8>)
    requires |temps| + |beyond| == CELLS_PER_MODULE
    requires forall i :: 0 <= i < |beyond| ==> !AtWarningLevel(beyond[i])
    ensures WarningLevelAsWritten(temps, beyond) <==> exists t :: 0 <= t < |temps| && AtWarningLevel(temps[t])
  {
    var all := temps + beyond;
    if WarningLevelAsWritten(temps, beyond) {
      var c :| 0 <= c < CELLS_PER_MODULE && AtWarningLevel(all[c]);
      assert c < |temps| && all[c] == temps[c];
    }
    if exists t :: 0 <= t < |temps| && AtWarningLevel(temps[t]) {
      var t :| 0 <= t < |temps| && AtWarningLevel(temps[t]);
      assert all[t] == temps[t];
    }
  }

  /**
   * Memory past the sensors can raise the warning although no sensor is
   * warm. Following the field order of src/include/module.h:33-36 on a
   * 32-bit little-endian target, slot 0 past the sensors is the populated
   * flag, slots 1-3 are padding and slot 4 is the low byte of the last
   * heartbeat time; here the flag is set and that byte is 35.
   */
  lemma WarningLevelRaisedByMemoryPastSensors()
    ensures var temps: seq<int8> := [-128, -128, -128, -128];
            var beyond: seq<int8> := [1, 0, 0, 0, 35, 0, 0, 0, 0, 0, 0, 0];
            WarningLevelAsWritten(temps, beyond) && !(exists t :: 0 <= t < |temps| && AtWarningLevel(temps[t]))
  {
    var temps: seq<int8> := [-128, -128, -128, -128];
    var beyond: seq<int8> := [1, 0, 0, 0, 35, 0, 0, 0, 0, 0, 0, 0];
    assert (temps + beyond)[8] == 35;
  }

  /** The readings of one module as values. */
  datatype ModuleData = ModuleData(cells: seq<int>, temps: seq<int>, populated: bool)

  // ---------------------------------------------------------------------
  // The module object.
  // ---------------------------------------------------------------------

  class BatteryModule {
    const id: int
    const numCells: nat
    const numTemperatureSensors: nat
    const cellVoltage: array<uint16>
    const cellTemperature: array<int8>
    var allModuleDataPopulated: bool

    ghost const Repr: set<object>

    ghost predicate Valid() {
      Repr == {this, cellVoltage, cellTemperature}
      && numCells == cellVoltage.Length == CELLS_PER_MODULE
      && numTemperatureSensors == cellTemperature.Length == TEMPS_PER_MODULE
    }

    /** The module's readings as a value. */
    ghost function Data(): ModuleData
      reads this, cellVoltage, cellTemperature
    {
      ModuleData(cellVoltage[..], cellTemperature[..], allModuleDataPopulated)
    }

    /** A new module: all cells at 0 mV, all sensors uninitialised, not populated. */
    constructor (id: int)
      ensures Valid() && fresh(Repr)
      ensures this.id == id
      ensures cellVoltage[..] == seq(CELLS_PER_MODULE, _ => 0)
      ensures cellTemperature[..] == seq(TEMPS_PER_MODULE, _ => UNINITIALISED_TEMPERATURE)
      ensures !allModuleDataPopulated
    {
      this.id := id;
      numCells := CELLS_PER_MODULE;
      numTemperatureSensors := TEMPS_PER_MODULE;
      cellVoltage := new uint16[CELLS_PER_MODULE](_ => 0);
      cellTemperature := new int8[TEMPS_PER_MODULE](_ => UNINITIALISED_TEMPERATURE);
      allModuleDataPopulated := false;
      Repr := {this, cellVoltage, cellTemperature};
    }

    /** Module voltage: the sum of its cells, accumulated in 32 bits. */
    method GetVoltage() returns (voltage: uint32)
      requires Valid()
      ensures voltage == CellSum(cellVoltage[..])
    {
      voltage := 0;
      var c := 0;
      while c < numCells
        invariant 0 <= c <= numCells
        invariant voltage == CellSum(cellVoltage[..c])
      {
        assert cellVoltage[..c + 1][..c] == cellVoltage[..c];
        CellSumBounds(cellVoltage[..c + 1]);
        voltage := U32(voltage + cellVoltage[c]);
        c := c + 1;
      }
      assert cellVoltage[..c] == cellVoltage[..];
    }

    method GetLowestCellVoltage() returns (lowest: uint16)
      requires Valid()
      ensures lowest == LowestCell(cellVoltage[..])
    {
      lowest := 10000;
      var c := 0;
      while c < numCells
        invariant 0 <= c <= numCells
        invariant lowest == LowestCell(cellVoltage[..c])
      {
        assert cellVoltage[..c + 1][..c] == cellVoltage[..c];
        if cellVoltage[c] < lowest {
          lowest := cellVoltage[c];
        }
        c := c + 1;
      }
      assert cellVoltage[..c] == cellVoltage[..];
    }

    method GetHighestCellVoltage() returns (highest: uint16)
      requires Valid()
      ensures highest == HighestCell(cellVoltage[..])
    {
      highest := 0;
      var c := 0;
      while c < numCells
        invariant 0 <= c <= numCells
        invariant highest == HighestCell(cellVoltage[..c])
      {
        assert cellVoltage[..c + 1][..c] == cellVoltage[..c];
        if cellVoltage[c] > highest {
          highest := cellVoltage[c];
        }
        c := c + 1;
      }
      assert cellVoltage[..c] == cellVoltage[..];
    }

    /** Stores one cell voltage and touches nothing else. */
    method SetCellVoltage(cellIndex: nat, newCellVoltage: uint16)
      requires Valid() && cellIndex < numCells
      modifies cellVoltage
      ensures cellVoltage[..] == old(cellVoltage[..])[cellIndex := newCellVoltage]
    {
      cellVoltage[cellIndex] := newCellVoltage;
    }

    method HasEmptyCell() returns (empty: bool)
      requires Valid()
      ensures empty <==> AnyEmptyCell(cellVoltage[..])
    {
      var c := 0;
      while c < numCells
        invariant 0 <= c <= numCells
        invariant forall k :: 0 <= k < c ==> cellVoltage[k] >= CELL_EMPTY_VOLTAGE
      {
        if cellVoltage[c] < CELL_EMPTY_VOLTAGE {
          assert cellVoltage[..][c] < CELL_EMPTY_VOLTAGE;
          return true;
        }
        c := c + 1;
      }
      return false;
    }

    method HasFullCell() returns (full: bool)
      requires Valid()
      ensures full <==> AnyFullCell(cellVoltage[..])
    {
      var c := 0;
      while c < numCells
        invariant 0 <= c <= numCells
        invariant forall k :: 0 <= k < c ==> cellVoltage[k] <= CELL_FULL_VOLTAGE
      {
        if cellVoltage[c] > CELL_FULL_VOLTAGE {
          assert cellVoltage[..][c] > CELL_FULL_VOLTAGE;
          return true;
        }
        c := c + 1;
      }
      return false;
    }

    /** Recomputes the populated flag from the readings, as written. */
    method CheckIfModuleDataIsPopulated()
      requires Valid()
      modifies this`allModuleDataPopulated
      ensures allModuleDataPopulated == PopulatedAsWritten(cellVoltage[..], cellTemperature[..])
    {
      var voltageMissing := false;
      var c := 0;
      while c < numCells
        invariant 0 <= c <= numCells
        invariant voltageMissing <==> exists k :: 0 <= k < c && cellVoltage[k] == 0
      {
        if cellVoltage[c] == 0 {
          voltageMissing := true;
        }
        c := c + 1;
      }
      var temperatureMissing := false;
      var t := 0;
      while t < numTemperatureSensors
        invariant 0 <= t <= numTemperatureSensors
        invariant temperatureMissing <==> exists k :: 0 <= k < t && cellTemperature[k] == 0
      {
        if cellTemperature[t] == 0 {
          temperatureMissing := true;
        }
        t := t + 1;
      }
      allModuleDataPopulated := voltageMissing && temperatureMissing;
      if voltageMissing {
        var k :| 0 <= k < c && cellVoltage[k] == 0;
        assert cellVoltage[..][k] == 0;
      }
      if temperatureMissing {
        var k :| 0 <= k < t && cellTemperature[k] == 0;
        assert cellTemperature[..][k] == 0;
      }
    }

    /** Stores one sensor reading; the unsigned byte is kept as int8_t. */
    method UpdateTemperature(tempSensorId: nat, newTemperature: uint8)
      requires Valid() && tempSensorId < numTemperatureSensors
      modifies cellTemperature
      ensures cellTemperature[..] == old(cellTemperature[..])[tempSensorId := I8(newTemperature)]
    {
      cellTemperature[tempSensorId] := I8(newTemperature);
    }

    method GetLowestTemperature() returns (lowest: int8)
      requires Valid()
      ensures lowest == LowestTemperatureOf(cellTemperature[..])
    {
      var acc: uint8 := 255;
      var t := 0;
      while t < numTemperatureSensors
        invariant 0 <= t <= numTemperatureSensors
        invariant acc == LowestTemperatureScan(cellTemperature[..t])
      {
        assert cellTemperature[..t + 1][..t] == cellTemperature[..t];
        if cellTemperature[t] < -127 {
          t := t + 1;
          continue;
        }
        if cellTemperature[t] < acc {
          acc := U8(cellTemperature[t]);
        }
        t := t + 1;
      }
      assert cellTemperature[..t] == cellTemperature[..];
      lowest := I8(acc);
    }

    method GetHighestTemperature() returns (highest: int8)
      requires Valid()
      ensures highest == HighestTemperatureOf(cellTemperature[..])
    {
      highest := -40;
      var t := 0;
      while t < numTemperatureSensors
        invariant 0 <= t <= numTemperatureSensors
        invariant highest == HighestTemperatureOf(cellTemperature[..t])
      {
        assert cellTemperature[..t + 1][..t] == cellTemperature[..t];
        if cellTemperature[t] < -127 {
          t := t + 1;
          continue;
        }
        if cellTemperature[t] > highest {
          highest := cellTemperature[t];
        }
        t := t + 1;
      }
      assert cellTemperature[..t] == cellTemperature[..];
    }

    method HasTemperatureSensorOverMax() returns (overMax: bool)
      requires Valid()
      ensures overMax <==> SensorOverMax(cellTemperature[..])
    {
      var highest := GetHighestTemperature();
      overMax := highest > MAXIMUM_TEMPERATURE;
      OverMaxIffSomeSensorOverMax(cellTemperature[..]);
    }

    /**
     * The warning check; `beyond` is the content of the twelve slots the loop
     * reads past the four sensors.
     */
    method TemperatureAtWarningLevel(beyond: seq<int8>) returns (warning: bool)
      requires Valid() && |beyond| == numCells - numTemperatureSensors
      ensures warning == WarningLevelAsWritten(cellTemperature[..], beyond)
    {
      var slots := cellTemperature[..] + beyond;
      var c := 0;
      while c < numCells
        invariant 0 <= c <= numCells
        invariant forall k :: 0 <= k < c ==> !AtWarningLevel(slots[k])
      {
        if slots[c] >= WARNING_TEMPERATURE && slots[c] < MAXIMUM_TEMPERATURE {
          return true;
        }
        c := c + 1;
      }
      return false;
    }
  }
}
