/**
 * One battery pack: six modules behind a dedicated CAN port. The pack polls
 * its modules, decodes their voltage frames into the modules' cell arrays
 * and aggregates the readings.
 */
module Packs {
  import opened Settings
  import opened CTypes
  import opened CanFrames
  import opened Cells

  // ---------------------------------------------------------------------
  // Aggregates over the modules of a pack, as values. The scans mirror the
  // firmware loops, which fold the modules from the first one onwards.
  // ---------------------------------------------------------------------

  /** Pack voltage: the sum of the module voltages. */
  function PackVoltageOf(ms: seq<ModuleData>): int {
    if ms == [] then 0 else PackVoltageOf(ms[..|ms| - 1]) + CellSum(ms[|ms| - 1].cells)
  }

  /**
   * The pack voltage, kept in a float by the firmware, is an integer below
   * 2^24 and therefore exact: six modules of sixteen 16-bit cells.
   */
  lemma {:induction false} PackVoltageExactInFloat(ms: seq<ModuleData>)
    requires |ms| <= MODULES_PER_PACK
    requires forall m :: 0 <= m < |ms| ==> |ms[m].cells| == CELLS_PER_MODULE
    requires forall m, c :: 0 <= m < |ms| && 0 <= c < |ms[m].cells| ==> 0 <= ms[m].cells[c] <= 0xFFFF
    ensures 0 <= PackVoltageOf(ms) <= |ms| * CELLS_PER_MODULE * 0xFFFF < 0x100_0000
  {
    if ms != [] {
      var p := ms[..|ms| - 1];
      assert forall m :: 0 <= m < |p| ==> p[m] == ms[m];
      PackVoltageExactInFloat(p);
      var cells: seq<uint16> := ms[|ms| - 1].cells;
      CellSumBounds(cells);
    }
  }

  /** Lowest cell of the populated modules, scanning from 10000 mV. */
  function PackLowestCell(ms: seq<ModuleData>): int {
    if ms == [] then 10000
    else
      var acc := PackLowestCell(ms[..|ms| - 1]);
      var last := ms[|ms| - 1];
      if !last.populated then acc
      else if LowestCell(last.cells) < acc then LowestCell(last.cells)
      else acc
  }

  /**
   * The pack's lowest cell is the lowest cell of its populated modules; with
   * no populated module it is the start value 10000.
   */
  lemma {:induction false} PackLowestCellIsMinimum(ms: seq<ModuleData>)
    ensures PackLowestCell(ms) <= 10000
    ensures forall m, c :: 0 <= m < |ms| && ms[m].populated && 0 <= c < |ms[m].cells| ==> PackLowestCell(ms) <= ms[m].cells[c]
    ensures PackLowestCell(ms) == 10000
         || exists m, c :: 0 <= m < |ms| && ms[m].populated && 0 <= c < |ms[m].cells| && ms[m].cells[c] == PackLowestCell(ms)
    ensures (forall m :: 0 <= m < |ms| ==> !ms[m].populated) ==> PackLowestCell(ms) == 10000
  {
    if ms != [] {
      var p := ms[..|ms| - 1];
      assert forall m :: 0 <= m < |p| ==> p[m] == ms[m];
      PackLowestCellIsMinimum(p);
      LowestCellIsMinimum(ms[|ms| - 1].cells);
    }
  }

  /** Highest cell of the populated modules, scanning from 0 mV. */
  function PackHighestCell(ms: seq<ModuleData>): int {
    if ms == [] then 0
    else
      var acc := PackHighestCell(ms[..|ms| - 1]);
      var last := ms[|ms| - 1];
      if !last.populated then acc
      else if HighestCell(last.cells) > acc then HighestCell(last.cells)
      else acc
  }

  /** The pack's highest cell is the highest cell of its populated modules, or 0. */
  lemma {:induction false} PackHighestCellIsMaximum(ms: seq<ModuleData>)
    ensures PackHighestCell(ms) >= 0
    ensures forall m, c :: 0 <= m < |ms| && ms[m].populated && 0 <= c < |ms[m].cells| ==> ms[m].cells[c] <= PackHighestCell(ms)
    ensures PackHighestCell(ms) == 0
         || exists m, c :: 0 <= m < |ms| && ms[m].populated && 0 <= c < |ms[m].cells| && ms[m].cells[c] == PackHighestCell(ms)
    ensures (forall m :: 0 <= m < |ms| ==> !ms[m].populated) ==> PackHighestCell(ms) == 0
  {
    if ms != [] {
      var p := ms[..|ms| - 1];
      assert forall m :: 0 <= m < |p| ==> p[m] == ms[m];
      PackHighestCellIsMaximum(p);
      HighestCellIsMaximum(ms[|ms| - 1].cells);
    }
  }

  /** Some cell of some module, populated or not, is empty. */
  predicate PackHasEmptyCell(ms: seq<ModuleData>) {
    exists m :: 0 <= m < |ms| && AnyEmptyCell(ms[m].cells)
  }

  /** Some cell of some module, populated or not, is full. */
  predicate PackHasFullCell(ms: seq<ModuleData>) {
    exists m :: 0 <= m < |ms| && AnyFullCell(ms[m].cells)
  }

  /** Some sensor of some module, populated or not, is over the maximum. */
  predicate PackSensorOverMax(ms: seq<ModuleData>) {
    exists m :: 0 <= m < |ms| && SensorOverMax(ms[m].temps)
  }

  /** Lowest module temperature among populated modules, scanning from 126. */
  function PackLowestTemperature(ms: seq<ModuleData>): int {
    if ms == [] then 126
    else
      var acc := PackLowestTemperature(ms[..|ms| - 1]);
      var last := ms[|ms| - 1];
      if !last.populated then acc
      else if LowestTemperatureOf(last.temps) < acc then LowestTemperatureOf(last.temps)
      else acc
  }

  /** Highest module temperature among populated modules, scanning from -126. */
  function PackHighestTemperature(ms: seq<ModuleData>): int {
    if ms == [] then -126
    else
      var acc := PackHighestTemperature(ms[..|ms| - 1]);
      var last := ms[|ms| - 1];
      if !last.populated then acc
      else if HighestTemperatureOf(last.temps) > acc then HighestTemperatureOf(last.temps)
      else acc
  }

  /**
   * The pack's lowest temperature is the lowest of its populated modules'
   * lowest temperatures; it stays at the start value 126 only when no
   * populated module reports less.
   */
  lemma {:induction false} PackLowestTemperatureIsMinimum(ms: seq<ModuleData>)
    ensures PackLowestTemperature(ms) <= 126
    ensures forall m :: 0 <= m < |ms| && ms[m].populated ==> PackLowestTemperature(ms) <= LowestTemperatureOf(ms[m].temps)
    ensures PackLowestTemperature(ms) == 126
         || exists m :: 0 <= m < |ms| && ms[m].populated && LowestTemperatureOf(ms[m].temps) == PackLowestTemperature(ms)
  {
    if ms != [] {
      var p := ms[..|ms| - 1];
      assert forall m :: 0 <= m < |p| ==> p[m] == ms[m];
      PackLowestTemperatureIsMinimum(p);
    }
  }

  /**
   * The pack's highest temperature is the highest of its populated modules'
   * highest temperatures; it stays at the start value -126 only when no
   * populated module reports more.
   */
  lemma {:induction false} PackHighestTemperatureIsMaximum(ms: seq<ModuleData>)
    ensures PackHighestTemperature(ms) >= -126
    ensures forall m :: 0 <= m < |ms| && ms[m].populated ==> HighestTemperatureOf(ms[m].temps) <= PackHighestTemperature(ms)
    ensures PackHighestTemperature(ms) == -126
         || exists m :: 0 <= m < |ms| && ms[m].populated && HighestTemperatureOf(ms[m].temps) == PackHighestTemperature(ms)
  {
    if ms != [] {
      var p := ms[..|ms| - 1];
      assert forall m :: 0 <= m < |p| ==> p[m] == ms[m];
      PackHighestTemperatureIsMaximum(p);
    }
  }

  /** With no populated module the temperature scans keep their start values. */
  lemma {:induction false} UnpopulatedPackTemperatures(ms: seq<ModuleData>)
    requires forall m :: 0 <= m < |ms| ==> !ms[m].populated
    ensures PackLowestTemperature(ms) == 126 && PackHighestTemperature(ms) == -126
  {
    if ms != [] {
      var p := ms[..|ms| - 1];
      assert forall m :: 0 <= m < |p| ==> p[m] == ms[m];
      UnpopulatedPackTemperatures(p);
    }
  }

  // ---------------------------------------------------------------------
  // Charge current limit.
  // ---------------------------------------------------------------------

  /** Maximum charge current in amps for the hottest sensor from -10 to 39 degrees. */
  const CHARGE_CURRENT_TABLE: seq<int> := [
    3, 3, 3, 4, 4, 4, 5, 5, 6, 6,
    13, 20, 27, 34, 41, 48, 55, 62, 69, 76, 83, 90, 97, 104, 111, 118,
    125, 125, 125, 125, 125, 125, 125, 125, 125, 125, 125, 125, 125, 125, 125, 125, 125, 125, 125, 125,
    50, 50, 50, 50
  ]

  /**
   * Every entry lies between 0 and the maximum charge current: the table is
   * four runs, the cold steps, a ramp of 7 A per degree, the plateau at the
   * maximum and the hot steps.
   */
  lemma ChargeCurrentTableBounds(i: nat)
    requires i < |CHARGE_CURRENT_TABLE|
    ensures 0 <= CHARGE_CURRENT_TABLE[i] <= CHARGE_CURRENT_MAX
  {
    ChargeCurrentTableIsRuns();
    var cold := [3, 3, 3, 4, 4, 4, 5, 5, 6, 6];
    assert forall k :: 0 <= k < |cold| ==> 0 <= cold[k] <= 125;
    assert ChargeCurrentTableRuns()[i] == CHARGE_CURRENT_TABLE[i];
  }

  lemma ChargeCurrentTableIsRuns()
    ensures ChargeCurrentTableRuns() == CHARGE_CURRENT_TABLE
  {
  }

  function ChargeCurrentTableRuns(): seq<int> {
    [3, 3, 3, 4, 4, 4, 5, 5, 6, 6] + seq(16, k => 13 + 7 * k) + seq(20, _ => 125) + [50, 50, 50, 50]
  }

  /** A charge current limit, or a read outside the fifty-entry table. */
  datatype ChargeLimit = Limit(amps: int) | TableOverrun(index: int)

  function TableLookup(index: int): ChargeLimit {
    if 0 <= index < |CHARGE_CURRENT_TABLE| then Limit(CHARGE_CURRENT_TABLE[index]) else TableOverrun(index)
  }

  /**
   * The pack's charge current limit. Above the derating minimum and while
   * the pack warms by the threshold or more, the table value is scaled by
   * (10 - delta - threshold) / 100, an integer division.
   */
  function MaxChargeCurrentOf(ms: seq<ModuleData>, temperatureDelta: int): ChargeLimit {
    if PackHasFullCell(ms) then Limit(0)
    else if PackSensorOverMax(ms) then Limit(0)
    else if PackLowestTemperature(ms) < CHARGE_TEMPERATURE_MINIMUM then Limit(0)
    else
      var index := PackHighestTemperature(ms) + 10;
      if PackHighestTemperature(ms) < CHARGE_TEMPERATURE_DERATING_MINIMUM then TableLookup(index)
      else if temperatureDelta < CHARGE_TEMPERATURE_DERATING_THRESHOLD then TableLookup(index)
      else if temperatureDelta - CHARGE_TEMPERATURE_DERATING_THRESHOLD >= 10 then Limit(0)
      else
        match TableLookup(index)
        case Limit(a) => Limit(a * CDiv(10 - temperatureDelta - CHARGE_TEMPERATURE_DERATING_THRESHOLD, 100))
        case TableOverrun(i) => TableOverrun(i)
  }

  /**
   * What the limit promises: zero for a full cell, an over-hot sensor or a
   * too-cold pack; never more than 125 A; and, because the derating factor
   * is an integer division, nothing at all once the pack is above the
   * derating minimum and warming by the threshold or more.
   */
  lemma MaxChargeCurrentProperties(ms: seq<ModuleData>, temperatureDelta: int)
    ensures PackHasFullCell(ms) || PackSensorOverMax(ms) || PackLowestTemperature(ms) < CHARGE_TEMPERATURE_MINIMUM
            ==> MaxChargeCurrentOf(ms, temperatureDelta) == Limit(0)
    ensures MaxChargeCurrentOf(ms, temperatureDelta).Limit? ==> 0 <= MaxChargeCurrentOf(ms, temperatureDelta).amps <= CHARGE_CURRENT_MAX
    ensures (PackHighestTemperature(ms) >= CHARGE_TEMPERATURE_DERATING_MINIMUM && temperatureDelta >= CHARGE_TEMPERATURE_DERATING_THRESHOLD
             && MaxChargeCurrentOf(ms, temperatureDelta).Limit?) ==> MaxChargeCurrentOf(ms, temperatureDelta).amps == 0
  {
    forall i | 0 <= i < |CHARGE_CURRENT_TABLE| ensures 0 <= CHARGE_CURRENT_TABLE[i] <= CHARGE_CURRENT_MAX {
      ChargeCurrentTableBounds(i);
    }
    if 1 <= temperatureDelta < 11 {
      assert CDiv(10 - temperatureDelta - CHARGE_TEMPERATURE_DERATING_THRESHOLD, 100) == 0;
    }
  }

  /**
   * The guards let the table be read out of range: at 40 degrees and above
   * (up to the maximum of 50 the guards admit) the index passes 49.
   */
  lemma TableOverrunAtHighTemperature(ms: seq<ModuleData>, temperatureDelta: int)
    requires !PackHasFullCell(ms) && !PackSensorOverMax(ms) && PackLowestTemperature(ms) >= CHARGE_TEMPERATURE_MINIMUM
    requires 40 <= PackHighestTemperature(ms) && temperatureDelta < CHARGE_TEMPERATURE_DERATING_THRESHOLD
    ensures MaxChargeCurrentOf(ms, temperatureDelta) == TableOverrun(PackHighestTemperature(ms) + 10)
  {
  }

  /** A populated module at 45 degrees reaches that case. */
  lemma TableOverrunReachable()
    ensures var ms := [ModuleData(seq(CELLS_PER_MODULE, _ => 3700), [45, 45, 45, 0], true)];
            MaxChargeCurrentOf(ms, 0) == TableOverrun(55)
  {
    var cells := seq(CELLS_PER_MODULE, _ => 3700);
    var temps := [45, 45, 45, 0];
    var ms := [ModuleData(cells, temps, true)];
    assert ms[..0] == [];
    assert !AnyFullCell(cells);
    assert !SensorOverMax(temps);
    assert temps[..3] == [45, 45, 45] && [45, 45, 45][..2] == [45, 45] && [45, 45][..1] == [45] && [45][..0] == [];
    assert HighestTemperatureOf(temps) == 45;
    assert LowestTemperatureScan(temps) == 0;
    assert LowestTemperatureOf(temps) == 0;
    assert !PackHasFullCell(ms) && !PackSensorOverMax(ms);
    assert PackLowestTemperature(ms) == 0;
    assert PackHighestTemperature(ms) == 45;
  }

  /** A pack with no populated module reads the table far below its start. */
  lemma UnpopulatedPackOverrunsTable(ms: seq<ModuleData>, temperatureDelta: int)
    requires forall m :: 0 <= m < |ms| ==> !ms[m].populated
    requires !PackHasFullCell(ms) && !PackSensorOverMax(ms)
    ensures MaxChargeCurrentOf(ms, temperatureDelta) == TableOverrun(-116)
  {
    UnpopulatedPackTemperatures(ms);
  }

  // ---------------------------------------------------------------------
  // Frames.
  // ---------------------------------------------------------------------

  /** A 14-bit cell reading from two bytes, low byte first. */
  function CellReading(lo: uint8, hi: uint8): uint16 {
    lo as int + (hi as int % 0x40) * 0x100
  }

  /** Bits 4 to 7 of the identifier: which part of a module's report a frame holds. */
  function MessageKind(canId: nat): nat {
    (canId / 0x10) % 0x10
  }

  /** Bits 0 to 3 of the identifier: the module the frame comes from. */
  function ModuleIndex(canId: nat): nat {
    canId % 0x10
  }

  /** The cells after a voltage frame: three readings for kinds 2 to 6, one for kind 7. */
  function DecodedCells(cells: seq<int>, f: Frame): seq<int>
    requires |cells| == CELLS_PER_MODULE && WellFormed(f)
  {
    var k := MessageKind(f.id);
    var d := f.data;
    if 2 <= k <= 6 then
      var first := 3 * (k - 2);
      cells[first := CellReading(d[0], d[1])][first + 1 := CellReading(d[2], d[3])][first + 2 := CellReading(d[4], d[5])]
    else if k == 7 then cells[15 := CellReading(d[0], d[1])]
    else cells
  }

  /**
   * What a voltage frame does to the cells: it writes the readings of the
   * cells its kind names (each below 2^14), and leaves every other cell as it was.
   */
  lemma DecodedCellsSpec(cells: seq<int>, f: Frame, c: nat)
    requires |cells| == CELLS_PER_MODULE && WellFormed(f) && c < CELLS_PER_MODULE
    ensures |DecodedCells(cells, f)| == CELLS_PER_MODULE
    ensures var k := MessageKind(f.id);
            var written := (2 <= k <= 6 && 3 * (k - 2) <= c < 3 * (k - 2) + 3) || (k == 7 && c == 15);
            (written ==> DecodedCells(cells, f)[c] < 0x4000)
            && (written && k < 7 ==> DecodedCells(cells, f)[c] == CellReading(f.data[2 * (c - 3 * (k - 2))], f.data[2 * (c - 3 * (k - 2)) + 1]))
            && (written && k == 7 ==> DecodedCells(cells, f)[c] == CellReading(f.data[0], f.data[1]))
            && (!written ==> DecodedCells(cells, f)[c] == cells[c])
  {
  }

  /** Where the firmware sends a frame read from the pack's CAN port. */
  datatype Route = TemperatureFrame | VoltageFrame | Ignored

  predicate IsTemperatureFrame(canId: nat) {
    (canId / 0x10) % 0x100 == 0x18
  }

  predicate IsVoltageFrame(canId: nat) {
    0x99 < canId < 0x180
  }

  function RouteOf(canId: nat): (r: Route)
    ensures r == TemperatureFrame <==> IsTemperatureFrame(canId)
    ensures r == VoltageFrame <==> IsVoltageFrame(canId)
  {
    RoutesExclusive(canId);
    if IsTemperatureFrame(canId) then TemperatureFrame
    else if IsVoltageFrame(canId) then VoltageFrame
    else Ignored
  }

  /** The two tests of the reader never both hold, so a frame takes at most one route. */
  lemma RoutesExclusive(canId: nat)
    ensures !(IsTemperatureFrame(canId) && IsVoltageFrame(canId))
  {
    if IsVoltageFrame(canId) {
      assert canId / 0x10 < 0x18;
    }
  }

  /** The poll frame for one module; byte 7 is the checksum the caller's CRC gives the first seven bytes. */
  function PollFrame(m: nat, cycle: int, inStartup: bool, checksum: (seq<uint8>, nat) -> uint8): Frame {
    var shifted := U8(cycle * 0x10);
    var d6 := if inStartup && cycle == 2 then U8(shifted + 0x04) else shifted;
    var body := [0xC7, 0x10, 0x00, 0x00] + (if inStartup then [0x20, 0x00] else [0x40, 0x01]) + [d6];
    Frame(0x080 + m, 8, body + [checksum(body, m)])
  }

  /**
   * A poll frame carries back what produced it: the module in the low
   * nibble of the identifier, the polling cycle in the high nibble of byte 6,
   * and the startup marker 4 in its low nibble exactly in startup cycle 2.
   */
  lemma PollFrameDecodes(m: nat, cycle: int, inStartup: bool, checksum: (seq<uint8>, nat) -> uint8)
    requires m < 0x10 && 0 <= cycle < 0x10
    ensures var f := PollFrame(m, cycle, inStartup, checksum);
            WellFormed(f) && f.id / 0x10 == 8 && ModuleIndex(f.id) == m
            && f.data[6] / 0x10 == cycle
            && (f.data[6] % 0x10 == 4 <==> inStartup && cycle == 2)
            && (f.data[6] % 0x10 != 4 ==> f.data[6] % 0x10 == 0)
            && (f.data[4] == 0x20 <==> inStartup)
  {
  }

  /** Sets the contactor inhibit output of one pack. */
  method EnableInhibitContactorClose(pins: array<bool>, packId: nat)
    requires packId < pins.Length
    modifies pins
    ensures pins[..] == old(pins[..])[packId := true]
  {
    if !pins[packId] {
      pins[packId] := true;
    }
  }

  /** Clears the contactor inhibit output of one pack. */
  method DisableInhibitContactorClose(pins: array<bool>, packId: nat)
    requires packId < pins.Length
    modifies pins
    ensures pins[..] == old(pins[..])[packId := false]
  {
    if pins[packId] {
      pins[packId] := false;
    }
  }

  // ---------------------------------------------------------------------
  // The pack object.
  // ---------------------------------------------------------------------

  class BatteryPack {
    const id: nat
    const numModules: nat
    const modules: seq<BatteryModule>
    var voltage: int
    var cellDelta: int
    var errorStatus: int
    var balanceStatus: int
    var inStartup: bool
    var modulePollingCycle: uint8
    var pollModuleFrame: Frame
    var temperatureDelta: int8

    ghost const Repr: set<object>

    ghost predicate Valid() {
      this in Repr
      && numModules == |modules| == MODULES_PER_PACK
      && (forall m :: 0 <= m < |modules| ==>
            modules[m].Valid() && modules[m].Repr <= Repr && this !in modules[m].Repr)
      && (forall m, k :: 0 <= m < k < |modules| ==> modules[m].Repr !! modules[k].Repr)
    }

    /** The readings of every module, as values. */
    ghost function Data(): (d: seq<ModuleData>)
      reads Repr - {this}
      requires Valid()
      ensures |d| == |modules| && forall m :: 0 <= m < |modules| ==> d[m] == modules[m].Data()
    {
      seq(|modules|, m requires 0 <= m < |modules| reads Repr - {this} => modules[m].Data())
    }

    /** A new pack: six fresh modules, zero voltage, polling from cycle 0 in startup. */
    constructor (id: nat)
      ensures Valid() && fresh(Repr)
      ensures this.id == id && voltage == 0 && cellDelta == 0
      ensures inStartup && modulePollingCycle == 0
      ensures forall m :: 0 <= m < |modules| ==>
                Data()[m] == ModuleData(seq(CELLS_PER_MODULE, _ => 0), seq(TEMPS_PER_MODULE, _ => UNINITIALISED_TEMPERATURE), false)
    {
      var ms: seq<BatteryModule> := [];
      ghost var r: set<object> := {};
      var m := 0;
      while m < MODULES_PER_PACK
        invariant 0 <= m <= MODULES_PER_PACK && |ms| == m
        invariant forall k :: 0 <= k < m ==> ms[k].Valid() && fresh(ms[k].Repr) && ms[k].Repr <= r
        invariant forall k :: 0 <= k < m ==>
                    ms[k].cellVoltage[..] == seq(CELLS_PER_MODULE, _ => 0)
                    && ms[k].cellTemperature[..] == seq(TEMPS_PER_MODULE, _ => UNINITIALISED_TEMPERATURE)
                    && !ms[k].allModuleDataPopulated
        invariant forall k, j :: 0 <= k < j < m ==> ms[k].Repr !! ms[j].Repr
        invariant fresh(r)
      {
        var created := new BatteryModule(m);
        ms := ms + [created];
        r := r + created.Repr;
        m := m + 1;
      }
      this.id := id;
      numModules := MODULES_PER_PACK;
      modules := ms;
      voltage := 0;
      cellDelta := 0;
      errorStatus := 0;
      balanceStatus := 0;
      inStartup := true;
      modulePollingCycle := 0;
      pollModuleFrame := Frame(0, 0, []);
      temperatureDelta := 0;
      Repr := {this} + r;
    }

    /** Recomputes the pack voltage as the sum of the module voltages. */
    method RecalculateTotalVoltage()
      requires Valid()
      modifies this`voltage
      ensures voltage == PackVoltageOf(Data())
    {
      ghost var d := Data();
      var newVoltage: int := 0;
      var m := 0;
      while m < numModules
        invariant 0 <= m <= numModules
        invariant newVoltage == PackVoltageOf(d[..m])
      {
        assert d[..m + 1][..m] == d[..m];
        var moduleVoltage := modules[m].GetVoltage();
        newVoltage := newVoltage + moduleVoltage;
        m := m + 1;
      }
      assert d[..m] == d;
      voltage := newVoltage;
    }

    method GetLowestCellVoltage() returns (lowest: uint16)
      requires Valid()
      ensures lowest == PackLowestCell(Data())
    {
      ghost var d := Data();
      lowest := 10000;
      var m := 0;
      while m < numModules
        invariant 0 <= m <= numModules
        invariant lowest == PackLowestCell(d[..m])
      {
        assert d[..m + 1][..m] == d[..m];
        if !modules[m].allModuleDataPopulated {
          m := m + 1;
          continue;
        }
        var moduleLowest := modules[m].GetLowestCellVoltage();
        if moduleLowest < lowest {
          lowest := moduleLowest;
        }
        m := m + 1;
      }
      assert d[..m] == d;
    }

    method GetHighestCellVoltage() returns (highest: uint16)
      requires Valid()
      ensures highest == PackHighestCell(Data())
    {
      ghost var d := Data();
      highest := 0;
      var m := 0;
      while m < numModules
        invariant 0 <= m <= numModules
        invariant highest == PackHighestCell(d[..m])
      {
        assert d[..m + 1][..m] == d[..m];
        if !modules[m].allModuleDataPopulated {
          m := m + 1;
          continue;
        }
        var moduleHighest := modules[m].GetHighestCellVoltage();
        if moduleHighest > highest {
          highest := moduleHighest;
        }
        m := m + 1;
      }
      assert d[..m] == d;
    }

    method HasEmptyCell() returns (empty: bool)
      requires Valid()
      ensures empty <==> PackHasEmptyCell(Data())
    {
      var m := 0;
      while m < numModules
        invariant 0 <= m <= numModules
        invariant forall k :: 0 <= k < m ==> !AnyEmptyCell(modules[k].cellVoltage[..])
      {
        var moduleEmpty := modules[m].HasEmptyCell();
        if moduleEmpty {
          assert Data()[m].cells == modules[m].cellVoltage[..];
          return true;
        }
        m := m + 1;
      }
      return false;
    }

    method HasFullCell() returns (full: bool)
      requires Valid()
      ensures full <==> PackHasFullCell(Data())
    {
      var m := 0;
      while m < numModules
        invariant 0 <= m <= numModules
        invariant forall k :: 0 <= k < m ==> !AnyFullCell(modules[k].cellVoltage[..])
      {
        var moduleFull := modules[m].HasFullCell();
        if moduleFull {
          assert Data()[m].cells == modules[m].cellVoltage[..];
          return true;
        }
        m := m + 1;
      }
      return false;
    }

    /** Records the status frame's error and balance fields. */
    method SetStatus(f: Frame)
      requires WellFormed(f)
      modifies this`errorStatus, this`balanceStatus
      ensures errorStatus == I32(LittleEndian32(f.data[0], f.data[1], f.data[2], f.data[3]))
      ensures balanceStatus == f.data[5] as int * 0x100 + f.data[4] as int
    {
      errorStatus := I32(f.data[0] as int + f.data[1] as int * 0x100 + f.data[2] as int * 0x1_0000 + f.data[3] as int * 0x100_0000);
      balanceStatus := f.data[5] as int * 0x100 + f.data[4] as int;
    }

    /**
     * Decodes a voltage frame into the cells of the module it names. Kind 0
     * is the module's status frame. Afterwards a module not yet flagged as
     * populated has its flag recomputed.
     */
    method DecodeVoltages(f: Frame)
      requires Valid() && WellFormed(f) && ModuleIndex(f.id) < numModules
      modifies this`errorStatus, this`balanceStatus, modules[ModuleIndex(f.id)], modules[ModuleIndex(f.id)].cellVoltage
      ensures var mid := ModuleIndex(f.id);
              var before := old(Data())[mid];
              var cells := DecodedCells(before.cells, f);
              Data() == old(Data())[mid := ModuleData(cells, before.temps, before.populated || PopulatedAsWritten(cells, before.temps))]
      ensures MessageKind(f.id) == 0 ==>
                errorStatus == I32(LittleEndian32(f.data[0], f.data[1], f.data[2], f.data[3]))
                && balanceStatus == f.data[5] as int * 0x100 + f.data[4] as int
      ensures MessageKind(f.id) != 0 ==> errorStatus == old(errorStatus) && balanceStatus == old(balanceStatus)
    {
      var kind := MessageKind(f.id);
      var mid := ModuleIndex(f.id);
      var target := modules[mid];
      if kind == 0 {
        SetStatus(f);
      } else {
        StoreCellReadings(target, f);
      }
      if !target.allModuleDataPopulated {
        target.CheckIfModuleDataIsPopulated();
      }
      assert forall m :: 0 <= m < |modules| && m != mid ==> modules[m].Data() == old(modules[m].Data());
    }

    /** The cell writes of a voltage frame, by kind. */
    static method StoreCellReadings(target: BatteryModule, f: Frame)
      requires target.Valid() && WellFormed(f)
      modifies target.cellVoltage
      ensures target.cellVoltage[..] == DecodedCells(old(target.cellVoltage[..]), f)
    {
      var kind := MessageKind(f.id);
      var d := f.data;
      if 2 <= kind <= 6 {
        var first := 3 * (kind - 2);
        target.SetCellVoltage(first, CellReading(d[0], d[1]));
        target.SetCellVoltage(first + 1, CellReading(d[2], d[3]));
        target.SetCellVoltage(first + 2, CellReading(d[4], d[5]));
      } else if kind == 7 {
        target.SetCellVoltage(15, CellReading(d[0], d[1]));
      }
    }

    /** Recomputes the spread between the highest and the lowest cell. */
    method RecalculateCellDelta()
      requires Valid()
      modifies this`cellDelta
      ensures cellDelta == PackHighestCell(Data()) - PackLowestCell(Data())
    {
      var highest := GetHighestCellVoltage();
      var lowest := GetLowestCellVoltage();
      cellDelta := highest as int - lowest as int;
    }

    method ProcessVoltageUpdate()
      requires Valid()
      modifies this`voltage, this`cellDelta
      ensures voltage == PackVoltageOf(Data())
      ensures cellDelta == PackHighestCell(Data()) - PackLowestCell(Data())
    {
      RecalculateTotalVoltage();
      RecalculateCellDelta();
    }

    method HasTemperatureSensorOverMax() returns (overMax: bool)
      requires Valid()
      ensures overMax <==> PackSensorOverMax(Data())
    {
      var m := 0;
      while m < numModules
        invariant 0 <= m <= numModules
        invariant forall k :: 0 <= k < m ==> !SensorOverMax(modules[k].cellTemperature[..])
      {
        var moduleOverMax := modules[m].HasTemperatureSensorOverMax();
        if moduleOverMax {
          assert Data()[m].temps == modules[m].cellTemperature[..];
          return true;
        }
        m := m + 1;
      }
      return false;
    }

    method GetLowestTemperature() returns (lowest: int8)
      requires Valid()
      ensures lowest == PackLowestTemperature(Data())
    {
      ghost var d := Data();
      lowest := 126;
      var m := 0;
      while m < numModules
        invariant 0 <= m <= numModules
        invariant lowest == PackLowestTemperature(d[..m])
      {
        assert d[..m + 1][..m] == d[..m];
        if !modules[m].allModuleDataPopulated {
          m := m + 1;
          continue;
        }
        var moduleLowest := modules[m].GetLowestTemperature();
        if moduleLowest < lowest {
          lowest := moduleLowest;
        }
        m := m + 1;
      }
      assert d[..m] == d;
    }

    method GetHighestTemperature() returns (highest: int8)
      requires Valid()
      ensures highest == PackHighestTemperature(Data())
    {
      ghost var d := Data();
      highest := -126;
      var m := 0;
      while m < numModules
        invariant 0 <= m <= numModules
        invariant highest == PackHighestTemperature(d[..m])
      {
        assert d[..m + 1][..m] == d[..m];
        if !modules[m].allModuleDataPopulated {
          m := m + 1;
          continue;
        }
        var moduleHighest := modules[m].GetHighestTemperature();
        if moduleHighest > highest {
          highest := moduleHighest;
        }
        m := m + 1;
      }
      assert d[..m] == d;
    }

    /** The charge current this pack accepts, from its temperatures and warming rate. */
    method GetMaxChargeCurrent() returns (limit: ChargeLimit)
      requires Valid()
      ensures limit == MaxChargeCurrentOf(Data(), temperatureDelta)
    {
      var full := HasFullCell();
      if full {
        return Limit(0);
      }
      var overMax := HasTemperatureSensorOverMax();
      if overMax {
        return Limit(0);
      }
      var lowest := GetLowestTemperature();
      if lowest < CHARGE_TEMPERATURE_MINIMUM {
        return Limit(0);
      }
      var highest := GetHighestTemperature();
      if highest < CHARGE_TEMPERATURE_DERATING_MINIMUM {
        return TableLookup(highest + 10);
      }
      if temperatureDelta < CHARGE_TEMPERATURE_DERATING_THRESHOLD {
        return TableLookup(highest + 10);
      }
      if temperatureDelta - CHARGE_TEMPERATURE_DERATING_THRESHOLD >= 10 {
        return Limit(0);
      }
      var derateScaleFactor := CDiv(10 - temperatureDelta - CHARGE_TEMPERATURE_DERATING_THRESHOLD, 100);
      limit := match TableLookup(highest + 10)
        case Limit(a) => Limit(a * derateScaleFactor)
        case TableOverrun(i) => TableOverrun(i);
    }

    /**
     * Polls every module once: the cycle counter wraps from 15 back to 0, the
     * startup marker goes out in cycle 2 of startup, which then ends. The
     * frames handed to the CAN port are returned in order.
     */
    method RequestData(checksum: (seq<uint8>, nat) -> uint8) returns (sent: seq<Frame>)
      requires Valid()
      modifies this`modulePollingCycle, this`inStartup, this`pollModuleFrame
      ensures var cycle := if old(modulePollingCycle) == 0xF then 0 else old(modulePollingCycle);
              && |sent| == numModules
              && (forall m :: 0 <= m < numModules ==> sent[m] == PollFrame(m, cycle, old(inStartup), checksum))
              && pollModuleFrame == sent[numModules - 1]
              && inStartup == (old(inStartup) && cycle != 2)
              && modulePollingCycle == U8(cycle + 1)
    {
      if modulePollingCycle == 0xF {
        modulePollingCycle := 0;
      }
      sent := [];
      var m := 0;
      while m < numModules
        invariant 0 <= m <= numModules && |sent| == m
        invariant forall k :: 0 <= k < m ==> sent[k] == PollFrame(k, modulePollingCycle, inStartup, checksum)
        invariant m > 0 ==> pollModuleFrame == sent[m - 1]
        invariant inStartup == old(inStartup)
        invariant modulePollingCycle == if old(modulePollingCycle) == 0xF then 0 else old(modulePollingCycle)
      {
        var shifted := U8(modulePollingCycle * 0x10);
        var d6 := shifted;
        if inStartup && modulePollingCycle == 2 {
          d6 := U8(d6 + 0x04);
        }
        var body := [0xC7, 0x10, 0x00, 0x00] + (if inStartup then [0x20, 0x00] else [0x40, 0x01]) + [d6];
        pollModuleFrame := Frame(0x080 + m, 8, body + [checksum(body, m)]);
        sent := sent + [pollModuleFrame];
        m := m + 1;
      }
      if inStartup && modulePollingCycle == 2 {
        inStartup := false;
      }
      modulePollingCycle := U8(modulePollingCycle + 1);
    }
  }

  /** The polling cycle stays within 0..15 from one poll to the next. */
  lemma PollingCycleStaysInRange(cycle: uint8)
    requires cycle <= 0xF
    ensures var c := if cycle == 0xF then 0 else cycle; U8(c + 1) <= 0xF && (c + 1 == U8(c + 1))
  {
  }
}
