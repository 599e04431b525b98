/**
 * The battery: the packs in parallel, their contactor inhibit outputs, and
 * the figures the battery derives from its packs.
 */
module Batteries {
  import opened Settings
  import opened CTypes
  import opened Cells
  import opened Packs
  import opened Management

  // ---------------------------------------------------------------------
  // Pack voltages. Each scan folds the pack voltages from pack 0 onwards.
  // ---------------------------------------------------------------------

  /** The pack picked as highest: the first pack with the largest voltage above 0, else pack 0. */
  function HighPackScan(vs: seq<int>): (r: (int, int))
    ensures vs != [] ==> 0 <= r.0 < |vs|
  {
    if vs == [] then (0, 0)
    else
      var acc := HighPackScan(vs[..|vs| - 1]);
      if vs[|vs| - 1] > acc.1 then (|vs| - 1, vs[|vs| - 1]) else acc
  }

  function HighPackIndex(vs: seq<int>): (i: int)
    ensures vs != [] ==> 0 <= i < |vs|
  {
    HighPackScan(vs).0
  }

  /** The scan finds the first pack of highest voltage. */
  lemma {:induction false} HighPackIsFirstHighest(vs: seq<int>)
    requires vs != [] && forall p :: 0 <= p < |vs| ==> vs[p] >= 0
    ensures 0 <= HighPackIndex(vs) < |vs|
    ensures forall p :: 0 <= p < |vs| ==> vs[p] <= vs[HighPackIndex(vs)]
    ensures forall p :: 0 <= p < HighPackIndex(vs) ==> vs[p] < vs[HighPackIndex(vs)]
  {
    HighPackScanValue(vs);
  }

  lemma {:induction false} HighPackScanValue(vs: seq<int>)
    requires vs != [] && forall p :: 0 <= p < |vs| ==> vs[p] >= 0
    ensures 0 <= HighPackScan(vs).0 < |vs| && HighPackScan(vs).1 == vs[HighPackScan(vs).0]
    ensures forall p :: 0 <= p < |vs| ==> vs[p] <= HighPackScan(vs).1
    ensures forall p :: 0 <= p < HighPackScan(vs).0 ==> vs[p] < HighPackScan(vs).1
  {
    var prefix := vs[..|vs| - 1];
    if prefix != [] {
      assert forall p :: 0 <= p < |prefix| ==> prefix[p] == vs[p];
      HighPackScanValue(prefix);
    }
  }

  /**
   * The low-pack scan as written: it tests pack 0's voltage against the
   * running lowest on every pass, starting from 1000.
   */
  function LowPackScan(vs: seq<int>): (r: (int, int))
    ensures vs != [] ==> 0 <= r.0 < |vs|
  {
    if vs == [] then (0, 1000)
    else
      var acc := LowPackScan(vs[..|vs| - 1]);
      if vs[0] < acc.1 then (|vs| - 1, vs[|vs| - 1]) else acc
  }

  function LowPackIndex(vs: seq<int>): (i: int)
    ensures vs != [] ==> 0 <= i < |vs|
  {
    LowPackScan(vs).0
  }

  /**
   * The low-pack scan always names pack 0, whatever the voltages: after
   * the first pass the running lowest is pack 0's voltage (or 1000, when
   * pack 0 is at or above it), and pack 0 is never below itself.
   */
  lemma {:induction false} LowPackIsAlwaysFirst(vs: seq<int>)
    ensures LowPackIndex(vs) == 0
    ensures vs != [] ==> LowPackScan(vs).1 == vs[0] || (LowPackScan(vs).1 == 1000 && vs[0] >= 1000)
  {
    if |vs| > 1 {
      var prefix := vs[..|vs| - 1];
      assert prefix[0] == vs[0];
      LowPackIsAlwaysFirst(prefix);
      var acc := LowPackScan(prefix);
      assert !(vs[0] < acc.1);
      assert LowPackScan(vs) == acc;
    }
  }

  /** Highest and lowest pack voltage, from start values 0 and 1000000 mV, each stored as uint32. */
  function SpreadScan(vs: seq<int>): (int, int) {
    if vs == [] then (0, 1000000)
    else
      var acc := SpreadScan(vs[..|vs| - 1]);
      var v := vs[|vs| - 1];
      (if v > acc.0 then U32(v) else acc.0, if v < acc.1 then U32(v) else acc.1)
  }

  /** The largest voltage difference between two packs, as a uint32. */
  function VoltageDelta(vs: seq<int>): uint32 {
    U32(SpreadScan(vs).0 - SpreadScan(vs).1)
  }

  predicate PacksImbalanced(vs: seq<int>) {
    VoltageDelta(vs) >= SAFE_VOLTAGE_DELTA_BETWEEN_PACKS
  }

  lemma {:induction false} SpreadScanBounds(vs: seq<int>)
    requires vs != [] && forall p :: 0 <= p < |vs| ==> 0 <= vs[p] < 1000000
    ensures forall p :: 0 <= p < |vs| ==> SpreadScan(vs).1 <= vs[p] <= SpreadScan(vs).0
    ensures exists p :: 0 <= p < |vs| && vs[p] == SpreadScan(vs).0
    ensures exists p :: 0 <= p < |vs| && vs[p] == SpreadScan(vs).1
  {
    var prefix := vs[..|vs| - 1];
    if prefix != [] {
      assert forall p :: 0 <= p < |prefix| ==> prefix[p] == vs[p];
      SpreadScanBounds(prefix);
      var hi :| 0 <= hi < |prefix| && prefix[hi] == SpreadScan(prefix).0;
      var lo :| 0 <= lo < |prefix| && prefix[lo] == SpreadScan(prefix).1;
      var v := vs[|vs| - 1];
      if v > SpreadScan(prefix).0 {
        assert vs[|vs| - 1] == SpreadScan(vs).0;
      } else {
        assert vs[hi] == SpreadScan(vs).0;
      }
      if v < SpreadScan(prefix).1 {
        assert vs[|vs| - 1] == SpreadScan(vs).1;
      } else {
        assert vs[lo] == SpreadScan(vs).1;
      }
    } else {
      assert vs[0] == SpreadScan(vs).0 == SpreadScan(vs).1;
    }
  }

  /**
   * For pack voltages below 1000 V the delta is the spread of the packs:
   * no two packs differ by more, and some two differ by exactly that much.
   */
  lemma VoltageDeltaIsSpread(vs: seq<int>)
    requires vs != [] && forall p :: 0 <= p < |vs| ==> 0 <= vs[p] < 1000000
    ensures forall p, q :: 0 <= p < |vs| && 0 <= q < |vs| ==> vs[p] - vs[q] <= VoltageDelta(vs)
    ensures exists p, q :: 0 <= p < |vs| && 0 <= q < |vs| && vs[p] - vs[q] == VoltageDelta(vs)
  {
    SpreadScanBounds(vs);
    var hi :| 0 <= hi < |vs| && vs[hi] == SpreadScan(vs).0;
    var lo :| 0 <= lo < |vs| && vs[lo] == SpreadScan(vs).1;
    assert vs[hi] - vs[lo] == VoltageDelta(vs);
  }

  /** Two packs are imbalanced exactly when their voltages differ by 10 mV or more. */
  lemma TwoPacksImbalancedIff(v0: int, v1: int)
    requires 0 <= v0 < 1000000 && 0 <= v1 < 1000000
    ensures PacksImbalanced([v0, v1]) <==> (v0 - v1 >= SAFE_VOLTAGE_DELTA_BETWEEN_PACKS || v1 - v0 >= SAFE_VOLTAGE_DELTA_BETWEEN_PACKS)
  {
    VoltageDeltaIsSpread([v0, v1]);
    var vs := [v0, v1];
    assert vs[0] - vs[1] <= VoltageDelta(vs) && vs[1] - vs[0] <= VoltageDelta(vs);
  }

  method GetIndexOfHighPack(vs: seq<int>) returns (highPackIndex: int)
    ensures highPackIndex == HighPackIndex(vs)
  {
    highPackIndex := 0;
    var highPackVoltage := 0;
    var p := 0;
    while p < |vs|
      invariant 0 <= p <= |vs|
      invariant (highPackIndex, highPackVoltage) == HighPackScan(vs[..p])
    {
      assert vs[..p + 1][..p] == vs[..p];
      if vs[p] > highPackVoltage {
        highPackIndex := p;
        highPackVoltage := vs[p];
      }
      p := p + 1;
    }
    assert vs[..p] == vs;
  }

  method GetIndexOfLowPack(vs: seq<int>) returns (lowPackIndex: int)
    ensures lowPackIndex == LowPackIndex(vs)
  {
    lowPackIndex := 0;
    var lowPackVoltage := 1000;
    var p := 0;
    while p < |vs|
      invariant 0 <= p <= |vs|
      invariant (lowPackIndex, lowPackVoltage) == LowPackScan(vs[..p])
    {
      assert vs[..p + 1][..p] == vs[..p];
      if vs[0] < lowPackVoltage {
        lowPackIndex := p;
        lowPackVoltage := vs[p];
      }
      p := p + 1;
    }
    assert vs[..p] == vs;
  }

  method VoltageDeltaBetweenPacks(vs: seq<int>) returns (delta: uint32)
    ensures delta == VoltageDelta(vs)
  {
    var highestPackVoltage: uint32 := 0;
    var lowestPackVoltage: uint32 := 1000000;
    var p := 0;
    while p < |vs|
      invariant 0 <= p <= |vs|
      invariant (highestPackVoltage, lowestPackVoltage) == SpreadScan(vs[..p])
    {
      assert vs[..p + 1][..p] == vs[..p];
      var packVoltage := vs[p];
      if packVoltage > highestPackVoltage {
        highestPackVoltage := U32(packVoltage);
      }
      if packVoltage < lowestPackVoltage {
        lowestPackVoltage := U32(packVoltage);
      }
      p := p + 1;
    }
    assert vs[..p] == vs;
    delta := U32(highestPackVoltage - lowestPackVoltage);
  }

  method PacksAreImbalanced(vs: seq<int>) returns (imbalanced: bool)
    ensures imbalanced <==> PacksImbalanced(vs)
  {
    var delta := VoltageDeltaBetweenPacks(vs);
    imbalanced := delta >= SAFE_VOLTAGE_DELTA_BETWEEN_PACKS;
  }

  // ---------------------------------------------------------------------
  // Contactor inhibit outputs, one per pack: true while the pack's
  // contactors are not allowed to close.
  // ---------------------------------------------------------------------

  predicate AnyInhibited(s: seq<bool>) {
    exists p :: 0 <= p < |s| && s[p]
  }

  predicate AllInhibited(s: seq<bool>) {
    forall p :: 0 <= p < |s| ==> s[p]
  }

  /**
   * Release for drive: the high pack, and every pack whose voltage is at
   * least the high pack's less 10 mV, computed in uint32 arithmetic.
   */
  function ReleasedForDrive(s: seq<bool>, vs: seq<int>): (r: seq<bool>)
    requires |s| == |vs| > 0
    ensures |r| == |s|
  {
    var high := HighPackIndex(vs);
    var target := U32(U32(vs[high]) - SAFE_VOLTAGE_DELTA_BETWEEN_PACKS);
    seq(|s|, p requires 0 <= p < |s| => if p == high || vs[p] >= target then false else s[p])
  }

  /**
   * Release for charge: the low pack, and every pack whose voltage is at
   * most the low pack's plus 10 mV.
   */
  function ReleasedForCharge(s: seq<bool>, vs: seq<int>): (r: seq<bool>)
    requires |s| == |vs| > 0
    ensures |r| == |s|
  {
    var low := LowPackIndex(vs);
    var target := U32(U32(vs[low]) + SAFE_VOLTAGE_DELTA_BETWEEN_PACKS);
    seq(|s|, p requires 0 <= p < |s| => if p == low || vs[p] <= target then false else s[p])
  }

  /**
   * Releasing for drive never inhibits a pack, always releases the high
   * pack, and releases only packs within 10 mV of it, so any two packs it
   * releases differ by at most 10 mV.
   */
  lemma ReleaseForDriveKeepsPacksTogether(s: seq<bool>, vs: seq<int>)
    requires |s| == |vs| > 0
    requires forall p :: 0 <= p < |vs| ==> 0 <= vs[p] < 0x1_0000_0000
    ensures var r := ReleasedForDrive(s, vs);
      && !r[HighPackIndex(vs)]
      && (forall p :: 0 <= p < |s| && r[p] ==> s[p])
      && (vs[HighPackIndex(vs)] >= SAFE_VOLTAGE_DELTA_BETWEEN_PACKS ==>
            forall p :: 0 <= p < |s| && s[p] && !r[p] ==>
              vs[HighPackIndex(vs)] - SAFE_VOLTAGE_DELTA_BETWEEN_PACKS <= vs[p] <= vs[HighPackIndex(vs)])
      && (vs[HighPackIndex(vs)] >= SAFE_VOLTAGE_DELTA_BETWEEN_PACKS ==>
            forall p, q :: 0 <= p < |s| && 0 <= q < |s| && s[p] && !r[p] && s[q] && !r[q] ==>
              vs[p] - vs[q] <= SAFE_VOLTAGE_DELTA_BETWEEN_PACKS)
  {
    HighPackIsFirstHighest(vs);
  }

  /**
   * When the high pack is below 10 mV the uint32 target wraps to nearly
   * 2^32 and only the high pack is released.
   */
  lemma ReleaseForDriveWrapsBelowTenMillivolts(s: seq<bool>, vs: seq<int>)
    requires |s| == |vs| > 0
    requires forall p :: 0 <= p < |vs| ==> 0 <= vs[p] < 0x1_0000_0000
    requires vs[HighPackIndex(vs)] < SAFE_VOLTAGE_DELTA_BETWEEN_PACKS
    ensures forall p :: 0 <= p < |s| && p != HighPackIndex(vs) ==> ReleasedForDrive(s, vs)[p] == s[p]
  {
    HighPackIsFirstHighest(vs);
  }

  /**
   * Because the low pack is always pack 0, releasing for charge frees every
   * pack at or below pack 0's voltage plus 10 mV, however far below.
   */
  lemma ReleaseForChargeMeasuresFromFirstPack(s: seq<bool>, vs: seq<int>)
    requires |s| == |vs| > 0
    requires forall p :: 0 <= p < |vs| ==> 0 <= vs[p] < 0x1_0000_0000 - SAFE_VOLTAGE_DELTA_BETWEEN_PACKS
    ensures forall p :: 0 <= p < |s| ==>
      ReleasedForCharge(s, vs)[p] == (s[p] && p != 0 && vs[p] > vs[0] + SAFE_VOLTAGE_DELTA_BETWEEN_PACKS)
  {
    LowPackIsAlwaysFirst(vs);
  }

  /** Packs 100 V apart, pack 1 the lower: releasing for charge frees both. */
  lemma ReleaseForChargeJoinsImbalancedPacks()
    ensures PacksImbalanced([400000, 300000])
    ensures ReleasedForCharge([true, true], [400000, 300000]) == [false, false]
  {
    TwoPacksImbalancedIff(400000, 300000);
    ReleaseForChargeMeasuresFromFirstPack([true, true], [400000, 300000]);
  }

  method OneOrMoreContactorsInhibited(pins: array<bool>) returns (inhibited: bool)
    ensures inhibited <==> AnyInhibited(pins[..])
  {
    var p := 0;
    while p < pins.Length
      invariant 0 <= p <= pins.Length
      invariant forall k :: 0 <= k < p ==> !pins[k]
    {
      if pins[p] {
        return true;
      }
      p := p + 1;
    }
    return false;
  }

  method AllContactorsInhibited(pins: array<bool>) returns (inhibited: bool)
    ensures inhibited <==> AllInhibited(pins[..])
  {
    var p := 0;
    while p < pins.Length
      invariant 0 <= p <= pins.Length
      invariant forall k :: 0 <= k < p ==> pins[k]
    {
      if !pins[p] {
        return false;
      }
      p := p + 1;
    }
    return true;
  }

  /** Inhibits every pack's contactors. */
  method InhibitAllContactors(pins: array<bool>)
    modifies pins
    ensures pins[..] == seq(pins.Length, _ => true)
  {
    var all := AllContactorsInhibited(pins);
    if !all {
      var p := 0;
      while p < pins.Length
        invariant 0 <= p <= pins.Length
        invariant forall k :: 0 <= k < p ==> pins[k]
      {
        EnableInhibitContactorClose(pins, p);
        p := p + 1;
      }
    }
  }

  /** Releases every pack's contactors. */
  method ReleaseAllContactors(pins: array<bool>)
    modifies pins
    ensures pins[..] == seq(pins.Length, _ => false)
  {
    var any := OneOrMoreContactorsInhibited(pins);
    if any {
      var p := 0;
      while p < pins.Length
        invariant 0 <= p <= pins.Length
        invariant forall k :: 0 <= k < p ==> !pins[k]
        invariant forall k :: p <= k < pins.Length ==> pins[k] == old(pins[k])
      {
        DisableInhibitContactorClose(pins, p);
        p := p + 1;
      }
    }
  }

  method ReleaseContactorsForDrive(pins: array<bool>, vs: seq<int>)
    requires pins.Length == |vs| == NUM_PACKS
    modifies pins
    ensures pins[..] == ReleasedForDrive(old(pins[..]), vs)
  {
    var highPackId := GetIndexOfHighPack(vs);
    var targetVoltage := U32(U32(vs[highPackId]) - SAFE_VOLTAGE_DELTA_BETWEEN_PACKS);
    var p := 0;
    while p < pins.Length
      invariant 0 <= p <= pins.Length
      invariant forall k :: 0 <= k < p ==> pins[k] == ReleasedForDrive(old(pins[..]), vs)[k]
      invariant forall k :: p <= k < pins.Length ==> pins[k] == old(pins[k])
    {
      if p == highPackId {
        DisableInhibitContactorClose(pins, p);
      } else if vs[p] >= targetVoltage {
        DisableInhibitContactorClose(pins, p);
      }
      p := p + 1;
    }
  }

  method ReleaseContactorsForCharge(pins: array<bool>, vs: seq<int>)
    requires pins.Length == |vs| == NUM_PACKS
    modifies pins
    ensures pins[..] == ReleasedForCharge(old(pins[..]), vs)
  {
    var lowPackId := GetIndexOfLowPack(vs);
    var targetVoltage := U32(U32(vs[lowPackId]) + SAFE_VOLTAGE_DELTA_BETWEEN_PACKS);
    var p := 0;
    while p < pins.Length
      invariant 0 <= p <= pins.Length
      invariant forall k :: 0 <= k < p ==> pins[k] == ReleasedForCharge(old(pins[..]), vs)[k]
      invariant forall k :: p <= k < pins.Length ==> pins[k] == old(pins[k])
    {
      if p == lowPackId {
        DisableInhibitContactorClose(pins, p);
      } else if vs[p] <= targetVoltage {
        DisableInhibitContactorClose(pins, p);
      }
      p := p + 1;
    }
  }

  // ---------------------------------------------------------------------
  // Temperatures and charge current across the packs.
  // ---------------------------------------------------------------------

  /** Highest of the values, scanning from the first one. */
  function MaxFromFirst(xs: seq<int>): int
    requires xs != []
  {
    if |xs| == 1 then xs[0]
    else
      var acc := MaxFromFirst(xs[..|xs| - 1]);
      if xs[|xs| - 1] > acc then xs[|xs| - 1] else acc
  }

  /** Lowest of the values, scanning from the first one. */
  function MinFromFirst(xs: seq<int>): int
    requires xs != []
  {
    if |xs| == 1 then xs[0]
    else
      var acc := MinFromFirst(xs[..|xs| - 1]);
      if xs[|xs| - 1] < acc then xs[|xs| - 1] else acc
  }

  lemma {:induction false} MaxFromFirstIsMaximum(xs: seq<int>)
    requires xs != []
    ensures forall i :: 0 <= i < |xs| ==> xs[i] <= MaxFromFirst(xs)
    ensures exists i :: 0 <= i < |xs| && xs[i] == MaxFromFirst(xs)
  {
    if |xs| > 1 {
      var prefix := xs[..|xs| - 1];
      assert forall i :: 0 <= i < |prefix| ==> prefix[i] == xs[i];
      MaxFromFirstIsMaximum(prefix);
      var w :| 0 <= w < |prefix| && prefix[w] == MaxFromFirst(prefix);
      if xs[|xs| - 1] <= MaxFromFirst(prefix) {
        assert xs[w] == MaxFromFirst(xs);
      }
    } else {
      assert xs[0] == MaxFromFirst(xs);
    }
  }

  lemma {:induction false} MinFromFirstIsMinimum(xs: seq<int>)
    requires xs != []
    ensures forall i :: 0 <= i < |xs| ==> MinFromFirst(xs) <= xs[i]
    ensures exists i :: 0 <= i < |xs| && xs[i] == MinFromFirst(xs)
  {
    if |xs| > 1 {
      var prefix := xs[..|xs| - 1];
      assert forall i :: 0 <= i < |prefix| ==> prefix[i] == xs[i];
      MinFromFirstIsMinimum(prefix);
      var w :| 0 <= w < |prefix| && prefix[w] == MinFromFirst(prefix);
      if xs[|xs| - 1] >= MinFromFirst(prefix) {
        assert xs[w] == MinFromFirst(xs);
      }
    } else {
      assert xs[0] == MinFromFirst(xs);
    }
  }

  /** The smallest per-pack limit, each stored in a uint16 as it is read. */
  function SmallestLimit(limits: seq<int>): uint16
    requires limits != []
  {
    if |limits| == 1 then U16(limits[0])
    else
      var acc := SmallestLimit(limits[..|limits| - 1]);
      if limits[|limits| - 1] < acc then U16(limits[|limits| - 1]) else acc
  }

  /** Pack 0 always counts as active; every later pack counts when its contactors are not inhibited. */
  function ActivePacks(inhibited: seq<bool>): nat
    requires inhibited != []
  {
    if |inhibited| == 1 then 1
    else ActivePacks(inhibited[..|inhibited| - 1]) + (if inhibited[|inhibited| - 1] then 0 else 1)
  }

  /**
   * The charge current the battery accepts: nothing when too hot or too
   * cold to charge, otherwise the smallest pack limit times the number of
   * active packs, in uint16 arithmetic.
   */
  function ChargeCurrentByTemperature(tooHot: bool, tooCold: bool, limits: seq<int>, inhibited: seq<bool>): uint16
    requires |limits| == |inhibited| > 0
  {
    if tooHot || tooCold then 0
    else U16(SmallestLimit(limits) * U8(ActivePacks(inhibited)))
  }

  /**
   * For two packs with limits in uint16 range, the current is the smaller
   * limit, doubled only when pack 1 is not inhibited: pack 0 counts as
   * active even when its own contactors are inhibited.
   */
  lemma TwoPackChargeCurrent(l0: uint16, l1: uint16, inhibited: seq<bool>)
    requires |inhibited| == 2
    ensures ChargeCurrentByTemperature(false, false, [l0, l1], inhibited)
            == U16((if l1 < l0 then l1 else l0) * (if inhibited[1] then 1 else 2))
  {
    assert [l0, l1][..1] == [l0];
    assert SmallestLimit([l0, l1]) == if l1 < l0 then l1 else l0;
    assert inhibited[..1] == [inhibited[0]];
    assert ActivePacks(inhibited) == if inhibited[1] then 1 else 2;
  }

  /** Pack 0's inhibit output never changes the charge current. */
  lemma ChargeCurrentIgnoresFirstPackInhibit(limits: seq<int>, inhibited: seq<bool>, b: bool)
    requires |limits| == |inhibited| > 0
    ensures ActivePacks(inhibited[0 := b]) == ActivePacks(inhibited)
  {
    FirstEntryIgnored(inhibited, b);
  }

  lemma {:induction false} FirstEntryIgnored(inhibited: seq<bool>, b: bool)
    requires inhibited != []
    ensures ActivePacks(inhibited[0 := b]) == ActivePacks(inhibited)
  {
    if |inhibited| > 1 {
      var prefix := inhibited[..|inhibited| - 1];
      FirstEntryIgnored(prefix, b);
      assert inhibited[0 := b][..|inhibited| - 1] == prefix[0 := b];
    }
  }

  /** Outcome of the module liveness query: a byte, or the fault the query runs into. */
  datatype Liveness =
    | LivenessByte(value: int8)
    | DivisionByZero
    | PackOutOfRange(packId: int)
    | ModuleOutOfRange(packId: int, moduleId: int)

  predicate CellOutOfRange(v: int) {
    v < CELL_EMPTY_VOLTAGE || v > CELL_FULL_VOLTAGE
  }

  predicate TemperatureOutOfRange(t: int) {
    t < -20 || t > MAXIMUM_TEMPERATURE
  }

  // ---------------------------------------------------------------------
  // The battery object.
  // ---------------------------------------------------------------------

  class Battery {
    const packs: seq<BatteryPack>
    const bms: Bms
    /** Per pack, true while the pack's contactors are not allowed to close. */
    const inhibitPins: array<bool>
    var voltage: uint32
    var lowestCellVoltage: uint16
    var highestCellVoltage: uint16
    var cellDelta: uint8
    var lowestSensorTemperature: int
    var highestSensorTemperature: int

    /** Every object of the packs, and the part of it that holds the modules' readings. */
    ghost const Repr: set<object>
    ghost const CellRepr: set<object>

    ghost predicate Valid() {
      |packs| == NUM_PACKS && inhibitPins.Length == NUM_PACKS
      && this !in Repr && bms !in Repr && inhibitPins !in Repr && CellRepr <= Repr
      && (forall p :: 0 <= p < |packs| ==>
            packs[p].Valid() && packs[p].Repr <= Repr
            && packs[p] !in CellRepr && packs[p].Repr - {packs[p]} <= CellRepr)
      && (forall p, q :: 0 <= p < q < |packs| ==> packs[p].Repr !! packs[q].Repr)
    }

    /** The pack voltages. */
    function Voltages(): (vs: seq<int>)
      requires Valid()
      reads packs
      ensures |vs| == |packs| && forall p :: 0 <= p < |packs| ==> vs[p] == packs[p].voltage
    {
      seq(|packs|, p requires 0 <= p < |packs| reads packs => packs[p].voltage)
    }

    /** The sum of each pack's cell readings, which a voltage update makes the pack's voltage. */
    ghost function PackSums(): (r: seq<int>)
      requires Valid()
      reads CellRepr
      ensures |r| == |packs| && forall p :: 0 <= p < |packs| ==> r[p] == PackVoltageOf(packs[p].Data())
    {
      seq(|packs|, p requires 0 <= p < |packs| reads CellRepr => PackVoltageOf(packs[p].Data()))
    }

    /** Every pack's module readings. */
    ghost function PackData(): (r: seq<seq<ModuleData>>)
      requires Valid()
      reads CellRepr
      ensures |r| == |packs| && forall p :: 0 <= p < |packs| ==> r[p] == packs[p].Data()
    {
      seq(|packs|, p requires 0 <= p < |packs| reads CellRepr => packs[p].Data())
    }

    /** Every pack's voltage and cell delta agree with its readings. */
    ghost predicate PackFiguresCurrent()
      requires Valid()
      reads Repr
    {
      forall p :: 0 <= p < |packs| ==>
        packs[p].voltage == PackVoltageOf(packs[p].Data())
        && packs[p].cellDelta == PackHighestCell(packs[p].Data()) - PackLowestCell(packs[p].Data())
    }

    /** Each pack's lowest and highest cell voltage, and lowest and highest temperature. */
    ghost function Lows(): (r: seq<int>)
      requires Valid()
      reads CellRepr
      ensures |r| == |packs| && forall p :: 0 <= p < |packs| ==> r[p] == PackLowestCell(packs[p].Data())
    {
      seq(|packs|, p requires 0 <= p < |packs| reads CellRepr => PackLowestCell(packs[p].Data()))
    }

    ghost function Highs(): (r: seq<int>)
      requires Valid()
      reads CellRepr
      ensures |r| == |packs| && forall p :: 0 <= p < |packs| ==> r[p] == PackHighestCell(packs[p].Data())
    {
      seq(|packs|, p requires 0 <= p < |packs| reads CellRepr => PackHighestCell(packs[p].Data()))
    }

    ghost function LowTemperatures(): (r: seq<int>)
      requires Valid()
      reads CellRepr
      ensures |r| == |packs| && forall p :: 0 <= p < |packs| ==> r[p] == PackLowestTemperature(packs[p].Data())
    {
      seq(|packs|, p requires 0 <= p < |packs| reads CellRepr => PackLowestTemperature(packs[p].Data()))
    }

    ghost function HighTemperatures(): (r: seq<int>)
      requires Valid()
      reads CellRepr
      ensures |r| == |packs| && forall p :: 0 <= p < |packs| ==> r[p] == PackHighestTemperature(packs[p].Data())
    {
      seq(|packs|, p requires 0 <= p < |packs| reads CellRepr => PackHighestTemperature(packs[p].Data()))
    }

    /** A battery of two new packs, with every derived figure at zero. */
    constructor (bms: Bms)
      ensures Valid() && fresh(Repr) && fresh(inhibitPins) && this.bms == bms
      ensures forall p :: 0 <= p < |packs| ==> packs[p].id == p
      ensures voltage == 0 && lowestCellVoltage == 0 && highestCellVoltage == 0
      ensures lowestSensorTemperature == 0 && highestSensorTemperature == 0
    {
      var ps: seq<BatteryPack> := [];
      ghost var r: set<object> := {};
      ghost var cells: set<object> := {};
      var p := 0;
      while p < NUM_PACKS
        invariant 0 <= p <= NUM_PACKS && |ps| == p
        invariant forall k :: 0 <= k < p ==> ps[k].Valid() && fresh(ps[k].Repr) && ps[k].Repr <= r && ps[k].id == k
        invariant forall k :: 0 <= k < p ==> ps[k] !in cells && ps[k].Repr - {ps[k]} <= cells
        invariant forall k, j :: 0 <= k < j < p ==> ps[k].Repr !! ps[j].Repr
        invariant fresh(r) && cells <= r
      {
        var created := new BatteryPack(p);
        ps := ps + [created];
        r := r + created.Repr;
        cells := cells + (created.Repr - {created});
        p := p + 1;
      }
      packs := ps;
      this.bms := bms;
      inhibitPins := new bool[NUM_PACKS];
      voltage := 0;
      lowestCellVoltage := 0;
      highestCellVoltage := 0;
      lowestSensorTemperature := 0;
      highestSensorTemperature := 0;
      Repr := r;
      CellRepr := cells;
    }

    /** The highest pack voltage, each candidate stored as a uint32. */
    method HighestPackVoltage() returns (highest: uint32)
      requires Valid()
      ensures highest == SpreadScan(Voltages()).0
    {
      ghost var vs := Voltages();
      highest := 0;
      var p := 0;
      while p < |packs|
        invariant 0 <= p <= |packs|
        invariant highest == SpreadScan(vs[..p]).0
      {
        assert vs[..p + 1][..p] == vs[..p];
        if packs[p].voltage > highest {
          highest := U32(packs[p].voltage);
        }
        p := p + 1;
      }
      assert vs[..p] == vs;
    }

    /** The battery voltage is the highest pack voltage (packs are in parallel). */
    method RecalculateVoltage()
      requires Valid()
      modifies this`voltage
      ensures voltage == SpreadScan(Voltages()).0
    {
      voltage := HighestPackVoltage();
    }

    method RecalculateCellDelta()
      modifies this`cellDelta
      ensures cellDelta == U8(highestCellVoltage - lowestCellVoltage)
    {
      cellDelta := U8(highestCellVoltage - lowestCellVoltage);
    }

    /** The lowest cell of the battery, scanning the packs from pack 1: pack 0 is never consulted. */
    method LowestCellFromPackOne() returns (lowest: uint16)
      requires Valid()
      ensures lowest == LowestCell(Lows()[1..])
    {
      ghost var lows := Lows();
      lowest := 10000;
      var p := 1;
      while p < |packs|
        invariant 1 <= p <= |packs|
        invariant lowest == LowestCell(lows[1..p])
      {
        assert lows[1..p + 1][..p - 1] == lows[1..p];
        var packLowest := packs[p].GetLowestCellVoltage();
        assert packLowest as int == lows[p];
        if packLowest < lowest {
          lowest := packLowest;
        }
        p := p + 1;
      }
      assert lows[1..p] == lows[1..];
    }

    /** The highest cell of the battery, over every pack. */
    method HighestCellOfPacks() returns (highest: uint16)
      requires Valid()
      ensures highest == HighestCell(Highs())
    {
      ghost var highs := Highs();
      highest := 0;
      var p := 0;
      while p < |packs|
        invariant 0 <= p <= |packs|
        invariant highest == HighestCell(highs[..p])
      {
        assert highs[..p + 1][..p] == highs[..p];
        var packHighest := packs[p].GetHighestCellVoltage();
        assert packHighest as int == highs[p];
        if packHighest > highest {
          highest := packHighest;
        }
        p := p + 1;
      }
      assert highs[..p] == highs;
    }

    /** Records the lowest cell; one outside the empty-full range raises the internal error. */
    method RecalculateLowestCellVoltage()
      requires Valid()
      modifies this`lowestCellVoltage, bms`internalError
      ensures lowestCellVoltage == LowestCell(old(Lows())[1..])
      ensures bms.internalError == (old(bms.internalError) || CellOutOfRange(lowestCellVoltage))
    {
      var newLowestCellVoltage := LowestCellFromPackOne();
      if newLowestCellVoltage < CELL_EMPTY_VOLTAGE || newLowestCellVoltage > CELL_FULL_VOLTAGE {
        bms.SetInternalError();
      }
      lowestCellVoltage := newLowestCellVoltage;
    }

    /** Records the highest cell; one outside the empty-full range raises the internal error. */
    method RecalculateHighestCellVoltage()
      requires Valid()
      modifies this`highestCellVoltage, bms`internalError
      ensures highestCellVoltage == HighestCell(old(Highs()))
      ensures bms.internalError == (old(bms.internalError) || CellOutOfRange(highestCellVoltage))
    {
      var newHighestCellVoltage := HighestCellOfPacks();
      if newHighestCellVoltage < CELL_EMPTY_VOLTAGE || newHighestCellVoltage > CELL_FULL_VOLTAGE {
        bms.SetInternalError();
      }
      highestCellVoltage := newHighestCellVoltage;
    }

    method HasEmptyCell() returns (empty: bool)
      requires Valid()
      ensures empty <==> exists p :: 0 <= p < |packs| && PackHasEmptyCell(packs[p].Data())
    {
      var p := 0;
      while p < |packs|
        invariant 0 <= p <= |packs|
        invariant forall k :: 0 <= k < p ==> !PackHasEmptyCell(packs[k].Data())
      {
        var packEmpty := packs[p].HasEmptyCell();
        if packEmpty {
          return true;
        }
        p := p + 1;
      }
      return false;
    }

    method HasFullCell() returns (full: bool)
      requires Valid()
      ensures full <==> exists p :: 0 <= p < |packs| && PackHasFullCell(packs[p].Data())
    {
      var p := 0;
      while p < |packs|
        invariant 0 <= p <= |packs|
        invariant forall k :: 0 <= k < p ==> !PackHasFullCell(packs[k].Data())
      {
        var packFull := packs[p].HasFullCell();
        if packFull {
          return true;
        }
        p := p + 1;
      }
      return false;
    }

    /** Every pack recomputes its voltage and cell delta; no cell reading changes. */
    method UpdatePackVoltages()
      requires Valid()
      modifies packs
      ensures PackFiguresCurrent() && PackData() == old(PackData())
      ensures unchanged(CellRepr)
    {
      ghost var readings := PackData();
      var p := 0;
      while p < |packs|
        invariant 0 <= p <= |packs|
        invariant PackData() == readings
        invariant forall k :: 0 <= k < p ==>
                    packs[k].voltage == PackVoltageOf(readings[k])
                    && packs[k].cellDelta == PackHighestCell(readings[k]) - PackLowestCell(readings[k])
      {
        packs[p].ProcessVoltageUpdate();
        p := p + 1;
      }
    }

    /** Every pack recomputes its voltage and cell delta, then the battery its voltage. */
    method UpdateVoltages()
      requires Valid()
      modifies packs, this`voltage
      ensures PackFiguresCurrent() && PackData() == old(PackData())
      ensures voltage == SpreadScan(old(PackSums())).0
      ensures unchanged(CellRepr)
    {
      UpdatePackVoltages();
      assert Voltages() == old(PackSums());
      RecalculateVoltage();
    }

    /**
     * New cell voltages: every pack recomputes its voltage and cell delta,
     * then the battery recalculates its voltage, its cell delta, its lowest
     * cell and its highest cell, in that order, and last records a heartbeat
     * when the refreshed pack voltages are balanced.
     */
    method ProcessVoltageUpdate()
      requires Valid()
      modifies packs, this`voltage, this`cellDelta, this`lowestCellVoltage, this`highestCellVoltage, bms`internalError
      modifies bms`packVoltagesMatchHeartbeats
      ensures PackFiguresCurrent() && PackData() == old(PackData())
      ensures voltage == SpreadScan(old(PackSums())).0
      ensures cellDelta == U8(old(highestCellVoltage) - old(lowestCellVoltage))
      ensures lowestCellVoltage == LowestCell(old(Lows())[1..]) && highestCellVoltage == HighestCell(old(Highs()))
      ensures bms.internalError == (old(bms.internalError) || CellOutOfRange(lowestCellVoltage) || CellOutOfRange(highestCellVoltage))
      ensures bms.packVoltagesMatchHeartbeats
              == old(bms.packVoltagesMatchHeartbeats) + (if PacksImbalanced(old(PackSums())) then 0 else 1)
    {
      RefreshVoltageFigures();
      RecordHeartbeatIfBalanced();
    }

    /**
     * The figures of a voltage update. The cell delta is taken before the
     * lowest and highest cells are recomputed, so it is the delta of the
     * previous update. The two cell scans read only the packs, so they are
     * taken together before the battery's own figures are stored.
     */
    method RefreshVoltageFigures()
      requires Valid()
      modifies packs, this`voltage, this`cellDelta, this`lowestCellVoltage, this`highestCellVoltage, bms`internalError
      ensures PackFiguresCurrent() && PackData() == old(PackData())
      ensures Voltages() == old(PackSums())
      ensures voltage == SpreadScan(old(PackSums())).0
      ensures cellDelta == U8(old(highestCellVoltage) - old(lowestCellVoltage))
      ensures lowestCellVoltage == LowestCell(old(Lows())[1..]) && highestCellVoltage == HighestCell(old(Highs()))
      ensures bms.internalError == (old(bms.internalError) || CellOutOfRange(lowestCellVoltage) || CellOutOfRange(highestCellVoltage))
    {
      var staleDelta := U8(highestCellVoltage - lowestCellVoltage);
      ghost var lows, highs, sums := Lows(), Highs(), PackSums();
      UpdateVoltages();
      assert Voltages() == sums;
      UpdateCellFigures(staleDelta, lows, highs);
    }

    /** Records a heartbeat with the BMS when the pack voltages are balanced. */
    method RecordHeartbeatIfBalanced()
      requires Valid()
      modifies bms`packVoltagesMatchHeartbeats
      ensures bms.packVoltagesMatchHeartbeats
              == old(bms.packVoltagesMatchHeartbeats) + (if PacksImbalanced(Voltages()) then 0 else 1)
    {
      var imbalanced := PacksAreImbalanced(Voltages());
      if !imbalanced {
        bms.PackVoltagesMatchHeartbeat();
      }
    }

    /**
     * Stores the given cell delta, then recalculates the lowest and highest
     * cells; `lows` and `highs` name the packs' current lowest and highest
     * cells.
     */
    method UpdateCellFigures(newDelta: uint8, ghost lows: seq<int>, ghost highs: seq<int>)
      requires Valid() && lows == Lows() && highs == Highs()
      modifies this`cellDelta, this`lowestCellVoltage, this`highestCellVoltage, bms`internalError
      ensures cellDelta == newDelta
      ensures lowestCellVoltage == LowestCell(lows[1..]) && highestCellVoltage == HighestCell(highs)
      ensures bms.internalError == (old(bms.internalError) || CellOutOfRange(lowestCellVoltage) || CellOutOfRange(highestCellVoltage))
      ensures unchanged(Repr)
    {
      var newLowest := LowestCellFromPackOne();
      var newHighest := HighestCellOfPacks();
      StoreCellFigures(newDelta, newLowest, newHighest);
    }

    /**
     * Stores the cell delta, then the new lowest and highest cells, raising
     * the internal error for a cell outside the empty-full range.
     */
    method StoreCellFigures(newDelta: uint8, newLowest: uint16, newHighest: uint16)
      modifies this`cellDelta, this`lowestCellVoltage, this`highestCellVoltage, bms`internalError
      ensures cellDelta == newDelta && lowestCellVoltage == newLowest && highestCellVoltage == newHighest
      ensures bms.internalError == (old(bms.internalError) || CellOutOfRange(newLowest) || CellOutOfRange(newHighest))
    {
      cellDelta := newDelta;
      if newLowest < CELL_EMPTY_VOLTAGE || newLowest > CELL_FULL_VOLTAGE {
        bms.SetInternalError();
      }
      lowestCellVoltage := newLowest;
      if newHighest < CELL_EMPTY_VOLTAGE || newHighest > CELL_FULL_VOLTAGE {
        bms.SetInternalError();
      }
      highestCellVoltage := newHighest;
    }

    /** The highest of the packs' highest temperatures, starting from pack 0. */
    method HighestPackTemperature() returns (highest: int8)
      requires Valid()
      ensures highest == MaxFromFirst(HighTemperatures())
    {
      ghost var highs := HighTemperatures();
      highest := packs[0].GetHighestTemperature();
      var p := 1;
      while p < |packs|
        invariant 1 <= p <= |packs|
        invariant highest == MaxFromFirst(highs[..p])
      {
        assert highs[..p + 1][..p] == highs[..p];
        var packHighest := packs[p].GetHighestTemperature();
        assert packHighest as int == highs[p];
        if packHighest > highest {
          highest := packHighest;
        }
        p := p + 1;
      }
      assert highs[..p] == highs;
    }

    /** The lowest of the packs' lowest temperatures, starting from pack 0. */
    method LowestPackTemperature() returns (lowest: int8)
      requires Valid()
      ensures lowest == MinFromFirst(LowTemperatures())
    {
      ghost var lows := LowTemperatures();
      lowest := packs[0].GetLowestTemperature();
      var p := 1;
      while p < |packs|
        invariant 1 <= p <= |packs|
        invariant lowest == MinFromFirst(lows[..p])
      {
        assert lows[..p + 1][..p] == lows[..p];
        var packLowest := packs[p].GetLowestTemperature();
        assert packLowest as int == lows[p];
        if packLowest < lowest {
          lowest := packLowest;
        }
        p := p + 1;
      }
      assert lows[..p] == lows;
    }

    /** Records the highest temperature; one outside -20..50 raises the internal error. */
    method UpdateHighestSensorTemperature()
      requires Valid()
      modifies this`highestSensorTemperature, bms`internalError
      ensures highestSensorTemperature == MaxFromFirst(old(HighTemperatures()))
      ensures bms.internalError == (old(bms.internalError) || TemperatureOutOfRange(highestSensorTemperature))
    {
      var newHighest := HighestPackTemperature();
      if newHighest < -20 || newHighest > MAXIMUM_TEMPERATURE {
        bms.SetInternalError();
      }
      highestSensorTemperature := newHighest as int;
    }

    /** Records the lowest temperature; one outside -20..50 raises the internal error. */
    method UpdateLowestSensorTemperature()
      requires Valid()
      modifies this`lowestSensorTemperature, bms`internalError
      ensures lowestSensorTemperature == MinFromFirst(old(LowTemperatures()))
      ensures bms.internalError == (old(bms.internalError) || TemperatureOutOfRange(lowestSensorTemperature))
    {
      var newLowest := LowestPackTemperature();
      if newLowest < -20 || newLowest > MAXIMUM_TEMPERATURE {
        bms.SetInternalError();
      }
      lowestSensorTemperature := newLowest as int;
    }

    method ProcessTemperatureUpdate()
      requires Valid()
      modifies this`lowestSensorTemperature, this`highestSensorTemperature, bms`internalError
      ensures lowestSensorTemperature == MinFromFirst(old(LowTemperatures()))
      ensures highestSensorTemperature == MaxFromFirst(old(HighTemperatures()))
      ensures bms.internalError == (old(bms.internalError) || TemperatureOutOfRange(lowestSensorTemperature)
                                    || TemperatureOutOfRange(highestSensorTemperature))
    {
      UpdateLowestSensorTemperature();
      UpdateHighestSensorTemperature();
    }

    predicate TooHot()
      reads this
    {
      highestSensorTemperature >= MAXIMUM_TEMPERATURE
    }

    predicate TooColdToCharge()
      reads this
    {
      lowestSensorTemperature < CHARGE_TEMPERATURE_MINIMUM
    }

    /**
     * Once the sensor extremes are current, the battery is too hot exactly
     * when some pack's hottest populated module is at the maximum or above.
     */
    lemma TooHotIffSomePackTooHot()
      requires Valid() && highestSensorTemperature == MaxFromFirst(HighTemperatures())
      ensures TooHot() <==> exists p :: 0 <= p < |packs| && PackHighestTemperature(packs[p].Data()) >= MAXIMUM_TEMPERATURE
    {
      var hs := HighTemperatures();
      MaxFromFirstIsMaximum(hs);
      if TooHot() {
        var p :| 0 <= p < |hs| && hs[p] == MaxFromFirst(hs);
        assert PackHighestTemperature(packs[p].Data()) >= MAXIMUM_TEMPERATURE;
      }
    }

    /**
     * Once the sensor extremes are current, the battery is too cold to
     * charge exactly when some pack's coldest populated module is below the
     * minimum charging temperature.
     */
    lemma TooColdIffSomePackTooCold()
      requires Valid() && lowestSensorTemperature == MinFromFirst(LowTemperatures())
      ensures TooColdToCharge()
              <==> exists p :: 0 <= p < |packs| && PackLowestTemperature(packs[p].Data()) < CHARGE_TEMPERATURE_MINIMUM
    {
      var ls := LowTemperatures();
      MinFromFirstIsMinimum(ls);
      if TooColdToCharge() {
        var p :| 0 <= p < |ls| && ls[p] == MinFromFirst(ls);
        assert PackLowestTemperature(packs[p].Data()) < CHARGE_TEMPERATURE_MINIMUM;
      }
    }

    /** The charge current the whole battery accepts, from the packs' own limits. */
    method GetMaxChargeCurrentByTemperature(packLimits: seq<int>) returns (current: uint16)
      requires Valid() && |packLimits| == NUM_PACKS
      ensures current == ChargeCurrentByTemperature(TooHot(), TooColdToCharge(), packLimits, inhibitPins[..])
    {
      if TooHot() || TooColdToCharge() {
        return 0;
      }
      var activePacks: uint8 := 1;
      var smallestMaxChargeCurrent: uint16 := U16(packLimits[0]);
      var p := 1;
      while p < |packs|
        invariant 1 <= p <= |packs|
        invariant smallestMaxChargeCurrent == SmallestLimit(packLimits[..p])
        invariant activePacks == ActivePacks(inhibitPins[..p])
      {
        assert packLimits[..p + 1][..p] == packLimits[..p];
        assert inhibitPins[..p + 1][..p] == inhibitPins[..p];
        if packLimits[p] < smallestMaxChargeCurrent {
          smallestMaxChargeCurrent := U16(packLimits[p]);
        }
        if !inhibitPins[p] {
          activePacks := activePacks + 1;
        }
        p := p + 1;
      }
      assert packLimits[..p] == packLimits;
      assert inhibitPins[..p] == inhibitPins[..];
      current := U16(smallestMaxChargeCurrent * activePacks);
    }

    /**
     * The liveness byte for eight modules from a start module numbered
     * across the battery. Start numbers above 12 give 0. Every other start
     * runs into a fault: 0 divides by zero, a negative start or one below 7
     * names a pack or module that does not exist, and from 7 to 12 the scan
     * walks off the end of pack 1 before it has read eight modules.
     */
    method GetModuleLivenessByte(startModuleId: int8, alive: seq<seq<bool>>) returns (r: Liveness)
      requires |alive| == NUM_PACKS && forall p :: 0 <= p < NUM_PACKS ==> |alive[p]| == MODULES_PER_PACK
      ensures r.LivenessByte? <==> startModuleId > NUM_PACKS * MODULES_PER_PACK
      ensures r.LivenessByte? ==> r.value == 0
      ensures r == DivisionByZero <==> startModuleId == 0
    {
      var livenessByte: nat := 0;
      if startModuleId > NUM_PACKS * MODULES_PER_PACK {
        return LivenessByte(I8(livenessByte));
      }
      if startModuleId == 0 {
        return DivisionByZero;
      }
      var packId: int8 := I8(CDiv(NUM_PACKS * MODULES_PER_PACK, startModuleId));
      var moduleId: int8 := I8(CRem(NUM_PACKS * MODULES_PER_PACK, startModuleId));
      var count := 0;
      var bit: nat := 1;
      while count < 8
        invariant 0 <= count <= 6
        invariant (0 <= packId < NUM_PACKS && 0 <= moduleId < MODULES_PER_PACK) ==> packId == 1 && count <= moduleId
      {
        if !(0 <= packId < NUM_PACKS) {
          return PackOutOfRange(packId);
        }
        if !(0 <= moduleId < MODULES_PER_PACK) {
          return ModuleOutOfRange(packId, moduleId);
        }
        if !alive[packId][moduleId] {
          livenessByte := livenessByte + bit;
        }
        bit := bit * 2;
        moduleId := moduleId + 1;
        if moduleId >= MODULES_PER_PACK {
          moduleId := 0;
          packId := packId + 1;
        }
        count := count + 1;
      }
      assert false;
      r := LivenessByte(I8(livenessByte));
    }
  }
}
