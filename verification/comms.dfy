/**
 * The main CAN bus: the frames the management system broadcasts (limits,
 * state, module liveness, state of charge, status, alarms, the shunt reset)
 * and the decoding of the ISA shunt's measurement frames.
 *
 * Each sender fills one frame buffer and hands it to the CAN controller; a
 * `MainBus` object holds the buffers and the list of frames handed over. The
 * values a sender reads from the battery and the management object are its
 * parameters, with the C types the getters return.
 */
module Comms {
  import opened Settings
  import opened CTypes
  import opened CanFrames
  import opened States

  // ---------------------------------------------------------------------
  // Byte packing as written.
  // ---------------------------------------------------------------------

  /** A "low byte" as the senders write it: the value cast to uint8_t, then `&& 0xFF`. */
  function CastLogicalAnd(x: int): (b: uint8)
    ensures b <= 1 && (b == 1 <==> x % 0x100 != 0)
  {
    LogicalAnd0xFF(U8(x))
  }

  /** A "high byte" as the senders write it: the value cast to uint8_t, then shifted right by eight. */
  function CastShift8(x: int): (b: uint8)
    ensures b == 0
  {
    U8(x) / 0x100
  }

  // ---------------------------------------------------------------------
  // The frames the senders build.
  // ---------------------------------------------------------------------

  /** The shunt reset: command 0x3F, every other byte zero. */
  function IsaResetFrame(): (f: Frame)
    ensures WellFormed(f) && f.id == ISA_RESET_MSG_ID && f.dlc == 8
    ensures f.data[0] == 0x3F && forall k :: 1 <= k < 8 ==> f.data[k] == 0
  {
    Frame(ISA_RESET_MSG_ID, 8, [0x3F, 0, 0, 0, 0, 0, 0, 0])
  }

  /** Charge voltage, charge current, discharge current and discharge voltage, each scaled by ten. */
  function LimitsFrame(maxVoltage: uint32, maxChargeCurrent: int8, maxDischargeCurrent: int8, minVoltage: uint32): Frame {
    var v := U32(maxVoltage * 10);
    var c := maxChargeCurrent * 10;
    var d := maxDischargeCurrent * 10;
    var w := U32(minVoltage * 10);
    Frame(BMS_LIMITS_MSG_ID, 8,
          [CastLogicalAnd(v), CastShift8(v), CastLogicalAnd(c), CastShift8(c),
           CastLogicalAnd(d), CastShift8(d), CastLogicalAnd(w), CastShift8(w)])
  }

  /** The code of a state in byte 0 of the state frame; heating has no code of its own. */
  function StateCode(s: State): uint8 {
    match s
    case Standby => 0x00
    case Drive => 0x01
    case Charging => 0x02
    case BatteryEmpty => 0x03
    case OverTempFault => 0x04
    case IllegalStateTransitionFault => 0x05
    case BatteryHeating => 0xFF
  }

  /** The state frame: the state code, then the error byte, which the status byte overwrites. */
  function StateFrame(s: State, errorByte: uint8, statusByte: uint8): Frame {
    var data := [StateCode(s), errorByte, 0, 0, 0, 0, 0, 0];
    Frame(BMS_STATE_MSG_ID, 8, data[1 := statusByte])
  }

  /** Module liveness: every byte zero. */
  function ModuleLivenessFrame(): Frame {
    Frame(BMS_MODULE_LIVENESS_MSG_ID, 8, [0, 0, 0, 0, 0, 0, 0, 0])
  }

  /** State of charge in percent and in hundredths of a percent; no state of health. */
  function SocFrame(soc: uint8): Frame {
    var scaled := soc * 100;
    Frame(BMS_SOC_MSG_ID, 8,
          [CastLogicalAnd(soc), CastShift8(soc), 0, 0, CastLogicalAnd(scaled), CastShift8(scaled), 0, 0])
  }

  /**
   * Voltage in hundredths of a volt, current in tenths of an amp, the highest
   * cell temperature, and the shunt's voltage in hundredths of a volt. The
   * temperature's low byte is `&& 0xFF` without a cast.
   */
  function StatusFrame(voltage: uint32, amps: int32, highestTemperature: int8, shuntCentivolts: int): Frame {
    var v := U32(voltage * 100);
    var a := amps * 10;
    Frame(BMS_STATUS_MSG_ID, 8,
          [CastLogicalAnd(v), CastShift8(v), CastLogicalAnd(a), CastShift8(a),
           LogicalAnd0xFF(highestTemperature), CastShift8(highestTemperature),
           CastLogicalAnd(shuntCentivolts), CastShift8(shuntCentivolts)])
  }

  /** The alarm bits: 0x04 for an empty cell and 0x08 for a full cell in byte 0, 0x40 for over temperature in byte 1. */
  function AlarmFrame(emptyCell: bool, fullCell: bool, overMaxTemperature: bool): Frame {
    Frame(BMS_ALARM_MSG_ID, 3,
          [4 * FromBool(emptyCell) + 8 * FromBool(fullCell), 0x40 * FromBool(overMaxTemperature), 0, 0, 0, 0, 0, 0])
  }

  /** C's `|=` on a byte. */
  function OrByte(a: uint8, b: uint8): uint8 {
    ((a as bv8) | (b as bv8)) as int
  }

  /** The alarm bits are distinct, so or-ing them in adds them. */
  lemma AlarmBitsAdd()
    ensures OrByte(0, 0x04) == 0x04 && OrByte(0, 0x08) == 0x08 && OrByte(0x04, 0x08) == 0x0C
    ensures OrByte(0, 0x40) == 0x40
  {
  }

  // ---------------------------------------------------------------------
  // The sending side.
  // ---------------------------------------------------------------------

  /** The frame buffers of the senders and the frames handed to the CAN controller. */
  class MainBus {
    var limitsFrame: Frame
    var bmsStateFrame: Frame
    var moduleLivenessFrame: Frame
    var socFrame: Frame
    var statusFrame: Frame
    var alarmFrame: Frame
    /** Every frame handed to the controller, oldest first. */
    var sent: seq<Frame>

    constructor()
      ensures sent == []
    {
      limitsFrame := Frame(0, 0, []);
      bmsStateFrame := Frame(0, 0, []);
      moduleLivenessFrame := Frame(0, 0, []);
      socFrame := Frame(0, 0, []);
      statusFrame := Frame(0, 0, []);
      alarmFrame := Frame(0, 0, []);
      sent := [];
    }

    /** Builds the shunt reset in a frame of its own and sends it. */
    method SendIsaResetMessage()
      modifies this`sent
      ensures sent == old(sent) + [IsaResetFrame()]
    {
      var frame := Frame(ISA_RESET_MSG_ID, 8, [0x3F, 0, 0, 0, 0, 0, 0, 0]);
      sent := sent + [frame];
    }

    method SendLimitsMessage(maxVoltage: uint32, maxChargeCurrent: int8, maxDischargeCurrent: int8, minVoltage: uint32)
      modifies this`limitsFrame, this`sent
      ensures limitsFrame == LimitsFrame(maxVoltage, maxChargeCurrent, maxDischargeCurrent, minVoltage)
      ensures sent == old(sent) + [limitsFrame]
    {
      var v := U32(maxVoltage * 10);
      var c := maxChargeCurrent * 10;
      var d := maxDischargeCurrent * 10;
      var w := U32(minVoltage * 10);
      limitsFrame := Frame(BMS_LIMITS_MSG_ID, 8,
                           [CastLogicalAnd(v), CastShift8(v), CastLogicalAnd(c), CastShift8(c),
                            CastLogicalAnd(d), CastShift8(d), CastLogicalAnd(w), CastShift8(w)]);
      sent := sent + [limitsFrame];
    }

    method SendBmsStateMessage(s: State, errorByte: uint8, statusByte: uint8)
      modifies this`bmsStateFrame, this`sent
      ensures bmsStateFrame == StateFrame(s, errorByte, statusByte)
      ensures sent == old(sent) + [bmsStateFrame]
    {
      var code: uint8;
      if s == Standby {
        code := 0x00;
      } else if s == Drive {
        code := 0x01;
      } else if s == Charging {
        code := 0x02;
      } else if s == BatteryEmpty {
        code := 0x03;
      } else if s == OverTempFault {
        code := 0x04;
      } else if s == IllegalStateTransitionFault {
        code := 0x05;
      } else {
        code := 0xFF;
      }
      var data := [code, 0, 0, 0, 0, 0, 0, 0];
      data := data[1 := errorByte];
      data := data[1 := statusByte];
      bmsStateFrame := Frame(BMS_STATE_MSG_ID, 8, data);
      sent := sent + [bmsStateFrame];
    }

    method SendModuleLivenessMessage()
      modifies this`moduleLivenessFrame, this`sent
      ensures moduleLivenessFrame == ModuleLivenessFrame()
      ensures sent == old(sent) + [moduleLivenessFrame]
    {
      moduleLivenessFrame := Frame(BMS_MODULE_LIVENESS_MSG_ID, 8, [0, 0, 0, 0, 0, 0, 0, 0]);
      sent := sent + [moduleLivenessFrame];
    }

    method SendSocMessage(soc: uint8)
      modifies this`socFrame, this`sent
      ensures socFrame == SocFrame(soc)
      ensures sent == old(sent) + [socFrame]
    {
      var scaled := soc * 100;
      socFrame := Frame(BMS_SOC_MSG_ID, 8,
                        [CastLogicalAnd(soc), CastShift8(soc), 0, 0, CastLogicalAnd(scaled), CastShift8(scaled), 0, 0]);
      sent := sent + [socFrame];
    }

    method SendStatusMessage(voltage: uint32, amps: int32, highestTemperature: int8, shuntCentivolts: int)
      modifies this`statusFrame, this`sent
      ensures statusFrame == StatusFrame(voltage, amps, highestTemperature, shuntCentivolts)
      ensures sent == old(sent) + [statusFrame]
    {
      var v := U32(voltage * 100);
      var a := amps * 10;
      statusFrame := Frame(BMS_STATUS_MSG_ID, 8,
                           [CastLogicalAnd(v), CastShift8(v), CastLogicalAnd(a), CastShift8(a),
                            LogicalAnd0xFF(highestTemperature), CastShift8(highestTemperature),
                            CastLogicalAnd(shuntCentivolts), CastShift8(shuntCentivolts)]);
      sent := sent + [statusFrame];
    }

    /** Sets the alarm bits one by one with `|=` on bytes cleared first. */
    method SendAlarmMessage(emptyCell: bool, fullCell: bool, overMaxTemperature: bool)
      modifies this`alarmFrame, this`sent
      ensures alarmFrame == AlarmFrame(emptyCell, fullCell, overMaxTemperature)
      ensures sent == old(sent) + [alarmFrame]
    {
      AlarmBitsAdd();
      var b0: uint8 := 0x00;
      if emptyCell {
        b0 := OrByte(b0, 0x04);
      }
      if fullCell {
        b0 := OrByte(b0, 0x08);
      }
      var b1: uint8 := 0x00;
      if overMaxTemperature {
        b1 := OrByte(b1, 0x40);
      }
      alarmFrame := Frame(BMS_ALARM_MSG_ID, 3, [b0, b1, 0, 0, 0, 0, 0, 0]);
      sent := sent + [alarmFrame];
    }
  }

  // ---------------------------------------------------------------------
  // What a receiver of the frames can read back.
  // ---------------------------------------------------------------------

  /** A state code read back: one of the six states with a code, or undefined. */
  datatype ReportedState = Reported(s: State) | Undefined

  function DecodeStateCode(c: uint8): ReportedState {
    if c == 0x00 then Reported(Standby)
    else if c == 0x01 then Reported(Drive)
    else if c == 0x02 then Reported(Charging)
    else if c == 0x03 then Reported(BatteryEmpty)
    else if c == 0x04 then Reported(OverTempFault)
    else if c == 0x05 then Reported(IllegalStateTransitionFault)
    else Undefined
  }

  /** Every state but heating is reported as itself; heating is reported as undefined. */
  lemma StateCodeRoundTrip(s: State)
    ensures DecodeStateCode(StateCode(s)) == if s == BatteryHeating then Undefined else Reported(s)
    ensures StateCode(s) <= 5 || StateCode(s) == 0xFF
  {
  }

  /** The state frame carries the state code and the status byte; the error byte never reaches the bus. */
  lemma StateFrameContents(s: State, errorByte: uint8, statusByte: uint8, otherError: uint8)
    ensures var f := StateFrame(s, errorByte, statusByte);
      && WellFormed(f) && f.id == 0x352 && f.dlc == 8
      && DecodeStateCode(f.data[0]) == (if s == BatteryHeating then Undefined else Reported(s))
      && f.data[1] == statusByte
      && (forall k :: 2 <= k < 8 ==> f.data[k] == 0)
      && f == StateFrame(s, otherError, statusByte)
  {
    StateCodeRoundTrip(s);
  }

  lemma ModuleLivenessFrameContents()
    ensures var f := ModuleLivenessFrame();
      WellFormed(f) && f.id == 0x353 && f.dlc == 8 && forall k :: 0 <= k < 8 ==> f.data[k] == 0
  {
  }

  /**
   * In the limits frame every high byte is zero and every low byte is one
   * exactly when the scaled value is not a multiple of 256, zero otherwise.
   */
  lemma LimitsFrameBytes(maxVoltage: uint32, maxChargeCurrent: int8, maxDischargeCurrent: int8, minVoltage: uint32)
    ensures var f := LimitsFrame(maxVoltage, maxChargeCurrent, maxDischargeCurrent, minVoltage);
      && WellFormed(f) && f.id == 0x351 && f.dlc == 8
      && (forall k :: 0 <= k < 4 ==> f.data[2 * k + 1] == 0 && f.data[2 * k] <= 1)
      && (f.data[0] == 1 <==> (maxVoltage * 10) % 0x100 != 0)
      && (f.data[2] == 1 <==> (maxChargeCurrent * 10) % 0x100 != 0)
      && (f.data[4] == 1 <==> (maxDischargeCurrent * 10) % 0x100 != 0)
      && (f.data[6] == 1 <==> (minVoltage * 10) % 0x100 != 0)
  {
    var f := LimitsFrame(maxVoltage, maxChargeCurrent, maxDischargeCurrent, minVoltage);
    Mod256OfMod2To32(maxVoltage * 10);
    Mod256OfMod2To32(minVoltage * 10);
    assert forall k :: 0 <= k < 4 ==> f.data[2 * k + 1] == 0 && f.data[2 * k] <= 1 by {
      forall k | 0 <= k < 4
        ensures f.data[2 * k + 1] == 0 && f.data[2 * k] <= 1
      {
        assert k == 0 || k == 1 || k == 2 || k == 3;
      }
    }
  }

  /** Reducing modulo 2^32 first does not change the low byte. */
  lemma Mod256OfMod2To32(x: int)
    ensures U32(x) % 0x100 == x % 0x100
  {
    var q := x / 0x1_0000_0000;
    assert x == U32(x) + 0x1_0000_0000 * q;
    assert 0x1_0000_0000 * q == 0x100 * (0x100_0000 * q);
  }

  /**
   * The state-of-charge frame: no state of health; the percent's high byte is
   * zero and its low byte one exactly when the charge is not zero.
   */
  lemma SocFrameBytes(soc: uint8)
    ensures var f := SocFrame(soc);
      && WellFormed(f) && f.id == 0x355 && f.dlc == 8
      && f.data[1] == 0 && f.data[5] == 0 && f.data[2] == 0 && f.data[3] == 0 && f.data[6] == 0 && f.data[7] == 0
      && (f.data[0] == 1 <==> soc != 0) && f.data[0] <= 1
      && (f.data[4] == 1 <==> (soc * 100) % 0x100 != 0) && f.data[4] <= 1
  {
  }

  /**
   * The status frame: every high byte is zero and every low byte zero or
   * one; the temperature's low byte is one exactly when the temperature is
   * not zero.
   */
  lemma StatusFrameBytes(voltage: uint32, amps: int32, highestTemperature: int8, shuntCentivolts: int)
    ensures var f := StatusFrame(voltage, amps, highestTemperature, shuntCentivolts);
      && WellFormed(f) && f.id == 0x356 && f.dlc == 8
      && (forall k :: 0 <= k < 4 ==> f.data[2 * k + 1] == 0 && f.data[2 * k] <= 1)
      && (f.data[0] == 1 <==> (voltage * 100) % 0x100 != 0)
      && (f.data[2] == 1 <==> (amps * 10) % 0x100 != 0)
      && (f.data[4] == 1 <==> highestTemperature != 0)
      && (f.data[6] == 1 <==> shuntCentivolts % 0x100 != 0)
  {
    var f := StatusFrame(voltage, amps, highestTemperature, shuntCentivolts);
    Mod256OfMod2To32(voltage * 100);
    assert forall k :: 0 <= k < 4 ==> f.data[2 * k + 1] == 0 && f.data[2 * k] <= 1 by {
      forall k | 0 <= k < 4
        ensures f.data[2 * k + 1] == 0 && f.data[2 * k] <= 1
      {
        assert k == 0 || k == 1 || k == 2 || k == 3;
      }
    }
  }

  /** Bit `k` of a byte. */
  function Bit(b: uint8, k: nat): bool
    requires k < 8
  {
    (b / Pow2(k)) % 2 == 1
  }

  function Pow2(k: nat): (p: nat)
    ensures p >= 1
  {
    if k == 0 then 1 else 2 * Pow2(k - 1)
  }

  /**
   * The alarm frame announces three data bytes. Byte 0 has bit 2 set exactly
   * on an empty cell and bit 3 exactly on a full cell, byte 1 bit 6 exactly
   * over the maximum temperature; every other bit is clear.
   */
  lemma AlarmFrameBits(emptyCell: bool, fullCell: bool, overMaxTemperature: bool)
    ensures var f := AlarmFrame(emptyCell, fullCell, overMaxTemperature);
      && WellFormed(f) && f.id == 0x35A && f.dlc == 3
      && (Bit(f.data[0], 2) <==> emptyCell) && (Bit(f.data[0], 3) <==> fullCell)
      && (Bit(f.data[1], 6) <==> overMaxTemperature)
      && (forall k :: 0 <= k < 8 && k != 2 && k != 3 ==> !Bit(f.data[0], k))
      && (forall k :: 0 <= k < 8 && k != 6 ==> !Bit(f.data[1], k))
      && (forall j :: 2 <= j < 8 ==> f.data[j] == 0)
  {
    var f := AlarmFrame(emptyCell, fullCell, overMaxTemperature);
    assert Pow2(0) == 1 && Pow2(1) == 2 && Pow2(2) == 4 && Pow2(3) == 8;
    assert Pow2(4) == 16 && Pow2(5) == 32 && Pow2(6) == 64 && Pow2(7) == 128;
  }

  // ---------------------------------------------------------------------
  // The receiving side: frames from the ISA shunt.
  // ---------------------------------------------------------------------

  /**
   * The shunt measurements as the receiver stores them. The voltages and
   * power are kept as the 16-bit integers the firmware divides by 1000 into
   * floats: millivolts and watts.
   */
  datatype ShuntValues = ShuntValues(
    amps: int,
    voltage1: int,
    voltage2: int,
    voltage3: int,
    temperature: int,
    watts: int,
    ampSeconds: int32,
    wattHours: int,
    heartbeats: nat)

  /** The value in bytes 2 to 5, least significant first. */
  function Payload(f: Frame): uint32
    requires WellFormed(f)
  {
    LittleEndian32(f.data[2], f.data[3], f.data[4], f.data[5])
  }

  /** The frames 0x521 to 0x528 carry shunt measurements. */
  predicate IsShuntFrame(id: nat) {
    0x521 <= id <= 0x528
  }

  /** How a frame from the main bus changes the stored shunt measurements. */
  function DecodeShuntFrame(v: ShuntValues, f: Frame): ShuntValues
    requires WellFormed(f)
  {
    var raw := Payload(f);
    var beat := v.heartbeats + 1;
    if f.id == 0x521 then v.(amps := U16(raw), heartbeats := beat)
    else if f.id == 0x522 then v.(voltage1 := U16(raw), heartbeats := beat)
    else if f.id == 0x523 then v.(voltage2 := U16(raw), heartbeats := beat)
    else if f.id == 0x524 then v.(voltage3 := U16(raw), heartbeats := beat)
    else if f.id == 0x525 then v.(temperature := U16(raw) / 10, heartbeats := beat)
    else if f.id == 0x526 then v.(watts := U16(raw), heartbeats := beat)
    else if f.id == 0x527 then v.(ampSeconds := I32(raw), heartbeats := beat)
    else if f.id == 0x528 then v.(wattHours := U16(raw), heartbeats := beat)
    else v
  }

  /** The outcome of asking the controller for a frame. */
  datatype ReadResult = ReadOk(frame: Frame) | ReadFailed

  /** The shunt measurements the firmware stores from the main bus. */
  class ShuntReceiver {
    var amps: int
    var voltage1: int
    var voltage2: int
    var voltage3: int
    var temperature: int
    var watts: int
    var ampSeconds: int32
    var wattHours: int
    var heartbeats: nat

    function Values(): ShuntValues
      reads this
    {
      ShuntValues(amps, voltage1, voltage2, voltage3, temperature, watts, ampSeconds, wattHours, heartbeats)
    }

    constructor()
      ensures Values() == ShuntValues(0, 0, 0, 0, 0, 0, 0, 0, 0)
    {
      amps, voltage1, voltage2, voltage3 := 0, 0, 0, 0;
      temperature, watts, ampSeconds, wattHours := 0, 0, 0, 0;
      heartbeats := 0;
    }

    /** Stores the measurement a frame read from the main bus carries, and records the shunt as alive. */
    method HandleMainCanMessages(read: ReadResult)
      requires read.ReadOk? ==> WellFormed(read.frame)
      modifies this
      ensures read.ReadOk? ==> Values() == DecodeShuntFrame(old(Values()), read.frame)
      ensures read.ReadFailed? ==> Values() == old(Values())
    {
      if read.ReadOk? {
        var m := read.frame;
        var raw := LittleEndian32(m.data[2], m.data[3], m.data[4], m.data[5]);
        if m.id == 0x521 {
          amps := U16(raw);
          heartbeats := heartbeats + 1;
        } else if m.id == 0x522 {
          voltage1 := U16(raw);
          heartbeats := heartbeats + 1;
        } else if m.id == 0x523 {
          voltage2 := U16(raw);
          heartbeats := heartbeats + 1;
        } else if m.id == 0x524 {
          voltage3 := U16(raw);
          heartbeats := heartbeats + 1;
        } else if m.id == 0x525 {
          temperature := U16(raw) / 10;
          heartbeats := heartbeats + 1;
        } else if m.id == 0x526 {
          watts := U16(raw);
          heartbeats := heartbeats + 1;
        } else if m.id == 0x527 {
          ampSeconds := I32(raw);
          heartbeats := heartbeats + 1;
        } else if m.id == 0x528 {
          wattHours := U16(raw);
          heartbeats := heartbeats + 1;
        }
      }
    }
  }

  /** The four bytes of a 32-bit value, least significant first. */
  function LittleEndianBytes(x: uint32): (b: seq<uint8>)
    ensures |b| == 4
  {
    [x % 0x100, (x / 0x100) % 0x100, (x / 0x1_0000) % 0x100, x / 0x100_0000]
  }

  lemma LittleEndianRoundTrip(x: uint32)
    ensures var b := LittleEndianBytes(x); LittleEndian32(b[0], b[1], b[2], b[3]) == x
  {
    var q1 := x / 0x100;
    var q2 := q1 / 0x100;
    var q3 := q2 / 0x100;
    assert x == x % 0x100 + 0x100 * q1;
    assert q1 == q1 % 0x100 + 0x100 * q2;
    assert q2 == q2 % 0x100 + 0x100 * q3;
    assert q2 == x / 0x1_0000;
    assert q3 == x / 0x100_0000;
  }

  /** A shunt frame carrying a 32-bit value in bytes 2 to 5. */
  function ShuntFrame(id: nat, x: uint32): (f: Frame)
    ensures WellFormed(f)
  {
    Frame(id, 8, [0, 0] + LittleEndianBytes(x) + [0, 0])
  }

  /**
   * The amp-second counter is read as a signed 32-bit value: any value the
   * shunt sends in two's complement is stored as sent.
   */
  lemma AmpSecondsRoundTrip(v: ShuntValues, x: int32)
    ensures var n := DecodeShuntFrame(v, ShuntFrame(0x527, U32(x)));
      n == v.(ampSeconds := x, heartbeats := v.heartbeats + 1)
  {
    var f := ShuntFrame(0x527, U32(x));
    LittleEndianRoundTrip(U32(x));
    assert Payload(f) == U32(x);
    SignedRoundTrip(x);
  }

  /** A signed 32-bit value survives its conversion to unsigned and back. */
  lemma SignedRoundTrip(x: int32)
    ensures I32(U32(x)) == x
  {
    if x < 0 {
      assert U32(x) == x + 0x1_0000_0000;
    }
  }

  /**
   * Every other measurement is truncated to 16 bits: only bytes 2 and 3
   * count, and bytes 4 and 5 are lost.
   */
  lemma SixteenBitMeasurements(v: ShuntValues, f: Frame)
    requires WellFormed(f) && IsShuntFrame(f.id) && f.id != 0x527
    ensures var n := DecodeShuntFrame(v, f);
      var low: int := f.data[2] as int + 0x100 * (f.data[3] as int);
      && n.heartbeats == v.heartbeats + 1 && n.ampSeconds == v.ampSeconds
      && (f.id == 0x521 ==> n.amps == low)
      && (f.id == 0x522 ==> n.voltage1 == low)
      && (f.id == 0x523 ==> n.voltage2 == low)
      && (f.id == 0x524 ==> n.voltage3 == low)
      && (f.id == 0x525 ==> n.temperature == low / 10)
      && (f.id == 0x526 ==> n.watts == low)
      && (f.id == 0x528 ==> n.wattHours == low)
  {
    var low: int := f.data[2] as int + 0x100 * (f.data[3] as int);
    var high: int := f.data[4] as int + 0x100 * (f.data[5] as int);
    assert Payload(f) == low + 0x1_0000 * high;
    assert U16(Payload(f)) == low;
  }

  /** A frame from anyone but the shunt changes nothing. */
  lemma OtherFramesIgnored(v: ShuntValues, f: Frame)
    requires WellFormed(f) && !IsShuntFrame(f.id)
    ensures DecodeShuntFrame(v, f) == v
  {
  }
}
