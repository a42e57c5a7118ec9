/**
 * The INA219 current and power monitor driver: 16-bit registers read and
 * written big-endian over I2C, read-modify-write of one configuration
 * field, the calibration table and a static table of device handles. The
 * I2C master is an oracle: the status each transfer ends with and the bytes
 * each receive delivers are fixed in advance, and every transfer is logged.
 */
module Ina219 {

  // ---------------------------------------------------------------------
  // Constants of the driver's header.

  const INA219_MAX_DEVICES: nat := 1

  const INA219_CALIBRATION_MAX_05A: bv16 := 20480
  const INA219_CALIBRATION_MAX_2A: bv16 := 4096
  const INA219_CALIBRATION_MAX_4A: bv16 := 2048
  const INA219_CALIBRATION_MAX_8A: bv16 := 1024

  const INA219_CURRENT_LSB_CAL_05A: bv16 := 20
  const INA219_CURRENT_LSB_CAL_2A: bv16 := 100
  const INA219_CURRENT_LSB_CAL_4A: bv16 := 200
  const INA219_CURRENT_LSB_CAL_8A: bv16 := 400

  const INA219_REG_CONFIG: bv8 := 0x00
  const INA219_REG_SHUNT_V: bv8 := 0x01
  const INA219_REG_BUS_V: bv8 := 0x02
  const INA219_REG_POWER: bv8 := 0x03
  const INA219_REG_CURRENT: bv8 := 0x04
  const INA219_REG_CAL: bv8 := 0x05

  const INA219_CONFIG_VRANGE_16: bv16 := 0x0000
  const INA219_CONFIG_VRANGE_32: bv16 := 0x8000

  const INA219_CONFIG_GAIN_40: bv16 := 0x0000
  const INA219_CONFIG_GAIN_80: bv16 := 0x0800
  const INA219_CONFIG_GAIN_160: bv16 := 0x1000
  const INA219_CONFIG_GAIN_320: bv16 := 0x1800

  const INA219_CONFIG_MODE_POWER_DOWN: bv16 := 0x0000
  const INA219_CONFIG_MODE_SV_TRIGD: bv16 := 0x0001
  const INA219_CONFIG_MODE_BV_TRIGD: bv16 := 0x0002
  const INA219_CONFIG_MODE_SBV_TRIGD: bv16 := 0x0003
  const INA219_CONFIG_MODE_ADC_OFF: bv16 := 0x0004
  const INA219_CONFIG_MODE_SV_CONT: bv16 := 0x0005
  const INA219_CONFIG_MODE_BV_CONT: bv16 := 0x0005
  const INA219_CONFIG_MODE_SBV_CONT: bv16 := 0x0007

  const INA219_CONFIG_VRANGE_MASK: bv16 := 0x2000
  const INA219_CONFIG_GAIN_MASK: bv16 := 0x1800
  const INA219_CONFIG_BADC_MASK: bv16 := 0x0780
  const INA219_CONFIG_SADC_MASK: bv16 := 0x0078
  const INA219_CONFIG_MODE_MASK: bv16 := 0x0007

  /** The reset bit of the configuration register, bit 15. */
  const CONFIG_RESET: bv16 := 0x8000

  /** The 32 V bus range as the range field holds it: bit 13, inside the range mask. */
  const VRANGE_32_IN_FIELD: bv16 := 0x2000

  /** Bus voltage continuous as the mode field encodes it: 110 in binary. */
  const MODE_BV_CONT_IN_FIELD: bv16 := 0x0006

  // ---------------------------------------------------------------------
  // Big-endian register bytes.

  /** The 16-bit value of a high and a low byte: `((uint16_t)hi << 8) | lo`. */
  function Join(hi: bv8, lo: bv8): bv16
  {
    ((hi as bv16) << 8) | (lo as bv16)
  }

  /** The two bytes sent for a value, high first: `value >> 8`, then `value` cut to a byte. */
  function Split(value: bv16): (bytes: seq<bv8>)
  {
    [(value >> 8) as bv8, (value & 0xFF) as bv8]
  }

  /** Sending a value and reading back its two bytes gives the value. */
  lemma JoinSplit(value: bv16)
    ensures |Split(value)| == 2 && Join(Split(value)[0], Split(value)[1]) == value
  {
  }

  /** Splitting a read value gives back the bytes read. */
  lemma SplitJoin(hi: bv8, lo: bv8)
    ensures Split(Join(hi, lo)) == [hi, lo]
  {
  }

  // ---------------------------------------------------------------------
  // One configuration field.

  /** write_single_setting's merge: the field under mask cleared, then value ORed in. */
  function Merge(config: bv16, mask: bv16, value: bv16): bv16
  {
    (config & !mask) | value
  }

  /** A value inside its mask replaces that field and keeps every bit outside it. */
  lemma MergeField(config: bv16, mask: bv16, value: bv16)
    requires value & !mask == 0
    ensures Merge(config, mask, value) & mask == value
    ensures Merge(config, mask, value) & !mask == config & !mask
  {
  }

  /** A value with bits outside the mask sets those bits whatever the configuration held. */
  lemma MergeEscapes(config: bv16, mask: bv16, value: bv16)
    ensures Merge(config, mask, value) & (value & !mask) == value & !mask
    ensures Merge(config, mask, value) & mask == value & mask
  {
  }

  /**
   * set_voltage_range with the header's 32 V value: it is outside the range
   * mask, so the merge clears the range bit (selecting 16 V) and sets bit 15,
   * which resets the device.
   */
  lemma VoltageRange32AsWritten(config: bv16)
    ensures INA219_CONFIG_VRANGE_32 & !INA219_CONFIG_VRANGE_MASK != 0
    ensures Merge(config, INA219_CONFIG_VRANGE_MASK, INA219_CONFIG_VRANGE_32) & INA219_CONFIG_VRANGE_MASK == 0
    ensures Merge(config, INA219_CONFIG_VRANGE_MASK, INA219_CONFIG_VRANGE_32) & CONFIG_RESET == CONFIG_RESET
  {
    MergeEscapes(config, INA219_CONFIG_VRANGE_MASK, INA219_CONFIG_VRANGE_32);
  }

  /** With the 32 V value inside its mask, setting the range sets only the range bit. */
  lemma VoltageRange32InField(config: bv16)
    ensures Merge(config, INA219_CONFIG_VRANGE_MASK, VRANGE_32_IN_FIELD) & INA219_CONFIG_VRANGE_MASK == INA219_CONFIG_VRANGE_MASK
    ensures Merge(config, INA219_CONFIG_VRANGE_MASK, VRANGE_32_IN_FIELD) & !INA219_CONFIG_VRANGE_MASK
            == config & !INA219_CONFIG_VRANGE_MASK
  {
    MergeField(config, INA219_CONFIG_VRANGE_MASK, VRANGE_32_IN_FIELD);
  }

  /** The eight operating modes as the header names them, in the order 000 to 111. */
  function Modes(): seq<bv16>
  {
    [INA219_CONFIG_MODE_POWER_DOWN, INA219_CONFIG_MODE_SV_TRIGD, INA219_CONFIG_MODE_BV_TRIGD,
     INA219_CONFIG_MODE_SBV_TRIGD, INA219_CONFIG_MODE_ADC_OFF, INA219_CONFIG_MODE_SV_CONT,
     INA219_CONFIG_MODE_BV_CONT, INA219_CONFIG_MODE_SBV_CONT]
  }

  /** The modes with bus voltage continuous encoded as 110. */
  function ModesInField(): seq<bv16>
  {
    Modes()[6 := MODE_BV_CONT_IN_FIELD]
  }

  /** As the header has them, bus voltage continuous is shunt voltage continuous, and no mode is 110. */
  lemma BusContinuousAsWritten()
    ensures Modes()[6] == Modes()[5]
    ensures forall i :: 0 <= i < 8 ==> Modes()[i] != 6
  {
  }

  /** With 110 for bus voltage continuous, the i-th mode is the code i, so the eight are distinct and inside the mode mask. */
  lemma ModesInFieldDistinct()
    ensures |ModesInField()| == 8
    ensures forall i :: 0 <= i < 8 ==> ModesInField()[i] as int == i
    ensures forall i :: 0 <= i < 8 ==> ModesInField()[i] & !INA219_CONFIG_MODE_MASK == 0
  {
  }

  /** Every other setting the header defines lies inside its field's mask. */
  lemma SettingsInsideMasks()
    ensures INA219_CONFIG_VRANGE_16 & !INA219_CONFIG_VRANGE_MASK == 0
    ensures forall g :: g in [INA219_CONFIG_GAIN_40, INA219_CONFIG_GAIN_80, INA219_CONFIG_GAIN_160, INA219_CONFIG_GAIN_320] ==>
      g & !INA219_CONFIG_GAIN_MASK == 0
  {
  }

  // ---------------------------------------------------------------------
  // Calibration.

  /** ina219_calibrate's table: the current LSB, in microamperes, for a known calibration value. */
  function CalibrationLsb(cal: bv16): (lsb: Option<bv16>)
  {
    if cal == INA219_CALIBRATION_MAX_05A then Some(INA219_CURRENT_LSB_CAL_05A)
    else if cal == INA219_CALIBRATION_MAX_2A then Some(INA219_CURRENT_LSB_CAL_2A)
    else if cal == INA219_CALIBRATION_MAX_4A then Some(INA219_CURRENT_LSB_CAL_4A)
    else if cal == INA219_CALIBRATION_MAX_8A then Some(INA219_CURRENT_LSB_CAL_8A)
    else None
  }

  /**
   * The table agrees with the device's calibration formula for a 0.1 ohm
   * shunt, cal = 0.04096 / (current LSB * 0.1 ohm): the calibration value
   * times the LSB in microamperes is 409600, and a known value is one of
   * the four.
   */
  lemma CalibrationFormula(cal: bv16)
    ensures CalibrationLsb(cal).Some? ==> cal as int * CalibrationLsb(cal).value as int == 409600
    ensures CalibrationLsb(cal).Some? <==> cal in {20480, 4096, 2048, 1024}
  {
  }

  // ---------------------------------------------------------------------
  // Bus voltage.

  /** get_bus_voltage's conversion: the register's bits 15..3 count 4 mV steps. */
  function BusMillivolts(raw: bv16): (mv: bv16)
  {
    (raw >> 3) * 4
  }

  /** The conversion never wraps: it is the step count times 4, at most 32764 mV. */
  lemma BusMillivoltsRange(raw: bv16)
    ensures BusMillivolts(raw) == (raw / 8) * 4
    ensures BusMillivolts(raw) / 4 == raw / 8
    ensures BusMillivolts(raw) <= 32764
  {
  }

  // ---------------------------------------------------------------------
  // The I2C master, as an oracle.

  datatype Option<T> = None | Some(value: T)

  datatype Transfer = Send(addr: bv8, data: seq<bv8>) | Recv(addr: bv8, len: nat)

  class I2c {
    /** The status the n-th transfer ends with, 0 for success. */
    const status: nat -> bv8
    /** Byte j a receive delivers when it is the n-th transfer. */
    const incoming: (nat, nat) -> bv8
    /** Every transfer so far, in order. */
    var trace: seq<Transfer>

    constructor (status: nat -> bv8, incoming: (nat, nat) -> bv8)
      ensures this.status == status && this.incoming == incoming && trace == []
    {
      this.status := status;
      this.incoming := incoming;
      trace := [];
    }

    /** i2c_master_send: the bytes go to the address, and the transfer's status comes back. */
    method MasterSend(addr: bv8, data: seq<bv8>) returns (ret: bv8)
      modifies this
      ensures ret == status(|old(trace)|) && trace == old(trace) + [Send(addr, data)]
    {
      ret := status(|trace|);
      trace := trace + [Send(addr, data)];
    }

    /** i2c_master_recv: len bytes from the address, and the transfer's status. */
    method MasterRecv(addr: bv8, len: nat) returns (ret: bv8, buf: seq<bv8>)
      modifies this
      ensures ret == status(|old(trace)|) && trace == old(trace) + [Recv(addr, len)]
      ensures buf == seq(len, j requires 0 <= j => incoming(|old(trace)|, j))
    {
      var n := |trace|;
      ret := status(n);
      buf := seq(len, j requires 0 <= j => incoming(n, j));
      trace := trace + [Recv(addr, len)];
    }

    /** The status a register read ends with: the pointer write's failure, else the receive's status. */
    ghost function ReadStatus(n: nat): bv8
      reads this
    {
      if status(n) != 0 then status(n) else status(n + 1)
    }

    /** The transfers of a register read starting as the n-th: the pointer write, and the receive when that succeeded. */
    ghost function ReadTrace(n: nat, addr: bv8, reg: bv8): seq<Transfer>
      reads this
    {
      if status(n) != 0 then [Send(addr, [reg])] else [Send(addr, [reg]), Recv(addr, 2)]
    }

    /** The register value a successful read starting as the n-th delivers. */
    ghost function ReadValue(n: nat): bv16
      reads this
    {
      Join(incoming(n + 1, 0), incoming(n + 1, 1))
    }

    /**
     * What write_single_setting did, from trace t0 on: a failed configuration
     * read is passed on and nothing is written; otherwise the merged value is
     * written to the configuration register and that write's status returned.
     */
    ghost predicate SettingWritten(t0: seq<Transfer>, addr: bv8, mask: bv16, value: bv16, ret: bv8)
      reads this
    {
      var n := |t0|;
      if ReadStatus(n) != 0 then
        ret == ReadStatus(n) && trace == t0 + ReadTrace(n, addr, INA219_REG_CONFIG)
      else
        ret == status(n + 2) &&
        trace == t0 + ReadTrace(n, addr, INA219_REG_CONFIG)
                    + [Send(addr, [INA219_REG_CONFIG] + Split(Merge(ReadValue(n), mask, value)))]
    }
  }

  // ---------------------------------------------------------------------
  // The driver.

  /** ina219_t: the device's I2C address and its current LSB in microamperes. */
  datatype Device = Device(addr: bv8, currentLsb: bv16)

  /** The driver's static state: the devices table, and how many handles were given out. A handle is an index into the table. */
  class Driver {
    const devices: array<Device>
    var count: nat

    ghost predicate Valid()
      reads this
    {
      devices.Length == INA219_MAX_DEVICES && count <= INA219_MAX_DEVICES
    }

    constructor ()
      ensures Valid() && count == 0 && fresh(devices)
    {
      devices := new Device[INA219_MAX_DEVICES](_ => Device(0, 0));
      count := 0;
    }

    /**
     * ina219_new: the next free slot, set to the address with a zero current
     * LSB; NULL (None) once all INA219_MAX_DEVICES slots are given out.
     */
    method New(i2cAddr: bv8) returns (h: Option<nat>)
      requires Valid()
      modifies this, devices
      ensures Valid()
      ensures old(count) >= INA219_MAX_DEVICES ==> h == None && count == old(count) && devices[..] == old(devices[..])
      ensures old(count) < INA219_MAX_DEVICES ==>
        h == Some(old(count)) && count == old(count) + 1 &&
        devices[..] == old(devices[..])[old(count) := Device(i2cAddr, 0)]
    {
      if count >= INA219_MAX_DEVICES {
        return None;
      }
      devices[count] := Device(i2cAddr, 0);
      h := Some(count);
      count := count + 1;
    }

    /**
     * ina219_read_register: the register pointer written, then two bytes
     * read. A failed transfer's status is returned and dest kept; otherwise
     * 0 and the big-endian value.
     */
    method ReadRegister(bus: I2c, h: nat, reg: bv8, dest: bv16) returns (ret: bv8, value: bv16)
      requires Valid() && h < count
      modifies bus
      ensures var n := |old(bus.trace)|;
        ret == bus.ReadStatus(n) && bus.trace == old(bus.trace) + bus.ReadTrace(n, devices[h].addr, reg) &&
        value == if ret == 0 then bus.ReadValue(n) else dest
    {
      ghost var n := |bus.trace|;
      var addr := devices[h].addr;
      ret := bus.MasterSend(addr, [reg]);
      if ret != 0 {
        assert bus.ReadStatus(n) == ret;
        return ret, dest;
      }
      var buf;
      ret, buf := bus.MasterRecv(addr, 2);
      assert bus.ReadStatus(n) == ret;
      if ret != 0 {
        return ret, dest;
      }
      value := Join(buf[0], buf[1]);
      assert value == bus.ReadValue(n);
    }

    /** ina219_write_register: one transfer of the register number and the value's two bytes, high first. */
    method WriteRegister(bus: I2c, h: nat, reg: bv8, value: bv16) returns (ret: bv8)
      requires Valid() && h < count
      modifies bus
      ensures ret == bus.status(|old(bus.trace)|)
      ensures bus.trace == old(bus.trace) + [Send(devices[h].addr, [reg] + Split(value))]
    {
      var msg := [reg, (value >> 8) as bv8, (value & 0xFF) as bv8];
      assert msg == [reg] + Split(value);
      ret := bus.MasterSend(devices[h].addr, msg);
    }

    /** ina219_configure: the value written to the configuration register. */
    method Configure(bus: I2c, h: nat, config: bv16) returns (ret: bv8)
      requires Valid() && h < count
      modifies bus
      ensures ret == bus.status(|old(bus.trace)|)
      ensures bus.trace == old(bus.trace) + [Send(devices[h].addr, [INA219_REG_CONFIG] + Split(config))]
    {
      ret := WriteRegister(bus, h, INA219_REG_CONFIG, config);
    }

    /** ina219_read_config: the configuration register read into dest. */
    method ReadConfig(bus: I2c, h: nat, dest: bv16) returns (ret: bv8, config: bv16)
      requires Valid() && h < count
      modifies bus
      ensures var n := |old(bus.trace)|;
        ret == bus.ReadStatus(n) && bus.trace == old(bus.trace) + bus.ReadTrace(n, devices[h].addr, INA219_REG_CONFIG) &&
        config == if ret == 0 then bus.ReadValue(n) else dest
    {
      ret, config := ReadRegister(bus, h, INA219_REG_CONFIG, dest);
    }

    /**
     * ina219_write_single_setting: the configuration read, the field under
     * mask replaced by value, and the result written back; a failed read is
     * passed on without a write.
     */
    method WriteSingleSetting(bus: I2c, h: nat, mask: bv16, value: bv16) returns (ret: bv8)
      requires Valid() && h < count
      modifies bus
      ensures bus.SettingWritten(old(bus.trace), devices[h].addr, mask, value, ret)
    {
      ghost var t0 := bus.trace;
      var config;
      ret, config := ReadConfig(bus, h, 0);
      ghost var t1 := bus.trace;
      assert t1 == t0 + bus.ReadTrace(|t0|, devices[h].addr, INA219_REG_CONFIG);
      if ret != 0 {
        return ret;
      }
      assert config == bus.ReadValue(|t0|);
      config := Merge(config, mask, value);
      ret := Configure(bus, h, config);
      assert |t1| == |t0| + 2;
    }

    /** ina219_set_mode: the mode field written. */
    method SetMode(bus: I2c, h: nat, mode: bv16) returns (ret: bv8)
      requires Valid() && h < count
      modifies bus
      ensures bus.SettingWritten(old(bus.trace), devices[h].addr, INA219_CONFIG_MODE_MASK, mode, ret)
    {
      ret := WriteSingleSetting(bus, h, INA219_CONFIG_MODE_MASK, mode);
    }

    /** ina219_set_voltage_range: the range field written. */
    method SetVoltageRange(bus: I2c, h: nat, range: bv16) returns (ret: bv8)
      requires Valid() && h < count
      modifies bus
      ensures bus.SettingWritten(old(bus.trace), devices[h].addr, INA219_CONFIG_VRANGE_MASK, range, ret)
    {
      ret := WriteSingleSetting(bus, h, INA219_CONFIG_VRANGE_MASK, range);
    }

    /** ina219_set_gain: the shunt gain field written. */
    method SetGain(bus: I2c, h: nat, gain: bv16) returns (ret: bv8)
      requires Valid() && h < count
      modifies bus
      ensures bus.SettingWritten(old(bus.trace), devices[h].addr, INA219_CONFIG_GAIN_MASK, gain, ret)
    {
      ret := WriteSingleSetting(bus, h, INA219_CONFIG_GAIN_MASK, gain);
    }

    /** ina219_set_bus_adc: the bus ADC field written. */
    method SetBusAdc(bus: I2c, h: nat, badc: bv16) returns (ret: bv8)
      requires Valid() && h < count
      modifies bus
      ensures bus.SettingWritten(old(bus.trace), devices[h].addr, INA219_CONFIG_BADC_MASK, badc, ret)
    {
      ret := WriteSingleSetting(bus, h, INA219_CONFIG_BADC_MASK, badc);
    }

    /** ina219_set_shunt_adc: the shunt ADC field written. */
    method SetShuntAdc(bus: I2c, h: nat, sadc: bv16) returns (ret: bv8)
      requires Valid() && h < count
      modifies bus
      ensures bus.SettingWritten(old(bus.trace), devices[h].addr, INA219_CONFIG_SADC_MASK, sadc, ret)
    {
      ret := WriteSingleSetting(bus, h, INA219_CONFIG_SADC_MASK, sadc);
    }

    /**
     * ina219_calibrate: the current LSB set from the table for a known
     * calibration value (kept otherwise), and the value written to the
     * calibration register in every case.
     */
    method Calibrate(bus: I2c, h: nat, calValue: bv16) returns (ret: bv8)
      requires Valid() && h < count
      modifies bus, devices
      ensures Valid() && count == old(count)
      ensures devices[..] == old(devices[..])[h := old(devices[h]).(currentLsb :=
        match CalibrationLsb(calValue) case Some(lsb) => lsb case None => old(devices[h].currentLsb))]
      ensures ret == bus.status(|old(bus.trace)|)
      ensures bus.trace == old(bus.trace) + [Send(devices[h].addr, [INA219_REG_CAL] + Split(calValue))]
    {
      if calValue == INA219_CALIBRATION_MAX_05A {
        devices[h] := devices[h].(currentLsb := INA219_CURRENT_LSB_CAL_05A);
      } else if calValue == INA219_CALIBRATION_MAX_2A {
        devices[h] := devices[h].(currentLsb := INA219_CURRENT_LSB_CAL_2A);
      } else if calValue == INA219_CALIBRATION_MAX_4A {
        devices[h] := devices[h].(currentLsb := INA219_CURRENT_LSB_CAL_4A);
      } else if calValue == INA219_CALIBRATION_MAX_8A {
        devices[h] := devices[h].(currentLsb := INA219_CURRENT_LSB_CAL_8A);
      }
      ret := WriteRegister(bus, h, INA219_REG_CAL, calValue);
    }

    /** ina219_reset: 0x8000, the reset bit, written to the configuration register. */
    method Reset(bus: I2c, h: nat) returns (ret: bv8)
      requires Valid() && h < count
      modifies bus
      ensures ret == bus.status(|old(bus.trace)|)
      ensures bus.trace == old(bus.trace) + [Send(devices[h].addr, [INA219_REG_CONFIG, 0x80, 0x00])]
    {
      ret := WriteRegister(bus, h, INA219_REG_CONFIG, CONFIG_RESET);
      assert [INA219_REG_CONFIG] + Split(CONFIG_RESET) == [INA219_REG_CONFIG, 0x80, 0x00];
    }

    /**
     * ina219_get_bus_voltage: the bus voltage register read and converted to
     * millivolts; a failed read is passed on with busMv kept.
     */
    method GetBusVoltage(bus: I2c, h: nat, busMv: bv16) returns (ret: bv8, mv: bv16)
      requires Valid() && h < count
      modifies bus
      ensures var n := |old(bus.trace)|;
        ret == bus.ReadStatus(n) && bus.trace == old(bus.trace) + bus.ReadTrace(n, devices[h].addr, INA219_REG_BUS_V) &&
        mv == if ret == 0 then BusMillivolts(bus.ReadValue(n)) else busMv
    {
      ret, mv := ReadRegister(bus, h, INA219_REG_BUS_V, busMv);
      if ret != 0 {
        return ret, mv;
      }
      mv := (mv >> 3) * 4;
      ret := 0;
    }
  }
}
