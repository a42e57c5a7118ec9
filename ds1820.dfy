/**
 * The DS18B20/DS18S20 temperature sensor driver (ds1820/ds1820.c): a sensor
 * record caching the device's registers, the CRC-checked scratchpad read,
 * the scratchpad write, the temperature decoding, the resolution and
 * conversion-time rules, and the two-pass bus search by family code.
 */
module DS1820 {
  import opened Bits
  import opened W1Bus
  import opened W1Search
  import opened W1
  import opened Crc8
  import opened Decimal
  import opened DS1820Search

  /** Configuration register values of the DS18B20 for 9 to 12 bits. */
  const DS18B20_RESOLUTION_9: bv8 := 0x00
  const DS18B20_RESOLUTION_10: bv8 := 0x20
  const DS18B20_RESOLUTION_11: bv8 := 0x40
  const DS18B20_RESOLUTION_12: bv8 := 0x60

  /** Conversion times in milliseconds. */
  const DS1820_CONV_TIME_MAX := 750
  const DS18S20_CONV_TIME := 750
  const DS18B20_CONV_TIME_MIN := 94

  /** Function commands. */
  const CONVERT_T: bv8 := 0x44
  const WRITE_SCRATCHPAD: bv8 := 0x4E
  const READ_SCRATCHPAD: bv8 := 0xBE
  const COPY_SCRATCHPAD: bv8 := 0x48
  const RECALL_E2: bv8 := 0xB8

  /** A uint16_t. */
  type Word = x: int | 0 <= x < 0x1_0000

  /** The registers a sensor record caches. */
  datatype Registers = Registers(temp: Word, th: bv8, tl: bv8, conf: bv8)

  /** What ds1820_new caches: 85.0 degrees (the power-on reading), alarms 127 and -128, 12 bits. */
  const DEFAULT_REGISTERS := Registers(0x0550, 0x7F, 0x80, DS18B20_RESOLUTION_12)

  /** ds1820_t: the device id and the cached registers. */
  class Sensor {
    const id: Id
    var regTemp: Word
    var regTh: bv8
    var regTl: bv8
    var regConf: bv8

    function Regs(): Registers
      reads this
    {
      Registers(regTemp, regTh, regTl, regConf)
    }

    /** ds1820_new: the id copied, the registers at their power-on values. */
    constructor (id: Id)
      ensures this.id == id && Regs() == DEFAULT_REGISTERS
    {
      this.id := id;
      regTemp := 0x0550;
      regTh := 0x7F;
      regTl := 0x80;
      regConf := DS18B20_RESOLUTION_12;
    }

    /**
     * The opening every addressed transaction of the driver shares: reset,
     * MATCH ROM with the sensor's id, then one function command.
     */
    method Address(bus: Bus, command: bv8)
      modifies bus
      ensures bus.line == CommandLine(old(bus.line), bus.devices, id, command)
    {
      var presence := bus.Reset();
      MatchRom(bus, id);
      WriteByte(bus, command);
    }

    /** ds1820_convert_t: tell this sensor to start a temperature conversion. */
    method ConvertT(bus: Bus)
      modifies bus
      ensures bus.line == CommandLine(old(bus.line), bus.devices, id, CONVERT_T)
    {
      Address(bus, CONVERT_T);
    }

    /** ds1829_copy_scratchpad: tell this sensor to copy TH, TL and configuration to its EEPROM. */
    method CopyScratchpad(bus: Bus)
      modifies bus
      ensures bus.line == CommandLine(old(bus.line), bus.devices, id, COPY_SCRATCHPAD)
    {
      Address(bus, COPY_SCRATCHPAD);
    }

    /** ds1820_recall_e2: tell this sensor to reload TH, TL and configuration from its EEPROM. */
    method RecallE2(bus: Bus)
      modifies bus
      ensures bus.line == CommandLine(old(bus.line), bus.devices, id, RECALL_E2)
    {
      Address(bus, RECALL_E2);
    }

    /**
     * ds1820_read_scratchpad: address the sensor, send READ SCRATCHPAD,
     * read the nine scratchpad bytes while accumulating their CRC. Only when
     * the CRC over all nine is 0 are the registers taken over (and 0
     * returned); otherwise 1 is returned and nothing cached changes.
     */
    method ReadScratchpad(bus: Bus) returns (r: bv8)
      modifies this, bus
      ensures var (pad, l) := ReadBytes(CommandLine(old(bus.line), bus.devices, id, READ_SCRATCHPAD), 9);
        bus.line == l &&
        if Crc(pad) == 0 then r == 0 && Regs() == DecodeScratchpad(pad)
        else r == 1 && Regs() == old(Regs())
    {
      Address(bus, READ_SCRATCHPAD);
      ghost var l0 := bus.line;
      var buf: seq<bv8> := [];
      var crc: bv8 := 0;
      while |buf| < 9
        invariant |buf| <= 9
        invariant (buf, bus.line) == ReadBytes(l0, |buf|)
        invariant crc == Crc(buf)
        modifies bus
      {
        ReadBytesStep(l0, |buf|, |buf| + 1);
        var b := ReadByte(bus);
        CrcSnoc(buf, b);
        buf, crc := buf + [b], Update(crc, b);
      }
      if crc != 0 {
        return 1;
      }
      regTemp, regTh, regTl, regConf := buf[1] as int * 0x100 + buf[0] as int, buf[2], buf[3], buf[4];
      return 0;
    }

    /**
     * ds1820_write_scratchpad as written: address the sensor, then send TH,
     * TL and, for a DS18S20, the configuration byte; no WRITE SCRATCHPAD
     * command precedes them.
     */
    method WriteScratchpad(bus: Bus)
      modifies bus
      ensures bus.line == WriteBits(WriteBits(AfterReset(old(bus.line), bus.devices), ByteBits(MATCH_ROM) + BytesBits(id)),
                                    BytesBits(ScratchpadWriteBytes(id, Regs())))
    {
      var presence := bus.Reset();
      MatchRom(bus, id);
      ghost var l0 := bus.line;
      WriteByte(bus, regTh);
      WriteByte(bus, regTl);
      BytesBitsPair(regTh, regTl);
      WriteBitsAppend(l0, ByteBits(regTh), ByteBits(regTl));
      if id[0] == FC_DS18S20 {
        WriteByte(bus, regConf);
        BytesBitsSnoc([regTh, regTl], regConf);
        WriteBitsAppend(l0, BytesBits([regTh, regTl]), ByteBits(regConf));
      }
    }

    /**
     * ds1820_get_temperature_as_string: itoa of the deci degrees over ten
     * into strbuf, a scan for its terminating NUL, a '.' there, then itoa
     * of the absolute remainder after it. The buffer ends up holding the
     * temperature text and a NUL; the bytes after them are untouched.
     * The buffer must hold the text and its NUL: seven bytes do for every
     * DS18B20 reading (SevenBytesSuffice), eight for any reading at all
     * (TemperatureTextLength).
     */
    method AsString(strbuf: array<char>)
      requires |TemperatureText(DeciDegrees(id, regTemp))| < strbuf.Length
      modifies strbuf
      ensures var s := TemperatureText(DeciDegrees(id, regTemp));
        |s| < strbuf.Length && strbuf[..] == s + ['\0'] + old(strbuf[|s| + 1..])
    {
      var temperature := DeciDegrees(id, regTemp);
      ghost var whole, tenth := Itoa(Quot(temperature, 10)), Itoa(Abs(Rem(temperature, 10)));
      ghost var text := TemperatureText(temperature);
      ghost var rest := strbuf[|text| + 1..];
      assert text == whole + "." + tenth;
      WriteItoa(strbuf, 0, Quot(temperature, 10));
      ghost var mid := strbuf[|whole| + 1..];
      assert strbuf[..] == whole + ['\0'] + mid;
      var i := 0;
      while strbuf[i] != '\0'
        invariant 0 <= i <= |whole|
        invariant strbuf[..] == whole + ['\0'] + mid
        decreases |whole| - i
      {
        assert strbuf[i] == whole[i];
        i := i + 1;
      }
      assert strbuf[i] == (whole + ['\0'] + mid)[i];
      assert i == |whole|;
      strbuf[i] := '.';
      assert strbuf[..] == whole + "." + mid;
      i := i + 1;
      WriteItoa(strbuf, i, Abs(Rem(temperature, 10)));
      assert strbuf[..] == text + ['\0'] + rest;
    }

    /** ds1820_set_resolution: only a DS18B20 takes the new configuration. */
    method SetResolution(resolution: bv8)
      modifies this
      ensures Regs() == if id[0] == FC_DS18B20 then old(Regs()).(conf := resolution) else old(Regs())
    {
      if id[0] == FC_DS18B20 {
        regConf := resolution;
      }
    }
  }

  // ---------------------------------------------------------------------
  // ds1820_search_bus.

  /** ds1820_convert_t_all: reset, SKIP ROM, and every sensor on the bus starts a conversion. */
  method ConvertTAll(bus: Bus)
    modifies bus
    ensures bus.line == WriteBits(WriteBits(AfterReset(old(bus.line), bus.devices), ByteBits(SKIP_ROM)), ByteBits(CONVERT_T))
  {
    var presence := bus.Reset();
    SkipRom(bus);
    WriteByte(bus, CONVERT_T);
  }

  /**
   * One of the two loops of ds1820_search_bus, which differ only in the
   * family: search; on FAILED give up; stop at an id of another family;
   * otherwise fill the next record with ds1820_new; stop after DONE or
   * when `size` records are filled.
   */
  method SearchFamily(bus: Bus, state: SearchState, buffer: array<Sensor>, start: nat, size: nat, family: bv8)
    returns (cnt: nat, failed: bool, ghost ids: seq<Id>)
    requires start <= size <= buffer.Length
    modifies bus, state, buffer
    ensures (ids, failed) == FamilyScan(bus.devices, family, old(state.Value()), start, size)
    ensures cnt == start + |ids|
    ensures forall k :: start <= k < cnt ==> buffer[k].id == ids[k - start] && buffer[k].Regs() == DEFAULT_REGISTERS
    ensures forall k :: 0 <= k < buffer.Length && !(start <= k < cnt) ==> buffer[k] == old(buffer[k])
  {
    cnt, failed := start, false;
    var stop := false;
    ghost var cur := state.Value();
    ghost var whole := FamilyScan(bus.devices, family, cur, cnt, size);
    ghost var acc: seq<Id> := [];
    ghost var made: seq<Sensor> := [];
    assert FamilyScanAcc(bus.devices, family, cur, cnt, size, acc) == whole by {
      FamilyScanAccIs(bus.devices, family, cur, cnt, size, acc);
      assert acc + whole.0 == whole.0;
    }
    while cnt < size && !stop
      invariant start <= cnt <= size && |acc| == cnt - start && cur == state.Value()
      invariant !stop ==> !failed && FamilyScanAcc(bus.devices, family, cur, cnt, size, acc) == whole
      invariant stop ==> (acc, failed) == whole
      invariant |made| == |acc| && forall i :: 0 <= i < |made| ==> made[i].id == acc[i]
      invariant forall i :: 0 <= i < |made| ==> made[i].Regs() == DEFAULT_REGISTERS
      invariant forall k :: start <= k < cnt ==> buffer[k] == made[k - start]
      invariant forall k :: 0 <= k < buffer.Length && !(start <= k < cnt) ==> buffer[k] == old(buffer[k])
      decreases size - cnt, !stop
    {
      ghost var before := cur;
      var ret := SearchRom(bus, state);
      cur := state.Value();
      ghost var acc' := acc + [cur.deviceId];
      if ret == Failed || state.deviceId[0] != family {
        FamilyAccEnd(bus.devices, family, before, cnt, size, acc, ret, cur);
        failed, stop := ret == Failed, true;
      } else {
        var cnt' := cnt + 1;
        FamilyAccStore(bus.devices, family, before, cnt, size, acc, ret, cur, cnt', acc');
        ghost var sensor := StoreSensor(buffer, cnt, state.deviceId);
        cnt, acc, made := cnt', acc', made + [sensor];
        stop := ret == Done;
      }
    }
    if !stop {
      assert FamilyScanAcc(bus.devices, family, cur, cnt, size, acc) == (acc, false);
    }
    assert (acc, failed) == whole;
    ids := acc;
    forall k | start <= k < cnt
      ensures buffer[k].id == acc[k - start] && buffer[k].Regs() == DEFAULT_REGISTERS
    {
    }
  }

  /** The ds1820_new call of a search loop: a fresh record for the id in slot i of the buffer. */
  method StoreSensor(buffer: array<Sensor>, i: nat, id: Id) returns (ghost sensor: Sensor)
    requires i < buffer.Length
    modifies buffer
    ensures fresh(sensor) && sensor.id == id && sensor.Regs() == DEFAULT_REGISTERS && buffer[i] == sensor
    ensures forall k :: 0 <= k < buffer.Length && k != i ==> buffer[k] == old(buffer[k])
  {
    var s := new Sensor(id);
    buffer[i] := s;
    sensor := s;
  }

  /** The restart of the search state between the passes of ds1820_search_bus: last deviation 63, the family code, seven zero bytes. */
  method Reseed(state: SearchState, family: bv8)
    modifies state
    ensures state.Value() == Seed(family)
  {
    state.lastDeviation := 63;
    state.deviceId := state.deviceId[0 := family];
    var i := 1;
    while i < 8
      invariant 1 <= i <= 8 && state.lastDeviation == 63 && state.deviceId[0] == family
      invariant forall j :: 1 <= j < i ==> state.deviceId[j] == 0
    {
      state.deviceId := state.deviceId[i := 0];
      i := i + 1;
    }
  }

  /**
   * ds1820_search_bus: the DS18B20 pass from its seed, then, unless a
   * search failed, the state reseeded with the DS18S20 family and the
   * second pass into the room left. The count is 0 after a failure and the
   * number of records filled otherwise.
   */
  method SearchBus(bus: Bus, buffer: array<Sensor>, size: nat) returns (cnt: nat)
    requires size <= buffer.Length && (size < 128 || |bus.devices| < 128)
    modifies bus, buffer
    ensures var (ids, failed) := SearchBusScan(bus.devices, size);
      cnt == (if failed then 0 else |ids|) &&
      (forall k :: 0 <= k < |ids| ==> buffer[k].id == ids[k] && buffer[k].Regs() == DEFAULT_REGISTERS) &&
      (forall k :: |ids| <= k < buffer.Length ==> buffer[k] == old(buffer[k]))
  {
    var state := new SearchState(Seed(FC_DS18B20));
    var failed;
    ghost var first, ids;
    cnt := 0;
    ghost var c1, start := state.Value(), cnt;
    cnt, failed, first := SearchFamily(bus, state, buffer, cnt, size, FC_DS18B20);
    if failed {
      SearchBusParts(bus.devices, size, c1, start, first, failed, cnt, c1, first, failed);
      ids := first;
    } else {
      ghost var cnt1 := cnt;
      label firstPass:
      Reseed(state, FC_DS18S20);
      ghost var c2 := state.Value();
      ghost var second;
      cnt, failed, second := SearchFamily(bus, state, buffer, cnt, size, FC_DS18S20);
      SearchBusParts(bus.devices, size, c1, start, first, false, cnt1, c2, second, failed);
      ids := first + second;
      forall k | 0 <= k < cnt
        ensures buffer[k].id == ids[k] && buffer[k].Regs() == DEFAULT_REGISTERS
      {
        if k < cnt1 {
          assert buffer[k] == old@firstPass(buffer[k]);
          assert ids[k] == first[k];
          assert k - start == k;
          assert old@firstPass(buffer[k]).id == first[k - start];
        } else {
          assert ids[k] == second[k - cnt1];
        }
      }
    }
    assert SearchBusScan(bus.devices, size) == (ids, failed) && cnt == |ids|;
    if failed {
      cnt := 0;
    }
  }

  // ---------------------------------------------------------------------
  // The scratchpad on the line.

  /** The line once reset, MATCH ROM with the id and a function command have been sent. */
  function CommandLine(l: Line, devices: set<Id>, id: Id, command: bv8): Line
  {
    WriteBits(WriteBits(AfterReset(l, devices), ByteBits(MATCH_ROM) + BytesBits(id)), ByteBits(command))
  }

  /** The registers as ds1820_read_scratchpad takes them from the bytes read: temperature LSB first. */
  function DecodeScratchpad(pad: seq<bv8>): Registers
    requires |pad| >= 5
  {
    Registers(pad[1] as int * 0x100 + pad[0] as int, pad[2], pad[3], pad[4])
  }

  /**
   * The nine bytes a sensor sends: temperature LSB and MSB, TH, TL,
   * configuration, three reserved bytes and the CRC of the first eight.
   */
  function Scratchpad(lsb: bv8, msb: bv8, th: bv8, tl: bv8, conf: bv8, reserved: seq<bv8>): (pad: seq<bv8>)
    requires |reserved| == 3
    ensures |pad| == 9 && Crc(pad) == 0
  {
    var front := [lsb, msb, th, tl, conf] + reserved;
    CrcAppendSelf(front);
    front + [Crc(front)]
  }

  /**
   * What a sensor sends is taken over exactly: the registers are its TH, TL
   * and configuration bytes, and the cached temperature has the first byte
   * as its low and the second as its high byte.
   */
  lemma ScratchpadRoundTrip(lsb: bv8, msb: bv8, th: bv8, tl: bv8, conf: bv8, reserved: seq<bv8>)
    requires |reserved| == 3
    ensures var regs := DecodeScratchpad(Scratchpad(lsb, msb, th, tl, conf, reserved));
      regs.th == th && regs.tl == tl && regs.conf == conf &&
      regs.temp % 0x100 == lsb as int && regs.temp / 0x100 == msb as int
  {
  }

  lemma SplitAround<T>(s: seq<T>, i: int, v: T)
    requires 0 <= i < |s|
    ensures s == s[..i] + [s[i]] + s[i + 1..] && s[i := v] == s[..i] + [v] + s[i + 1..]
  {
  }

  /**
   * The CRC test accepts exactly the nine-byte blocks whose last byte is
   * the CRC of the first eight, and a block corrupted in any single byte
   * is rejected.
   */
  lemma ScratchpadCheck(pad: seq<bv8>, i: int, e: bv8)
    requires |pad| == 9 && 0 <= i < 9 && e != 0
    ensures Crc(pad) == 0 <==> pad[8] == Crc(pad[..8])
    ensures Crc(pad) == 0 ==> Crc(pad[i := pad[i] ^ e]) != 0
  {
    CrcCheck(pad);
    var p, x, r := pad[..i], pad[i], pad[i + 1..];
    var y := x ^ e;
    SplitAround(pad, i, y);
    assert x != y;
    CrcDetectsByteError(p, x, y, r);
  }

  /**
   * With nobody else driving the line, what ds1820_read_scratchpad reads is
   * what the addressed sensor sends after the READ SCRATCHPAD command.
   */
  lemma ReadScratchpadReceives(l: Line, devices: set<Id>, id: Id, pad: seq<bv8>)
    requires |pad| == 9 && |l.incoming| >= 72 && l.incoming[..72] == BytesBits(pad)
    ensures ReadBytes(CommandLine(l, devices, id, READ_SCRATCHPAD), 9).0 == pad
  {
    var l1 := AfterReset(l, devices);
    CommandAfterReset(l1, ByteBits(MATCH_ROM));
    var l2 := WriteBits(l1, ByteBits(MATCH_ROM));
    assert ByteBits(MATCH_ROM) != ByteBits(SEARCH_ROM) by {
      assert ByteBits(MATCH_ROM)[0] != ByteBits(SEARCH_ROM)[0];
    }
    WriteBitsAppend(l1, ByteBits(MATCH_ROM), BytesBits(id));
    QuietWrites(l2, BytesBits(id));
    var l3 := WriteBits(l2, BytesBits(id));
    QuietWrites(l3, ByteBits(READ_SCRATCHPAD));
    var l4 := WriteBits(l3, ByteBits(READ_SCRATCHPAD));
    assert l4.incoming == l.incoming && !l4.searching;
    QuietReads(l4, 72);
    assert Take(l4.incoming, 72) == BytesBits(pad);
    LevelsBytesRoundTrip(pad);
    ReadBytesLevels(l4, 9);
  }

  // ---------------------------------------------------------------------
  // The scratchpad write.

  /** The bytes ds1820_write_scratchpad sends after the id: TH, TL and, for a DS18S20, the configuration. */
  function ScratchpadWriteBytes(id: Id, regs: Registers): (bs: seq<bv8>)
    ensures |bs| == if id[0] == FC_DS18S20 then 3 else 2
  {
    [regs.th, regs.tl] + (if id[0] == FC_DS18S20 then [regs.conf] else [])
  }

  /**
   * How an addressed sensor of the given family takes the bytes that follow
   * its id: the first is the function command; after WRITE SCRATCHPAD the
   * data bytes go to TH, TL and, on a DS18B20 only, the configuration
   * register, as they arrive. Any other command leaves them alone.
   */
  function SensorWrites(family: bv8, regs: Registers, sent: seq<bv8>): Registers
  {
    if sent == [] || sent[0] != WRITE_SCRATCHPAD then regs
    else
      var data := sent[1..];
      regs.(th := if |data| > 0 then data[0] else regs.th,
            tl := if |data| > 1 then data[1] else regs.tl,
            conf := if family == FC_DS18B20 && |data| > 2 then data[2] else regs.conf)
  }

  /**
   * As written, the sensor takes TH as its function command: unless TH
   * happens to be 0x4E its registers stay as they were.
   */
  lemma WriteScratchpadIgnored(id: Id, regs: Registers, device: Registers)
    requires regs.th != WRITE_SCRATCHPAD
    ensures SensorWrites(id[0], device, ScratchpadWriteBytes(id, regs)) == device
  {
  }

  /** The record written by ds1820_new has TH 0x7F, so writing it back changes nothing on the sensor. */
  lemma WriteScratchpadDefaults(id: Id, device: Registers)
    requires device.th != DEFAULT_REGISTERS.th
    ensures SensorWrites(id[0], device, ScratchpadWriteBytes(id, DEFAULT_REGISTERS)) != DEFAULT_REGISTERS.(temp := device.temp)
  {
  }

  /** The bytes the write needs: the command, TH, TL, and the configuration only for a DS18B20. */
  function IntendedWriteBytes(id: Id, regs: Registers): (bs: seq<bv8>)
    ensures |bs| == (if id[0] == FC_DS18B20 then 4 else 3) && bs[0] == WRITE_SCRATCHPAD
  {
    [WRITE_SCRATCHPAD, regs.th, regs.tl] + (if id[0] == FC_DS18B20 then [regs.conf] else [])
  }

  /**
   * Sent after the id, those bytes put the record's alarm values (and, on
   * a DS18B20, its configuration) into the sensor and change nothing else.
   */
  lemma IntendedWriteStores(id: Id, regs: Registers, device: Registers)
    ensures var after := SensorWrites(id[0], device, IntendedWriteBytes(id, regs));
      after.temp == device.temp && after.th == regs.th && after.tl == regs.tl &&
      after.conf == if id[0] == FC_DS18B20 then regs.conf else device.conf
  {
  }

  lemma BytesBitsPair(a: bv8, b: bv8)
    ensures BytesBits([a, b]) == ByteBits(a) + ByteBits(b)
  {
    assert [a, b][..1] == [a];
    assert [a][..0] == [];
  }

  lemma BytesBitsSnoc(bs: seq<bv8>, b: bv8)
    ensures BytesBits(bs + [b]) == BytesBits(bs) + ByteBits(b)
  {
    assert (bs + [b])[..|bs|] == bs;
  }

  // ---------------------------------------------------------------------
  // The temperature.

  /** The reading as the signed 16-bit number the sensor means by it. */
  function Signed16(raw: Word): (v: int)
    ensures -0x8000 <= v < 0x8000 && (v < 0 <==> raw >= 0x8000) && v % 0x1_0000 == raw
  {
    if raw >= 0x8000 then raw - 0x1_0000 else raw
  }

  /** An int16_t result: the value taken modulo 2^16 into -32768..32767. */
  function Int16(x: int): (v: int)
    ensures -0x8000 <= v < 0x8000 && (v - x) % 0x1_0000 == 0
    ensures -0x8000 <= x < 0x8000 ==> v == x
  {
    (x + 0x8000) % 0x1_0000 - 0x8000
  }

  /** The magnitude the getters work on: the reading itself, or (~raw)+1 in 16 bits when the sign bit is set. */
  function Magnitude(raw: Word): (m: Word)
    ensures m == if Signed16(raw) < 0 then -Signed16(raw) else Signed16(raw)
  {
    if raw >= 0x8000 then 0x1_0000 - raw else raw
  }

  /**
   * ds1820_get_temperature_deci_degrees: a DS18B20 counts sixteenths, whose
   * integer part (bits 4 to 10 of the magnitude) is scaled by ten and whose
   * four fraction bits become tenths as f * 63 / 100; a DS18S20 counts
   * halves, scaled by five in 16 bits. The sign is put back last.
   */
  function DeciDegrees(id: Id, raw: Word): (t: int)
    ensures -0x8000 <= t < 0x8000
    ensures id[0] == FC_DS18B20 ==> -1279 <= t <= 1279
  {
    var m := Magnitude(raw);
    var u := if id[0] == FC_DS18B20 then (m / 16 % 128) * 10 + (m % 16 * 63) / 100 else m * 5 % 0x1_0000;
    if raw >= 0x8000 then Int16(-u) else Int16(u)
  }

  /** Scaling the four fraction bits by 63/100 gives the same tenths as scaling them by 10/16. */
  lemma FractionTenths(f: int)
    requires 0 <= f < 16
    ensures (f * 63) / 100 == (f * 10) / 16
  {
    assert f in {0, 1, 2, 3, 4, 5, 6, 7, 8, 9, 10, 11, 12, 13, 14, 15};
  }

  /**
   * Within the DS18B20's range (under 128 degrees either way), the deci
   * degrees are the reading in sixteenths converted to tenths, truncated
   * toward zero as C's division does.
   */
  lemma DeciDegreesB20(id: Id, raw: Word)
    requires id[0] == FC_DS18B20 && -0x800 < Signed16(raw) < 0x800
    ensures DeciDegrees(id, raw) == Quot(Signed16(raw) * 10, 16)
  {
    var m := Magnitude(raw);
    FractionTenths(m % 16);
    assert m / 16 % 128 == m / 16;
    assert (m / 16) * 10 + (m % 16 * 10) / 16 == (m * 10) / 16 by {
      assert m * 10 == (m / 16) * 160 + (m % 16) * 10;
    }
  }

  /** A DS18S20 reading counts half degrees: five tenths each, while that fits 16 bits. */
  lemma DeciDegreesS20(id: Id, raw: Word)
    requires id[0] != FC_DS18B20 && -6554 < Signed16(raw) < 6554
    ensures DeciDegrees(id, raw) == Signed16(raw) * 5
  {
  }

  /** The power-on reading 0x0550 is 85.0 degrees; 0xFF5E on a DS18B20 is -10.125, shown as -10.1. */
  lemma DeciDegreesExamples(id: Id)
    requires id[0] == FC_DS18B20
    ensures DeciDegrees(id, 0x0550) == 850 && DeciDegrees(id, 0xFF5E) == -101
  {
  }

  /** x / d rounded to the nearest integer, halves away from zero. */
  function RoundHalfAway(x: int, d: int): int
    requires d > 0 && d % 2 == 0
  {
    if x < 0 then -((-x + d / 2) / d) else (x + d / 2) / d
  }

  /**
   * ds1820_get_temperature_degrees: the magnitude shifted down to whole
   * degrees, plus one when the highest fraction bit (0x08 for a DS18B20,
   * 0x01 for a DS18S20) is set; the sign is put back last.
   */
  function Degrees(id: Id, raw: Word): (t: int)
    ensures -0x8000 <= t < 0x8000
  {
    var m := Magnitude(raw);
    var u := if id[0] == FC_DS18B20 then m / 16 + (if (m / 8) % 2 == 1 then 1 else 0)
             else m / 2 + (if m % 2 == 1 then 1 else 0);
    if raw >= 0x8000 then Int16(-u) else Int16(u)
  }

  /** The units a reading counts per degree: sixteen for a DS18B20, two for a DS18S20. */
  function StepsPerDegree(id: Id): int
  {
    if id[0] == FC_DS18B20 then 16 else 2
  }

  /** Adding half a degree before truncating is adding one when the half-degree bit is set. */
  lemma HalfUp(m: nat)
    ensures (m + 8) / 16 == m / 16 + (if (m / 8) % 2 == 1 then 1 else 0)
    ensures (m + 1) / 2 == m / 2 + (if m % 2 == 1 then 1 else 0)
  {
    var q, r := m / 16, m % 16;
    if r < 8 {
      assert m + 8 == 16 * q + (r + 8) && r + 8 < 16;
      assert m == 8 * (2 * q) + r;
      assert m / 8 == 2 * q;
    } else {
      assert m + 8 == 16 * (q + 1) + (r - 8);
      assert m == 8 * (2 * q + 1) + (r - 8);
      assert m / 8 == 2 * q + 1;
    }
  }

  /** Whole degrees are the reading rounded to the nearest degree, halves away from zero, for every reading. */
  lemma DegreesRound(id: Id, raw: Word)
    ensures Degrees(id, raw) == RoundHalfAway(Signed16(raw), StepsPerDegree(id))
  {
    HalfUp(Magnitude(raw));
  }

  /** Rounding the truncated tenths of m sixteenths gives the same whole degrees as rounding m sixteenths. */
  lemma TenthsHalfUp(m: nat)
    ensures ((m * 10) / 16 + 5) / 10 == (m + 8) / 16
  {
    var q, f := m / 16, m % 16;
    assert m * 10 == 160 * q + 10 * f;
    assert (m * 10) / 16 == 10 * q + (10 * f) / 16;
    assert f in {0, 1, 2, 3, 4, 5, 6, 7, 8, 9, 10, 11, 12, 13, 14, 15};
  }

  /** On a DS18B20, whole degrees are also the deci degrees rounded, halves away from zero. */
  lemma DegreesRoundDeci(id: Id, raw: Word)
    requires id[0] == FC_DS18B20 && -0x800 < Signed16(raw) < 0x800
    ensures Degrees(id, raw) == RoundHalfAway(DeciDegrees(id, raw), 10)
  {
    DegreesRound(id, raw);
    DeciDegreesB20(id, raw);
    TenthsHalfUp(Magnitude(raw));
  }

  /** On a DS18S20 too, whole degrees are the deci degrees rounded, halves away from zero. */
  lemma DegreesRoundDeciS20(id: Id, raw: Word)
    requires id[0] != FC_DS18B20 && -6554 < Signed16(raw) < 6554
    ensures Degrees(id, raw) == RoundHalfAway(DeciDegrees(id, raw), 10)
  {
    DegreesRound(id, raw);
    DeciDegreesS20(id, raw);
    var m := Abs(Signed16(raw)) + 1;
    var q, r := m / 2, m % 2;
    assert 5 * m == 10 * q + 5 * r && 5 * r < 10;
    assert (5 * m) / 10 == q;
  }

  // ---------------------------------------------------------------------
  // The temperature as text.

  function Abs(x: int): nat
  {
    if x < 0 then -x else x
  }

  /**
   * The text ds1820_get_temperature_as_string writes for t tenths of a
   * degree, as written: itoa of t / 10, a '.', itoa of |t % 10|, both
   * divisions truncating as in C.
   */
  function TemperatureText(t: int): (s: string)
    ensures forall i :: 0 <= i < |s| ==> s[i] != '\0'
  {
    Itoa(Quot(t, 10)) + "." + Itoa(Abs(Rem(t, 10)))
  }

  /** The text t tenths of a degree should have: a '-' when t is negative, the whole degrees, a '.', the tenth. */
  function TenthsText(t: int): (s: string)
    ensures |s| >= 3 && s[|s| - 2] == '.' && forall i :: 0 <= i < |s| ==> s[i] != '\0'
  {
    (if t < 0 then "-" else "") + Digits(Abs(t) / 10) + "." + [DigitChar(Abs(t) % 10)]
  }

  /** The whole-degree digits of a temperature text: between the optional '-' and the '.'. */
  function WholePart(s: string): string
    requires |s| >= 3
  {
    if s[0] == '-' then s[1..|s| - 2] else s[..|s| - 2]
  }

  /** An optional '-', one or more digits, a '.', one digit. */
  predicate TenthsShape(s: string)
  {
    |s| >= 3 && s[|s| - 2] == '.' && IsDigit(s[|s| - 1]) &&
    |WholePart(s)| > 0 && forall i :: 0 <= i < |WholePart(s)| ==> IsDigit(WholePart(s)[i])
  }

  /** The tenths of a degree such a text denotes. */
  function ParseTenths(s: string): int
    requires TenthsShape(s)
  {
    var magnitude := ParseDigits(WholePart(s)) * 10 + DigitValue(s[|s| - 1]);
    if s[0] == '-' then -magnitude else magnitude
  }

  /** Reading the intended text gives every temperature back. */
  lemma TenthsTextRoundTrip(t: int)
    ensures TenthsShape(TenthsText(t)) && ParseTenths(TenthsText(t)) == t
  {
    var s := TenthsText(t);
    var w := Digits(Abs(t) / 10);
    assert WholePart(s) == w;
    DigitsRoundTrip(Abs(t) / 10);
  }

  /** As written, the text is the intended one for every temperature except -0.9 to -0.1. */
  lemma TemperatureTextAgrees(t: int)
    requires !(-10 < t < 0)
    ensures TemperatureText(t) == TenthsText(t)
  {
    if t < 0 {
      assert Quot(t, 10) == -(Abs(t) / 10) && Abs(Rem(t, 10)) == Abs(t) % 10;
    }
  }

  /**
   * Between -0.9 and -0.1 degrees, t / 10 truncates to 0, itoa writes no
   * sign, and the text is that of the positive temperature: it reads back
   * as -t.
   */
  lemma TemperatureTextLosesSign(t: int)
    requires -10 < t < 0
    ensures TemperatureText(t) == TenthsText(-t)
    ensures TenthsShape(TemperatureText(t)) && ParseTenths(TemperatureText(t)) == -t != t
  {
    TenthsTextRoundTrip(-t);
  }

  /** -0.5 degrees is written "0.5". */
  lemma TemperatureTextExample()
    ensures TemperatureText(-5) == "0.5"
  {
  }

  /** Any int16_t temperature fits in seven characters, eight bytes with the terminating NUL. */
  lemma TemperatureTextLength(t: int)
    requires -0x8000 <= t < 0x8000
    ensures |TemperatureText(t)| <= 7
  {
    DigitsLength(Abs(Quot(t, 10)), 4, 10000);
    assert Pow10(4) == 10000;
  }

  /** Under 1000 degrees either way, the text takes at most six characters. */
  lemma TemperatureTextShort(t: int)
    requires -10000 < t < 10000
    ensures |TemperatureText(t)| <= 6
  {
    DigitsLength(Abs(Quot(t, 10)), 3, 1000);
    assert Pow10(3) == 1000;
  }

  /**
   * The seven bytes ds1820.h asks for hold the text and its NUL for every
   * DS18B20 reading, and for every DS18S20 reading within the device's
   * rated -55 to +125 degrees (-110 to 250 half degrees).
   */
  lemma SevenBytesSuffice(id: Id, raw: Word)
    requires id[0] == FC_DS18B20 || -110 <= Signed16(raw) <= 250
    ensures |TemperatureText(DeciDegrees(id, raw))| + 1 <= 7
  {
    if id[0] != FC_DS18B20 {
      DeciDegreesS20(id, raw);
    }
    TemperatureTextShort(DeciDegrees(id, raw));
  }

  /**
   * A DS18S20 reading of 0x8000 scales to -32768 tenths in 16 bits; its
   * text "-3276.8" and the NUL take eight bytes, one more than ds1820.h
   * asks for.
   */
  lemma SevenBytesOverflow(id: Id)
    requires id[0] != FC_DS18B20
    ensures DeciDegrees(id, 0x8000) == -32768
    ensures TemperatureText(DeciDegrees(id, 0x8000)) == "-3276.8"
    ensures |TemperatureText(DeciDegrees(id, 0x8000))| + 1 == 8
  {
    assert Digits(3276) == "3276";
    assert Digits(8) == "8";
  }

  // ---------------------------------------------------------------------
  // Resolution and conversion time.

  /** ds1820_get_resolution: the configuration byte returned as an int8_t. */
  function Resolution(conf: bv8): (r: int)
    ensures -128 <= r < 128 && (r - conf as int) % 0x100 == 0
  {
    if conf < 0x80 then conf as int else conf as int - 0x100
  }

  /** The four resolution settings read back as the numbers they are. */
  lemma ResolutionSettings()
    ensures Resolution(DS18B20_RESOLUTION_9) == 0 && Resolution(DS18B20_RESOLUTION_10) == 32
    ensures Resolution(DS18B20_RESOLUTION_11) == 64 && Resolution(DS18B20_RESOLUTION_12) == 96
  {
  }

  function Pow2(k: nat): (p: nat)
    ensures p >= 1
  {
    if k == 0 then 1 else 2 * Pow2(k - 1)
  }

  lemma Pow2AtMost128(k: nat)
    requires k <= 7
    ensures Pow2(k) <= 128
    decreases 7 - k
  {
    if k < 7 {
      Pow2AtMost128(k + 1);
    }
  }

  /**
   * ds1820_get_conversion_time: for a DS18B20 the minimum time doubled once
   * per step of the resolution bits (conf >> 5); for a DS18S20 the fixed
   * 750 ms.
   */
  function ConversionTime(id: Id, conf: bv8): (ms: int)
    ensures id[0] != FC_DS18B20 ==> ms == DS18S20_CONV_TIME
    ensures id[0] == FC_DS18B20 ==> DS18B20_CONV_TIME_MIN <= ms <= DS18B20_CONV_TIME_MIN * 128
  {
    if id[0] == FC_DS18B20 then
      Pow2AtMost128((conf >> 5) as int);
      DS18B20_CONV_TIME_MIN * Pow2((conf >> 5) as int)
    else DS18S20_CONV_TIME
  }

  /** Each further bit of resolution doubles the conversion time of a DS18B20. */
  lemma ConversionTimeDoubles(id: Id, conf: bv8)
    requires id[0] == FC_DS18B20 && conf < 0xE0
    ensures ConversionTime(id, conf + 0x20) == 2 * ConversionTime(id, conf)
  {
    assert ((conf + 0x20) >> 5) as int == (conf >> 5) as int + 1;
  }

  /**
   * 9 to 12 bits take 94, 188, 376 and 752 ms: the twelve-bit time the
   * macro gives is 2 ms more than DS1820_CONV_TIME_MAX, the longest
   * conversion the header names.
   */
  lemma ConversionTimes(id: Id)
    requires id[0] == FC_DS18B20
    ensures ConversionTime(id, DS18B20_RESOLUTION_9) == 94
    ensures ConversionTime(id, DS18B20_RESOLUTION_10) == 188
    ensures ConversionTime(id, DS18B20_RESOLUTION_11) == 376
    ensures ConversionTime(id, DS18B20_RESOLUTION_12) == 752 > DS1820_CONV_TIME_MAX
  {
    assert Pow2(3) == 8;
  }
  /**
   * The conversion times the header evidently means: DS1820_CONV_TIME_MAX
   * halved once per bit of resolution below twelve, rounded up to whole
   * milliseconds; only the resolution bits R1 and R0 (bits 6 and 5) count.
   */
  function DatasheetConversionTime(id: Id, conf: bv8): (ms: int)
    ensures ms <= DS1820_CONV_TIME_MAX
    ensures id[0] != FC_DS18B20 ==> ms == DS18S20_CONV_TIME
  {
    if id[0] == FC_DS18B20 then
      var p := Pow2(3 - ((conf >> 5) & 3) as int);
      (DS1820_CONV_TIME_MAX + p - 1) / p
    else DS18S20_CONV_TIME
  }

  /**
   * The rounded datasheet times are 94, 188, 375 and 750 ms: they agree with
   * ConversionTime at 9 and 10 bits and are one and two ms shorter at 11
   * and 12 bits, where the header's macro overshoots.
   */
  lemma DatasheetConversionTimes(id: Id)
    requires id[0] == FC_DS18B20
    ensures DatasheetConversionTime(id, DS18B20_RESOLUTION_9) == 94 == ConversionTime(id, DS18B20_RESOLUTION_9)
    ensures DatasheetConversionTime(id, DS18B20_RESOLUTION_10) == 188 == ConversionTime(id, DS18B20_RESOLUTION_10)
    ensures DatasheetConversionTime(id, DS18B20_RESOLUTION_11) == 375 == ConversionTime(id, DS18B20_RESOLUTION_11) - 1
    ensures DatasheetConversionTime(id, DS18B20_RESOLUTION_12) == DS1820_CONV_TIME_MAX == ConversionTime(id, DS18B20_RESOLUTION_12) - 2
  {
    ConversionTimes(id);
    assert Pow2(3) == 8;
  }
}
