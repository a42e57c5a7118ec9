# avr-snippets drivers in Dafny

This project models the core drivers of avr-snippets, a set of AVR
microcontroller drivers written in C, and proves properties of the model:

- the 1-Wire bus master: reset, bit and byte slots, ROM commands, the ROM
  search algorithm, device enumeration and the hex id string;
- the DS18B20/DS18S20 temperature sensor driver: the search for both
  families, scratchpad read and write with the Dallas/Maxim CRC-8, the
  temperature conversions, the temperature string, and the resolution and
  conversion time;
- the interrupt-driven hardware UART: ring buffers for receive and
  transmit, `putc`/`puts`/`putb`/`getc` and both interrupt handlers;
- the software UART on the USI peripheral: bit reversal, ring buffers,
  `sendc`/`sends`/`data_available`/`recvc`/`recvn`/`recv_until`/`rx_buffer_clear`,
  and the receive and transmit halves of the USI overflow handler;
- the INA219 current monitor driver: big-endian register transfers over
  I2C, the read-modify-write of one configuration field, the calibration
  table, the device table, reset and the bus voltage.

How the hardware is modelled:

- The 1-Wire bus is the `W1Bus.Bus` class. It holds the set of device ids
  and the state of the line:
  - which devices are still active;
  - the command bits heard since the last reset;
  - where a running ROM search stands;
  - the levels that devices drive in ordinary read slots;
  - a trace of every slot.
- During a search, a read slot returns the wired-AND of the active devices'
  bits. In every other read slot, the level comes from `incoming`.
- The ROM search is specified as a pure function, `W1Search.Search`, over
  the set of devices. The method `W1.SearchRom` is proved equal to it.
  What repeated searches enumerate is then proved about the function.
- Ring buffers share one model, the `Ring` module: the queue that a cell
  array and two indices stand for.
  - The hardware UART's buffers are arrays of 16 and 32 bytes.
  - The USI UART's buffers are arrays of 16 and 16 bytes.
- The I2C master is the `Ina219.I2c` class, an oracle:
  - the status of every transfer is fixed in advance;
  - so are the bytes every receive delivers;
  - every transfer is appended to a trace.
- Widths are explicit:
  - bytes are `bv8`;
  - INA219 registers are `bv16`;
  - DS1820 temperature words are integers below 65536, with the 16-bit
    wrap of the C code written out (`Signed16`, `Int16`).

## Model

| member | source | states |
|---|---|---|
| W1Bus.Bus.Reset | w1/w1-master.c:15-31 | A presence pulse (0) comes back exactly when a device is on the bus, else 1; afterwards every device is active, listening for a command and not searching. |
| W1Bus.Bus.WriteBit | w1/w1-master.c:33-49 | One write slot; any non-zero argument writes a 1, which every listening device hears. |
| W1Bus.Bus.ReadBit | w1/w1-master.c:51-64 | One read slot; the result is the pin mask `1 << W1PIN` when the line is high and 0 when a device pulls it low. |
| W1Bus.CommandAfterReset | w1/w1-master.c:116-118 | The 8 bits written after a reset are the command byte that the devices hear, least significant bit first. |
| W1Bus.SearchCommand | w1/w1-master.c:116-118 | After a reset and the byte 0xF0, the devices are in search mode at bit position 0. |
| W1.WriteByte | w1/w1-master.c:66-73 | The 8 bits of the byte go on the line in write slots, least significant first. |
| W1.ReadByte | w1/w1-master.c:75-84 | The byte read is the 8 read-slot levels, slot i giving bit i. The proof uses the fact that `read_bit` returns 0 or 1 because W1PIN is 0. |
| Bits.ByteBitsRoundTrip | w1/w1-master.c:66-84 | Reading back the bits that `write_byte` puts on the line gives the byte. |
| Bits.BitsRoundTrip | w1/w1-master.c:75-84 | Any 8 levels read form a byte whose bits are those levels. |
| Bits.BytesBitsInjective | w1/w1-master.c:101-108 | Equal bit streams come from equal byte sequences. |
| W1.SkipRom | w1/w1-master.c:86-90 | Exactly the SKIP ROM byte 0xCC is written. |
| W1.ReadRom | w1/w1-master.c:92-99 | After 0x33, the 8 bytes read are stored in order. |
| W1.ReadRomReturnsId | w1/w1-master.c:92-99 | When the only device answers with its id, `read_rom` stores that id. |
| W1.LevelsBytesRoundTrip | w1/w1-master.c:92-99 | Grouping the bits of a byte sequence back into bytes gives the sequence. |
| W1.MatchRom | w1/w1-master.c:101-108 | 0x55 is written, then the 8 id bytes in index order, each least significant bit first. |
| W1.MatchRomDistinguishes | w1/w1-master.c:101-108 | Two ids that produce the same MATCH ROM traffic are equal, so only the named device is selected. |
| W1Search.Resolve | w1/w1-master.c:128-153 | One search position: the bit that all devices agree on is taken. At a discrepancy the bit is 1 at the last deviation, 0 above it, and the previous id's bit below it. A new deviation is recorded exactly when 0 is taken at a discrepancy. |
| W1.ChooseDirection | w1/w1-master.c:128-153 | The in-place update of the id bit and the deviation equals `Resolve`. |
| W1.SearchBit | w1/w1-master.c:120-157 | One position of the search loop: two reads and one write. It aborts exactly when no device answered, and otherwise leaves the rest of the pass unchanged. |
| W1.SearchRom | w1/w1-master.c:110-165 | Result and new state equal the search function. The cases are: FAILED without a presence pulse; FAILED with the partial id when no device answers; otherwise DONE when no deviation remains, else MORE_AVAIL. |
| W1Search.SearchFinds | w1/w1-master.c:110-165 | With devices on the bus, a search never fails. It returns DONE exactly when the new last deviation is -1. |
| W1Search.FirstSearch | w1/w1-master.c:110-165 | From the initial state, the search finds the least device id, in the order in which ids go out on the wire. DONE means no other device exists. |
| W1Search.NextSearch | w1/w1-master.c:110-165 | From a state that the search left, the next search finds the next larger device id and skips none. |
| W1Search.LessTotal | w1/w1-master.c:120-157 | The order in which the search visits ids (bit 0 first) is total. |
| W1Search.LastIffNoBranch | w1/w1-master.c:159-164 | The last deviation is -1 exactly when no device lies above the id found. |
| W1Search.SearchEnumerates | w1/w1-master.c:110-165 | From the initial state, as many searches as there are devices return every device exactly once, in ascending order, with DONE on the last. |
| W1Search.FirstIsLeast | w1/w1-master.c:110-165 | The least device plus the devices above it make up the bus, so one fewer device remains after each find. |
| W1Search.Scan | w1/w1-master.c:167-190 | The ids collected never exceed the room given. |
| W1Search.FindDevicesLists | w1/w1-master.c:167-190 | `find_devices` fails exactly when the bus is empty and the buffer is not. Otherwise it lists the first min(buf_size, number of devices) ids in ascending order, without repeats, all of them devices. |
| W1Search.ScanAll | w1/w1-master.c:167-190 | From any state with last deviation -1, the collection restarts at the least device and lists min(room, devices) of them. |
| W1.FindDevices | w1/w1-master.c:167-190 | The buffer's first entries and the count equal the scan. Entries past the count are unchanged, and the count is 0 on failure. |
| W1.Id2Str | w1/w1-master.c:192-208 | The first 16 characters are the id's bytes in hex, high nibble first, followed by a NUL; the rest of the buffer is unchanged. |
| Hex.ByteHexRoundTrip | w1/w1-master.c:192-208 | Parsing the two digits written for a byte gives the byte. |
| Hex.BytesHexRoundTrip | w1/w1-master.c:192-208 | Parsing the 16-digit id string gives back the id. |
| Hex.NibblesCompose | w1/w1-master.c:197-204 | High nibble times 16 plus low nibble is the byte. |
| Hex.HexDigit | w1/w1-master.c:197-204 | Each nibble becomes a hex digit (0-9, A-F) whose value is the nibble. |
| Hex.FortyTwo | w1/w1-master.c:197-204 | The byte 42 is written as "2A". |
| DS1820.Sensor.constructor | ds1820/ds1820.c:14-23 | The id is copied, and the registers take the power-on defaults: 0x0550, 0x7F, 0x80 and 12-bit resolution. |
| DS1820.SearchBus | ds1820/ds1820.c:25-58 | The count and the stored sensors equal the two-family scan: all DS18B20s first, then DS18S20s, each stored sensor with default registers. The count is 0 when a search fails. Buffer entries past the count are unchanged. |
| DS1820.SearchFamily | ds1820/ds1820.c:31-40 | One family loop stores exactly the ids that the family scan yields, from `start` on, and reports a failed search. |
| DS1820.Reseed | ds1820/ds1820.c:42-44 | The search state becomes last deviation 63 with the DS18S20 family code and zero bytes. |
| DS1820Search.SearchBusSound | ds1820/ds1820.c:25-58 | The search fails exactly when the bus is empty and size > 0. Every id returned is on the bus, DS18B20s come before DS18S20s, and no id is repeated. |
| DS1820Search.SearchBusComplete | ds1820/ds1820.c:25-58 | When every id carries a valid CRC, either the buffer fills or every DS18B20 and DS18S20 on the bus is returned. |
| DS1820Search.FamilyScanSound | ds1820/ds1820.c:31-55 | One family loop never fails on a non-empty bus and returns sorted ids of that family that are on the bus. |
| DS1820Search.FamilyScanComplete | ds1820/ds1820.c:31-55 | From a state inside the family, the loop returns every larger device of the family unless the buffer fills. |
| DS1820Search.SeedFindsLeast | ds1820/ds1820.c:29 | Seeding the search with the family code and deviation 63 finds the least device of that family. |
| DS1820Search.NoCrcTwins | ds1820/ds1820.c:29 | Two ids with valid CRCs that agree in their first 63 bits are equal. The seeded search therefore cannot skip a device that differs from the seed only in bit 63. |
| DS1820Search.FamilyScanAll | ds1820/ds1820.c:31-55 | From the family seed, the loop returns every device of the family unless the buffer fills. |
| DS1820Search.GroupsDistinct | ds1820/ds1820.c:25-58 | Joining the sorted DS18B20 and DS18S20 lists gives a grouped list without repeats. |
| DS1820.ConvertTAll | ds1820/ds1820.c:68-74 | Reset, SKIP ROM, then CONVERT T (0x44). |
| DS1820.Sensor.ConvertT | ds1820/ds1820.c:60-66 | Reset, MATCH ROM with the sensor's id, then 0x44. |
| DS1820.Sensor.CopyScratchpad | ds1820/ds1820.c:111-117 | Reset, MATCH ROM with the sensor's id, then 0x48. |
| DS1820.Sensor.RecallE2 | ds1820/ds1820.c:119-125 | Reset, MATCH ROM with the sensor's id, then 0xB8. |
| DS1820.Sensor.ReadScratchpad | ds1820/ds1820.c:76-97 | After 0xBE, 9 bytes are read. If their CRC is 0, the result is 0 and the registers are decoded (temperature little-endian, TH, TL, configuration); otherwise the result is 1 and the registers are unchanged. |
| DS1820.ReadScratchpadReceives | ds1820/ds1820.c:76-97 | When the sensor sends its 9 bytes, `read_scratchpad` reads exactly those bytes. |
| DS1820.Scratchpad | ds1820/ds1820.c:85-90 | A scratchpad that a sensor sends (8 data bytes and their CRC) passes the driver's CRC test. |
| DS1820.ScratchpadRoundTrip | ds1820/ds1820.c:92-95 | Decoding a scratchpad gives back the temperature bytes, TH, TL and the configuration. |
| DS1820.ScratchpadCheck | ds1820/ds1820.c:85-90 | The CRC over all 9 bytes is 0 exactly when byte 8 is the CRC of the first 8. Any error confined to one byte is detected. |
| Crc8.CrcAppendSelf | ds1820/ds1820.c:85-90 | Appending a message's CRC makes the CRC 0. |
| Crc8.CrcCheck | ds1820/ds1820.c:85-90 | The CRC is 0 exactly when the last byte is the CRC of the bytes before it. |
| Crc8.CrcDetectsByteError | ds1820/ds1820.c:85-90 | Messages that differ in one byte have different CRCs. |
| Crc8.UpdateZero | ds1820/ds1820.c:87 | One update gives 0 exactly when the data byte equals the register. |
| Crc8.ApplicationNoteExample | ds1820/ds1820.c:87 | The update reproduces the reference id 02 1C B8 01 00 00 00, whose CRC is A2. |
| DS1820.Sensor.WriteScratchpad | ds1820/ds1820.c:99-109 | As written: reset, MATCH ROM, TH and TL, then the configuration byte only for a DS18S20. |
| DS1820.ScratchpadWriteBytes | ds1820/ds1820.c:105-108 | As written, 3 bytes follow MATCH ROM for a DS18S20 and 2 bytes otherwise. |
| DS1820.WriteScratchpadIgnored | ds1820/ds1820.c:99-109 | As written, a sensor's registers stay unchanged whenever TH is not the 0x4E command. |
| DS1820.WriteScratchpadDefaults | ds1820/ds1820.c:99-109 | As written, writing the default registers does not restore them on a sensor whose TH differs. |
| DS1820.IntendedWriteBytes | ds1820/ds1820.h:61-64 | The corrected write starts with 0x4E, then TH and TL, and for a DS18B20 the configuration. |
| DS1820.IntendedWriteStores | ds1820/ds1820.h:61-64 | The corrected write stores TH and TL, and the configuration exactly on a DS18B20, leaving the temperature unchanged. |
| DS1820.Signed16 | ds1820/ds1820.c:139-141 | The register read as a two's-complement int16: negative exactly when bit 15 is set, and congruent to the raw word mod 65536. |
| DS1820.Int16 | ds1820/ds1820.c:148-149 | The result is cut to int16 with wrap-around; values in range are unchanged. |
| DS1820.Magnitude | ds1820/ds1820.c:140-141 | The uint16 magnitude `~t + 1` of a negative reading is its absolute value (0x8000 stays 0x8000). |
| DS1820.DeciDegrees | ds1820/ds1820.c:133-150 | The value lies in the int16 range, and in ±1279 for a DS18B20. |
| DS1820.DeciDegreesB20 | ds1820/ds1820.c:142-144 | For a DS18B20 reading in range, the result is the reading in 1/16 °C converted to tenths, truncated toward zero. |
| DS1820.FractionTenths | ds1820/ds1820.c:143 | `(f*63)/100` equals `(f*10)/16` for every 4-bit fraction. |
| DS1820.DeciDegreesS20 | ds1820/ds1820.c:145-146 | For a DS18S20, the result is the half-degree reading times 5. |
| DS1820.DeciDegreesExamples | ds1820/ds1820.c:133-150 | 0x0550 gives 850 (85.0 °C) and 0xFF5E gives -101 (-10.1 °C) on a DS18B20. |
| DS1820.Degrees | ds1820/ds1820.c:152-175 | The value lies in the int16 range. |
| DS1820.DegreesRound | ds1820/ds1820.c:152-175 | Whole degrees are the reading rounded to the nearest degree, halves away from zero (16 steps per degree on a DS18B20, 2 on a DS18S20). |
| DS1820.DegreesRoundDeci | ds1820/ds1820.c:152-175 | On a DS18B20, whole degrees are the deci-degree value rounded, halves away from zero. |
| DS1820.DegreesRoundDeciS20 | ds1820/ds1820.c:152-175 | The same holds on a DS18S20. |
| DS1820.Sensor.AsString | ds1820/ds1820.c:188-201 | The buffer receives the temperature text followed by a NUL, and the rest of it is unchanged. |
| DS1820.TemperatureText | ds1820/ds1820.c:194-198 | As written, the text is `itoa(t/10)`, '.', `itoa(abs(t%10))` with C truncation, and contains no NUL. |
| DS1820.TemperatureTextAgrees | ds1820/ds1820.c:194-198 | Outside -0.9..-0.1 °C, the text is the correct signed decimal of the tenths value. |
| DS1820.TemperatureTextLosesSign | ds1820/ds1820.c:194-198 | Between -0.9 and -0.1 °C, the text drops the minus sign and parses as the opposite value. |
| DS1820.TemperatureTextExample | ds1820/ds1820.c:194-198 | -5 tenths is written "0.5". |
| DS1820.TenthsTextRoundTrip | ds1820/ds1820.c:188-201 | The corrected text parses back to the tenths value for every temperature. |
| DS1820.TemperatureTextLength | ds1820/ds1820.h:93-97 | Every int16 temperature takes at most 7 characters. |
| DS1820.SevenBytesSuffice | ds1820/ds1820.h:93-97 | With its NUL, the text fits 7 bytes for every DS18B20 reading and every DS18S20 reading within the sensor's range. |
| DS1820.SevenBytesOverflow | ds1820/ds1820.h:93-97 | The DS18S20 word 0x8000 gives "-3276.8", which needs 8 bytes. |
| Decimal.ItoaRoundTrip | ds1820/ds1820.c:194-198 | The decimal text written by `itoa` parses back to the number. |
| Decimal.Rem | ds1820/ds1820.c:194-198 | C's `%`: the remainder takes the dividend's sign and satisfies a == (a/b)*b + r. |
| Decimal.WriteItoa | ds1820/ds1820.c:194-198 | The buffer receives the digits and a NUL at the given position, and the rest of it is unchanged. |
| DS1820.Sensor.SetResolution | ds1820/ds1820.c:236-241 | The configuration register changes only on a DS18B20. |
| DS1820.Resolution | ds1820/ds1820.c:230-234 | `get_resolution` returns the configuration byte read as an int8. |
| DS1820.ResolutionSettings | ds1820/ds1820.h:21-24 | The four resolution settings read back as 0, 32, 64 and 96. |
| DS1820.ConversionTime | ds1820/ds1820.c:243-251 | 750 ms on a DS18S20; on a DS18B20, 94 ms times a power of two, at most 128. |
| DS1820.ConversionTimeDoubles | ds1820/ds1820.h:29 | Each resolution step doubles the DS18B20 conversion time. |
| DS1820.ConversionTimes | ds1820/ds1820.h:26-29 | As written, the four resolutions give 94, 188, 376 and 752 ms; 752 exceeds DS1820_CONV_TIME_MAX. |
| DS1820.DatasheetConversionTime | ds1820/ds1820.h:26-29 | The corrected time never exceeds DS1820_CONV_TIME_MAX. |
| DS1820.DatasheetConversionTimes | ds1820/ds1820.h:26-29 | The corrected times are 94, 188, 375 and 750 ms. |
| Ring.Capacity | uart/uart.c:44-70 | A ring buffer of n cells holds at most n-1 bytes. It is full exactly when it holds n-1 and empty exactly when the indices are equal. |
| Ring.Push | uart/uart.c:57-64 | Storing at the end index and advancing it appends the byte to the queue. |
| Ring.Pop | uart/uart.c:120-127 | The byte at the start index is the queue's head, and advancing the start index drops it. |
| Ring.CountIsMod | usi_uart/usi_uart.c:277-282 | The queue length is (end - start) mod n. |
| Ring.NextIsMod | usi_uart/usi_uart.c:33-34 | Advancing an index is +1 mod n. |
| Uart.FullTestIsFull | uart/uart.c:51-54 | The driver's full test holds exactly when the buffer holds n-1 bytes. |
| Uart.Usart.constructor | uart/uart.c:11-39 | Both queues are empty, nothing has been sent, and the data-register-empty interrupt is off. |
| Uart.Usart.Putc | uart/uart.c:44-70 | The non-blocking variant returns 1 exactly when the TX buffer is full, leaving the queue unchanged; otherwise it returns 0 and appends the byte. |
| Uart.Usart.Puts | uart/uart.c:75-88 | Appends the string up to its NUL or until the buffer is full, and returns the count, min(strlen, room). |
| CString.TextOrRoom | uart/uart.c:75-88 | The loop stops at min(strlen, room). |
| Uart.Usart.Putb | uart/uart.c:93-108 | Appends the two hex digits of the byte, as many as fit, and returns 0 exactly when both fit. |
| Uart.Usart.Getc | uart/uart.c:113-130 | Returns 1 with the destination unchanged when nothing was received; otherwise returns 0 and removes and yields the oldest byte. |
| Uart.Usart.ReceiveComplete | uart/uart.c:133-153 | The received byte is appended unless the RX buffer is full, in which case it is dropped. |
| Uart.Usart.DataRegisterEmpty | uart/uart.c:156-170 | The oldest queued byte is sent and removed. The interrupt stays enabled exactly while bytes remain. |
| UsiUart.ReverseReverse | usi_uart/usi_uart.c:217-225 | Reversing the bit order twice gives the byte back. |
| UsiUart.ReverseBit | usi_uart/usi_uart.c:217-225 | Bit k of the reversed byte is bit 7-k of the byte. |
| UsiUart.MaskedIncrement | usi_uart/usi_uart.c:33-34 | `(i+1) & MASK` advances an index mod 16. |
| UsiUart.Usi.constructor | usi_uart/usi_uart.c:36-44 | Both queues are empty. |
| UsiUart.Usi.Sendc | usi_uart/usi_uart.c:238-263 | The non-blocking variant returns 1 exactly when the TX buffer is full, leaving the queue unchanged. Otherwise the byte is queued in its bit-reversed form and the result is 0. |
| UsiUart.Usi.Sends | usi_uart/usi_uart.c:265-275 | Queues the string up to its NUL or until the buffer is full, and returns min(strlen, room). |
| UsiUart.Usi.DataAvailable | usi_uart/usi_uart.c:277-282 | The number of received bytes waiting, which is (tail - head) mod 16. |
| UsiUart.Usi.Recvc | usi_uart/usi_uart.c:284-296 | Returns 1 with the destination unchanged when nothing is waiting; otherwise returns 0 and removes and yields the oldest byte in wire order. |
| UsiUart.Usi.Recvn | usi_uart/usi_uart.c:298-309 | As written: min(n, waiting) bytes are taken into the buffer. The count returned is n+1 when more than n bytes were waiting. |
| UsiUart.Usi.RecvnFixed | usi_uart/usi_uart.h:81-86 | Corrected: the count returned is exactly the min(n, waiting) bytes taken. |
| UsiUart.Taken | usi_uart/usi_uart.c:311-327 | The bytes taken run up to and including the first delimiter, or are `size` bytes without a delimiter before the last. |
| UsiUart.Usi.RecvUntil | usi_uart/usi_uart.c:311-327 | As written: the bytes up to the delimiter or `size` are taken. When no delimiter ends them, the count returned is (size+1) mod 256. |
| UsiUart.Usi.RecvUntilFixed | usi_uart/usi_uart.h:88-94 | Corrected: the count returned is exactly the number of bytes taken. |
| UsiUart.Usi.RxBufferClear | usi_uart/usi_uart.c:329-333 | The receive queue is empty and both indices are 0, with the TX side unchanged. |
| UsiUart.Usi.OverflowReceive | usi_uart/usi_uart.c:146-153 | The USI data byte is appended unless the RX buffer is full. Its bit-reversed form is what `recvc` later yields. |
| UsiUart.Usi.OverflowTransmit | usi_uart/usi_uart.c:161-166 | When bytes are queued, the oldest one becomes the current byte, in wire order, and is removed; otherwise nothing changes. |
| Ina219.JoinSplit | ina219/ina219.c:26-35 | A value written as high byte then low byte, and read back that way, is the value. |
| Ina219.SplitJoin | ina219/ina219.c:26-35 | Splitting a value read from two bytes gives those bytes. |
| Ina219.Driver.New | ina219/ina219.c:52-71 | The next free slot receives the address and a zero current LSB and is returned. Once all INA219_MAX_DEVICES slots are taken, the result is NULL and nothing changes. |
| Ina219.Driver.ReadRegister | ina219/ina219.c:9-28 | The register pointer is written, then 2 bytes are read. A failed transfer's status is returned and the receive is skipped after a failed pointer write. On success the result is 0 and the big-endian value. |
| Ina219.Driver.WriteRegister | ina219/ina219.c:30-35 | One transfer of the register number, the high byte and the low byte; its status is returned. |
| Ina219.Driver.Configure | ina219/ina219.c:79-83 | The value is written to the configuration register. |
| Ina219.Driver.ReadConfig | ina219/ina219.c:144-148 | A register read of the configuration register. |
| Ina219.Driver.WriteSingleSetting | ina219/ina219.c:37-50 | The configuration is read. A failure is passed on without a write; otherwise `(config & ~mask) \| value` is written back. |
| Ina219.MergeField | ina219/ina219.c:48 | A value inside its mask replaces that field and keeps every bit outside it. |
| Ina219.MergeEscapes | ina219/ina219.c:48 | Bits of a value outside the mask end up set whatever the configuration held. |
| Ina219.Driver.SetMode | ina219/ina219.c:85-89 | Writes the mode field (mask 0x0007). |
| Ina219.Driver.SetVoltageRange | ina219/ina219.c:91-95 | Writes the bus range field (mask 0x2000). |
| Ina219.Driver.SetGain | ina219/ina219.c:97-101 | Writes the gain field (mask 0x1800). |
| Ina219.Driver.SetBusAdc | ina219/ina219.c:103-107 | Writes the bus ADC field (mask 0x0780). |
| Ina219.Driver.SetShuntAdc | ina219/ina219.c:109-113 | Writes the shunt ADC field (mask 0x0078). |
| Ina219.SettingsInsideMasks | ina219/ina219.h:34-42 | The 16 V range and the four gains lie inside their masks. |
| Ina219.VoltageRange32AsWritten | ina219/ina219.h:36 | The header's 32 V value 0x8000 lies outside the range mask. Setting it clears the range bit (16 V) and sets bit 15, the reset bit. |
| Ina219.VoltageRange32InField | ina219/ina219.h:81 | With 0x2000, setting the 32 V range sets exactly the range bit. |
| Ina219.BusContinuousAsWritten | ina219/ina219.h:70-78 | As written, bus-voltage-continuous equals shunt-voltage-continuous (5), and no mode is 110. |
| Ina219.ModesInFieldDistinct | ina219/ina219.h:70-78 | With 6 for bus-voltage-continuous, the eight modes are the codes 0 to 7, distinct and inside the mode mask. |
| Ina219.Driver.Calibrate | ina219/ina219.c:115-134 | For one of the four known calibration values, the current LSB is set from the table; otherwise it is kept. The value goes to the calibration register in every case. |
| Ina219.CalibrationFormula | ina219/ina219.h:15-24 | Each known calibration value times its LSB is 409600, the device's formula for a 0.1 ohm shunt. The table knows exactly the four header values. |
| Ina219.Driver.Reset | ina219/ina219.c:136-140 | 0x8000 is written to the configuration register as 00 80 00. |
| Ina219.Driver.GetBusVoltage | ina219/ina219.c:174-186 | The bus voltage register is read. A failure is passed on with the destination unchanged; otherwise the result is the register's bits 15..3 times 4 mV. |
| Ina219.BusMillivoltsRange | ina219/ina219.c:184 | The conversion never wraps: it is (raw / 8) * 4, at most 32764. |

## Left out

- Electrical timing: the microsecond delays of 1-Wire slots, the UART baud timing, and the USI and timer bit timing. Each slot, byte or transfer is one atomic step.
- Concurrency: interrupt handlers (`ISR`) and the main program run concurrently in the source; here each handler is a method called between driver calls, so interleavings inside a driver call are not modelled.
- Blocking builds: only the non-blocking variants of `uart_putc` (uart/uart.c:48-49) and `usi_uart_sendc` (usi_uart/usi_uart.c:245-246) are modelled, although the headers' default build blocks. `usi_uart_recv_until`'s busy wait becomes the requirement `Enough`: the bytes it waits for are already received.
- Device replies outside a search: the levels that devices drive in ordinary read slots (READ ROM, READ SCRATCHPAD) are an oracle sequence, `incoming`. The model does not derive them from the device's own registers.
- DS1820.SearchBus: `cnt` is an `int8_t` in the source. The model requires `size < 128` or fewer than 128 devices on the bus, so the counter never wraps.
- The CRC update `_crc_ibutton_update` comes from avr-libc and is not part of this model. It is defined from its documented polynomial (x^8 + x^5 + x^4 + 1, reflected 0x8C) as `Crc8.Update`.
- `itoa` and `abs` come from the C library; `Decimal.Itoa` and `DS1820.Abs` define them.
- Hardware setup: `uart_init`, `usi_uart_init`, `initialize_transmitter`, `initialize_receiver`, the pin-change handler and the timer handler configure registers and start or stop timing. They are not modelled, and neither is the USI state machine's idle/active states.
- UsiUart.Usi.OverflowTransmit: the two half-byte loads of the USI data register (`0x80 | (b >> 2)` and `(b << 3) | 0x07`) and the stop-bit framing are not modelled; the contract states only which byte is dequeued.
- INA219 floating point: `ina219_get_shunt_voltage`, `ina219_get_power` and `ina219_get_current` scale by `double` factors (0.01, 0.02 * LSB, 0.001 * LSB) and truncate. They are left out because the model has no floating point.
- The I2C master (i2c/i2c-master.c) is not part of this model; it is the oracle class `Ina219.I2c`.
- `ds1820_get_temperature_raw` and `ds1820_get_resolution` only return a field. `Resolution` models the latter's int8 conversion.
- The LCD, shift-register and example programs of the repository are outside the modelled core.

## Findings

| source | as written | input that shows it | evidently intended | confidence | as-written member | corrected member |
|---|---|---|---|---|---|---|
| usi_uart/usi_uart.c:298-309 | `c++ < n` is evaluated once more after n bytes were read, so the count returned is n+1 | n = 2 with 3 bytes waiting: 2 bytes are copied and 3 is returned | return the number of bytes copied | high (not executed) | UsiUart.Usi.Recvn | UsiUart.Usi.RecvnFixed |
| usi_uart/usi_uart.c:311-327 | when no delimiter is found, the final `c++ < size` leaves c at size+1 (0 when size is 255) | size = 2, bytes "ab" with delimiter '\n': 2 bytes are copied and 3 is returned | return the number of bytes copied | high (not executed) | UsiUart.Usi.RecvUntil | UsiUart.Usi.RecvUntilFixed |
| ds1820/ds1820.c:194-198 | `itoa(t/10)` of a value between -9 and -1 writes "0", so the minus sign is lost | deci-degrees -5 (-0.5 °C) gives "0.5" | "-0.5" | high (not executed) | DS1820.TemperatureTextLosesSign | DS1820.TenthsTextRoundTrip |
| ds1820/ds1820.c:99-109 | no WRITE SCRATCHPAD command (0x4E) follows MATCH ROM, and the configuration byte goes to the DS18S20 instead of the DS18B20 | any sensor whose TH is not 0x4E: the sensor ignores the write | 0x4E, TH, TL, and the configuration byte on a DS18B20 | high (not executed) | DS1820.WriteScratchpadIgnored | DS1820.IntendedWriteStores |
| ds1820/ds1820.h:26-29 | `94 * (1 << (res >> 5))` gives 376 and 752 ms for 11 and 12 bits; 752 exceeds DS1820_CONV_TIME_MAX = 750 | configuration 0x60 (12 bits) | the datasheet times 375 and 750 ms | medium (not executed) | DS1820.ConversionTimes | DS1820.DatasheetConversionTimes |
| ds1820/ds1820.h:93-97 | a 7-byte buffer is documented as enough, but a DS18S20 word of 0x8000 gives "-3276.8" plus a NUL, 8 bytes | DS18S20 with temperature register 0x8000 | a buffer of 8 bytes, or readings limited to the sensor's range | low (not executed) | DS1820.SevenBytesOverflow | DS1820.SevenBytesSuffice |
| ina219/ina219.h:36 | INA219_CONFIG_VRANGE_32 is 0x8000, outside INA219_CONFIG_VRANGE_MASK (0x2000); setting it selects 16 V and sets the reset bit | `ina219_set_voltage_range(dev, INA219_CONFIG_VRANGE_32)` on any configuration | 0x2000, the range bit | high (not executed) | Ina219.VoltageRange32AsWritten | Ina219.VoltageRange32InField |
| ina219/ina219.h:77 | INA219_CONFIG_MODE_BV_CONT is 0x0005, the same as MODE_SV_CONT | `ina219_set_mode(dev, INA219_CONFIG_MODE_BV_CONT)` selects shunt-voltage-continuous | 0x0006 | high (not executed) | Ina219.BusContinuousAsWritten | Ina219.ModesInFieldDistinct |
