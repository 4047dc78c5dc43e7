# DS1921L Thermochron driver over a bit-banged 1-Wire bus

`ibutton.cc` drives a Maxim DS1921L Thermochron iButton from one GPIO pin
of a Raspberry Pi. It does so in three layers:

- **Bit and byte layer.** The driver bit-bangs the 1-Wire time slots:
  reset and presence detect, write slots, and read slots. Bytes go out and
  come in least significant bit first.
- **Scratchpad transaction.** Writes to device memory go through the
  DS1921L's 32-byte scratchpad in three steps. Write Scratchpad stages the
  bytes at a target address. Read Scratchpad echoes the target address and
  the ending offset, and the driver compares them with what it expects.
  Copy Scratchpad commits the staged bytes.
- **Device operations.** A one-shot temperature conversion and reading;
  setting the real-time clock from the local time; clearing the memory;
  starting a mission.

The model is a Dafny project of five modules:

- **`CInt`** writes out the C integer operators the driver uses: `&` with
  a mask, the arithmetic `>>`, `<<`, bitwise `|`, `/` and `%` truncating
  toward zero, and the `uint8_t` and `uint16_t` conversions.
- **`OneWire`** is the bus, a class `Bus`.
  - Its `trace` records every time slot the host issues.
  - The device is two fixed sample streams: `presence`, the levels seen
    after each reset, and `samples`, the levels seen in each read slot.
  - The counters `resetCount` and `sampleCount` record how much of each
    stream has been consumed.
  - Past the end of a stream the line reads HIGH, as an idle, pulled-up
    line does.
  - `writeBit`, `writeByte`, `readBit`, `readByte` and `reset` are methods
    of `Bus`, each proved against a function of the trace and the samples.
- **`DS1921`** holds:
  - the opcode, address and control-flag constants;
  - the ending-offset arithmetic;
  - `writeAddr`, `verifyScratch`, `commitScratch`, `oneShotConvert`,
    `setRTC`, `clearMem` and `missionStart`, as methods on a bus. Each
    states its exact slot sequence, the counters it advances and its
    result, for every device behaviour.
- **`Rtc`** holds the byte encodings `setRTC` applies to the local time,
  and `BCDSeconds`.
- **`Scenarios`** calls the operations on fresh buses and proves what they
  do in two cases. In the first, no device is present, so every reset
  reads HIGH. In the second, a DS1921L answers every reset with a
  presence pulse and echoes its scratchpad as its data sheet says.

## Model

| member | source | states |
|---|---|---|
| `OneWire.Bus.WriteBit` | ibutton.cc:195-210 | appends one write slot that carries 1 exactly when the argument is 1, and 0 for every other value; the sample counters are unchanged |
| `OneWire.Bus.WriteByte` | ibutton.cc:212-222 | appends exactly the eight slots `ByteSlots(x)`, slot i carrying bit i of x after i arithmetic right shifts; nothing else changes |
| `OneWire.ByteSlotsLowByte` | ibutton.cc:212-222 | `writeByte` emits eight slots, slot i carrying bit i, least significant first; two arguments give the same slots if and only if they agree in their low 8 bits, so bits above bit 7 are never sent |
| `OneWire.EmittedBytes` | ibutton.cc:212-222 | the bits that the write slots of a run of `writeByte` calls carry are exactly the bit stream of those bytes, 8 per byte, each least significant bit first |
| `OneWire.Bus.ReadBit` | ibutton.cc:224-233 | returns the level at the next read sample, consumes that one sample and appends one read slot |
| `OneWire.Bus.ReadByte` | ibutton.cc:235-242 | puts the i-th of the next eight samples at bit i, so the result is `ByteAt` of the stream at the sample cursor and lies in 0..255; consumes eight samples and appends eight read slots |
| `OneWire.FromBits` | ibutton.cc:235-242 | the value `readByte` assembles from a run of samples, the i-th at bit i, is below 2^n for n samples |
| `OneWire.ByteAt` | ibutton.cc:235-242 | the byte assembled from the eight samples at a read cursor is always in 0..255 |
| `OneWire.FromBitsOfBits` | ibutton.cc:235-242 | assembling the n low bits of x, least significant first, gives x modulo 2^n |
| `OneWire.FromBitsInjective` | ibutton.cc:235-242 | two sample runs of equal length that assemble to the same value are the same run |
| `OneWire.ByteAtStream` | ibutton.cc:235-242 | reading a byte at the k-th byte of a stream that carries the bytes xs, whatever precedes or follows it, gives `xs[k] & 0xFF` |
| `OneWire.Bus.Reset` | ibutton.cc:244-253 | returns the presence level of the next reset (LOW: a device answered; HIGH: none did), consumes it and appends one reset slot |
| `Scenarios.Loopback` | ibutton.cc:212-242 | `readByte`, fed the bits that `writeByte(x)` emitted, returns `x & 0xFF` |
| `CInt.ShrIsDiv` | ibutton.cc:220 | the arithmetic right shift by k is floor division by 2^k |
| `CInt.OrDisjoint` | ibutton.cc:342 | OR-ing a value into bits that are all zero is addition, which is how the nibbles, flags and address halves are combined |
| `CInt.CDiv` | ibutton.cc:341 | C's truncating quotient: the remainder it leaves has the sign of the dividend and is smaller than the divisor |
| `CInt.CMod` | ibutton.cc:290 | C's `%`: together with the truncating quotient it rebuilds the dividend, `a == d * (a / d) + a % d`; it is the mathematical remainder for a non-negative dividend, and minus the remainder of -a, in (-d, 0], for a negative one |
| `DS1921.OpcodesOnWire` | ibutton.cc:129-147 | the frames go on the wire as reset, CC, then 0F and the address and data (Write Scratchpad), AA and 24 read slots (Read Scratchpad), 55, the address and the ending offset (Copy Scratchpad), 44 and reset, then F0 11 02 and 8 read slots (conversion), or 3C (Clear Memory); the six memory-function opcodes are distinct |
| `DS1921.ControlFlags` | ibutton.cc:176-182 | ENABLEOSC and ENABLEMIS are 0; the five other flags are the single bits 6, 3, 2, 1 and 0, and OR-ing any two distinct ones adds them |
| `DS1921.WireAddresses` | ibutton.cc:160-173 | the temperature register, the clock and the control register go on the wire as 11 02, 00 02 and 0E 02 |
| `DS1921.AddrBytes` | ibutton.cc:264-267 | `writeAddr`'s two bytes, each already in 0..255 and so unchanged by the `uint8_t` they are stored in |
| `DS1921.WriteAddr` | ibutton.cc:263-268 | appends the slots of the low byte, then the high byte, of the address; the sample counters are unchanged |
| `DS1921.AddrRoundTrip` | ibutton.cc:263-299 | the two bytes `writeAddr` sends are the low and the high byte of the address's 16 low bits, and OR-ing the first with the second shifted left by 8, in a `uint16_t`, rebuilds those bits: every 16-bit address round-trips |
| `DS1921.Rebuilt` | ibutton.cc:298-299 | `verifyScratch`'s rebuilt address is a `uint16_t`, in 0..65535 |
| `DS1921.RebuiltBytes` | ibutton.cc:298-299 | for two bytes, OR-ing the first with the second shifted left by 8 gives `first + 256 * second` |
| `DS1921.EndOffset` | ibutton.cc:301-302 | the ending offset is held in a `uint8_t`, so it always lies in 0..255 |
| `DS1921.EndOffsetPage` | ibutton.cc:301-302 | for a length of 1 or more, the `uint8_t` ending offset is the page offset of the last byte unless the sum passes 255; it is within the page exactly when the write fits the page or the sum wraps; a zero length at a page start gives 255 |
| `DS1921.CallSiteOffsets` | ibutton.cc:371-399 | the ending offsets of the three call sites are 6, 14 and 19 |
| `DS1921.VerifyScratch` | ibutton.cc:294-308 | appends reset, CC AA and 24 read slots; ignores the presence level; returns true exactly when the rebuilt echo address equals `address` and the third byte read equals `((address & 0x1F) + length - 1) mod 256`; advances the reset counter by 1 and the sample counter by 24 |
| `DS1921.VerifiedBytes` | ibutton.cc:303 | for a 16-bit address, `verifyScratch`'s comparison succeeds exactly when the first byte read is the address's low byte, the second its high byte, and the third the ending offset |
| `DS1921.CompliantVerify` | ibutton.cc:294-308 | against a device that echoes a write of `written` bytes that fits within one page, `verifyScratch` succeeds if and only if `length == written` |
| `DS1921.CommitScratch` | ibutton.cc:310-319 | appends reset, CC 55, the address low byte first, and the same ending offset `verifyScratch` compares with; ignores the presence level |
| `DS1921.OneShotConvert` | ibutton.cc:270-286 | if the first reset reads HIGH, returns -100 after that one reset slot; if the second does, returns -100 after reset, CC 44 and the second reset; otherwise emits reset, CC 44, reset, CC F0 11 02 and eight read slots, and returns the byte read, halved, minus 40 |
| `DS1921.Celsius` | ibutton.cc:284 | the reading is exactly `raw / 2 - 40`; for a byte it lies in [-40, 87.5], so -100 is never a valid reading |
| `Scenarios.AbsentConvert` | ibutton.cc:270-286 | with no device on the line the conversion returns -100 after a single reset slot |
| `Scenarios.PresentConvert` | ibutton.cc:270-286 | a device that answers both resets and holds `raw` yields `raw / 2 - 40` after the full conversion frame |
| `Rtc.BcdByte` | ibutton.cc:340-342 | the byte of seconds, minutes and year, the tens digit shifted into the high nibble and OR-ed with the ones digit, is in 0..255 for any value |
| `Rtc.BcdByteDecodes` | ibutton.cc:340-348 | for 0..99 the seconds, minutes and year byte is the tens digit in the high nibble and the ones digit in the low nibble, and it decodes back exactly |
| `Rtc.HourByte` | ibutton.cc:352-354 | the hours byte, built as in the source, is in 0..255 for any hour |
| `Rtc.HourByteBits` | ibutton.cc:352-354 | the hours byte has bit 7 clear and bit 6 set, bit 5 set iff hour > 20, bit 4 set iff hour > 10, and `hour % 10` in the low nibble |
| `Rtc.HourByteMisencodes` | ibutton.cc:353 | read as a 24-hour BCD hour, the byte is right for every hour except 10 (sent as midnight, the same byte as hour 0), 20 (sent as ten) and 21 to 23 (sent ten hours too many) |
| `Rtc.WdayByte` | ibutton.cc:358-359 | the day-of-week byte is `tm_wday + 1`, for every `tm_wday` that the `uint8_t` cast does not wrap |
| `Rtc.MonthByte` | ibutton.cc:361-363 | the month byte always has bit 7 set |
| `Rtc.MonthByteDecodes` | ibutton.cc:361-363 | for months 0..11 the byte is bit 7 plus the 1-based month in BCD, and decodes back to the month |
| `Rtc.RtcBlock` | ibutton.cc:340-369 | `setRTC` writes six bytes, seconds, minutes, hours, day of week, month, year, each in 0..255 |
| `DS1921.SetRTC` | ibutton.cc:321-373 | if the first reset reads HIGH, reports no device after that one slot; otherwise writes CC 0F 00 02 and the six bytes of `RtcBlock`, verifies with length 7, and appends the commit frame and reports a commit exactly when verification succeeded |
| `DS1921.RtcBlockNeverVerifies` | ibutton.cc:344-371 | a device that echoes the six bytes `setRTC` staged never passes `verifyScratch(0x0200, 7)` |
| `Scenarios.AbsentSetRtc` | ibutton.cc:328-332 | with no device on the line `setRTC` stops after its first reset |
| `Scenarios.CompliantSetRtc` | ibutton.cc:321-373 | against a compliant device that answers both resets, `setRTC` writes its frame, verifies, and never commits |
| `Rtc.BcdSeconds` | ibutton.cc:288-292 | for a non-negative time, the seconds within the minute in plain binary (below 60); for a negative time, C's negative remainder wrapped into a `uint8_t`: 0 when 60 divides the time, and otherwise 256 minus the remainder of -time, a value above 196 |
| `Rtc.BcdSecondsIsBinary` | ibutton.cc:288-292 | despite its name, `BCDSeconds` agrees with the BCD encoding of the seconds exactly in the first ten seconds of each minute |
| `Rtc.HourByte24Decodes` | ibutton.cc:352-354 | the corrected hours byte keeps bit 6 set and decodes back to every hour 0..23 |
| `Rtc.ClockBlockDecodes` | ibutton.cc:340-369 | the corrected seven-byte clock block decodes to exactly the time encoded, for every in-range time of 2000..2099, with the century bit set |
| `DS1921.ClockRegisters` | ibutton.cc:161-167 | the clock registers are 0x0200 to 0x0206 in order; the corrected block puts each field into its own register, while the block as written puts the month byte into the date register and the year byte into the month register, and never reaches the year register |
| `DS1921.ClockBlockVerifies` | ibutton.cc:371 | a device that echoes the seven corrected clock bytes passes `verifyScratch(0x0200, 7)` |
| `DS1921.SetClock` | ibutton.cc:321-373 | `setRTC` with the corrected block: the same control flow, staging the seven bytes of `ClockBlock` |
| `Scenarios.CompliantSetClock` | ibutton.cc:371 | against a compliant device that answers all three resets, the corrected clock update verifies and commits |
| `DS1921.ClearMem` | ibutton.cc:375-386 | writes 0x40 to 0x020E, verifies with length 1 and commits only if that succeeds, then sends reset, CC 3C whatever the outcome, and ends with a reset |
| `Scenarios.CompliantClearMem` | ibutton.cc:375-386 | against a compliant device that answers all five resets, `clearMem` commits the clear enable before Clear Memory |
| `DS1921.MissionStart` | ibutton.cc:388-401 | writes the six mission bytes to 0x020E, verifies with length 6 and commits only if that succeeds, and always ends with a reset |
| `DS1921.MissionBytesLayout` | ibutton.cc:393-397 | the mission bytes are `creg, 0, 0, 0`, then `delay & 0xFF` and `delay >> 8`, which land at MISDELAY (0x020E + 4) and rebuild the delay |
| `Scenarios.CompliantMissionStart` | ibutton.cc:388-401 | against a compliant device that answers all four resets, `missionStart` commits its six bytes |
| `Scenarios.MismatchedMissionStart` | ibutton.cc:399 | a device that answers every reset but staged any other number of bytes from 0x020E makes `missionStart` skip the commit and go straight to its final reset |

## Left out

- The bcm2835 GPIO calls and every microsecond delay. Each time slot is
  one event of the bus trace. The levels the device drives are two
  sample streams given to the bus.
- `delay` (ibutton.cc:255-260) is a pure sleep and has no model.
- `main` (ibutton.cc:403-441) is not part of this model. It is an endless
  polling loop around `printf`, `ctime` and the ROM dump.
- `time` and `localtime` in `setRTC` are foreign calls. `SetRTC` takes
  the `struct tm` fields as a `Tm` value instead, and does not require
  them to be in range, just as the C code doesn't.
- The `printf` messages of `setRTC` are not modelled. The `Outcome`
  values `NoDevice` and `NotVerified` stand for the two messages.
- `Celsius` is the exact real value `raw / 2 - 40`, not an IEEE `float`.
  Every value it takes for a byte is a multiple of 0.5 below 128 in
  magnitude, so a `float` holds it exactly.
- `targetpin`, the `pin` parameter and the unused constants carry no
  logic and are not modelled. The unused constants are READROM, MATCHROM,
  SEARCHROM, CONDITIONALSEARCH, READMEMCRC, the memory-map defines and the
  alarm registers. The source declares the register addresses RTCMINUTES
  to RTCYEAR and MISDELAY but never uses them; the model uses them only
  to say where staged bytes land (`ClockRegisters`, `MissionBytesLayout`).
- `DS1921.EndOffset`: nothing in `verifyScratch` or `commitScratch`
  rejects an ending offset of 32 or more, although such a write runs past
  the DS1921L's 32-byte scratchpad page. Both send the offset unchanged,
  and the model does the same. `EndOffsetPage` states when the offset
  leaves the page.
- The source's own header comment (ibutton.cc:64) sends the time as 7
  bytes, and RTCDATE (ibutton.cc:165) is declared. The code writes only
  six bytes and never writes the date. The seven-byte block is the
  corrected `ClockBlock`.
- Bit 6 of the hours byte: `setRTC` sets it on every write, and both the
  as-written and the corrected encodings keep it set. What the DS1921L
  makes of that bit (a 12-hour or 24-hour mode select) is not modelled.
  `HourValue` and `ClockTime` are the 24-hour BCD reading of the bytes,
  and they do not read bits 6 and 7 of the hours byte.
- The device is modelled only through what the host samples. The model
  does not say what the DS1921L does with the bytes it receives, except
  for the scratchpad echo (`ScratchEcho`) that the compliant scenarios
  use.

## Findings

| source | as written | input that shows it | evidently intended | confidence | as-written member | corrected member |
|---|---|---|---|---|---|---|
| ibutton.cc:344-371 | `setRTC` stages six data bytes (no date register) at 0x0200 and then verifies and commits with a length of 7 | any time, against a device that echoes what was staged: the echoed ending offset is 5, the expected one 6, so the clock is never committed | stage all seven clock registers 0x0200..0x0206, date included, for the length of 7 that is verified and committed | not executed | `DS1921.RtcBlockNeverVerifies` | `DS1921.ClockBlockVerifies` |
| ibutton.cc:353 | the tens bits of the hours byte are `hour > 10` (bit 4) and `hour > 20` (bit 5) | hour 10 is sent as 0x40, the same byte as midnight; hour 20 is sent as 0x50 (ten); hour 23 as 0x73 (thirty-three) | bit 4 for hours 10..19 and bit 5 for hours 20..23, the tens digit of the hour in BCD | not executed | `Rtc.HourByteMisencodes` | `Rtc.HourByte24Decodes` |

The corrected `DS1921.SetClock` uses both corrections: the seven-byte
`Rtc.ClockBlock` with `Rtc.HourByte24`. `Scenarios.CompliantSetRtc` and
`Scenarios.CompliantSetClock` call the two clock updates on a bus whose
device is compliant, and prove that the first never commits and the
second always does.
