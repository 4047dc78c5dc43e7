/** The DS1921L Thermochron's memory and command protocol as the driver
    runs it over the bus: every operation starts with a reset and the
    Skip ROM command (the only device on the line is addressed), and
    writes to the device's registers go through its 32-byte scratchpad
    in three transactions (write scratchpad, read it back and compare,
    copy it to memory). */
module DS1921 {
  import opened CInt
  import opened OneWire
  import opened Rtc

  /** ROM function. */
  const SKIPROM := 0xCC

  /** Memory functions, and the one-shot conversion that is issued in
      their place. */
  const WRITESCRATCH := 0x0F
  const READSCRATCH := 0xAA
  const COPYSCRATCH := 0x55
  const READMEM := 0xF0
  const CLEARMEM := 0x3C
  const CONVERTTEMP := 0x44

  /** Register addresses. */
  const TEMPADDR := 0x0211
  const RTCSECONDS := 0x0200
  const RTCMINUTES := 0x0201
  const RTCHOURS := 0x0202
  const RTCDAYOFWEEK := 0x0203
  const RTCDATE := 0x0204
  const RTCMONTH := 0x0205
  const RTCYEAR := 0x0206
  const CONTROLREG := 0x020E
  const MISDELAY := 0x0212

  /** Control register bits. The oscillator and mission enables are
      written as 0: on the DS1921L those two bits are active low. */
  const ENABLEOSC := 0x00
  const ENABLECLR := 0x40
  const ENABLEMIS := 0x00
  const ENABLERLO := 0x08
  const ENABLETLS := 0x04
  const ENABLETHS := 0x02
  const ENABLETAS := 0x01

  /** The non-zero control flags and the bit positions they set. */
  const SET_FLAGS: seq<nat> := [ENABLECLR, ENABLERLO, ENABLETLS, ENABLETHS, ENABLETAS]
  const FLAG_BITS: seq<nat> := [6, 3, 2, 1, 0]

  /** `oneShotConvert`'s reading when no device answers a reset. */
  const ABSENT: real := -100.0

  /** The non-zero control flags are single bits, each in its own
      position, so OR-ing two of them adds them; the oscillator and
      mission enables set nothing. */
  lemma ControlFlags()
    ensures ENABLEOSC == 0 && ENABLEMIS == 0
    ensures forall i :: 0 <= i < 5 ==> SET_FLAGS[i] == Pow2(FLAG_BITS[i])
    ensures forall i, j :: 0 <= i < 5 && 0 <= j < 5 && i != j ==>
      Or(SET_FLAGS[i], SET_FLAGS[j]) == SET_FLAGS[i] + SET_FLAGS[j]
  {
    Pow2Values();
    assert Pow2(0) == 1 && Pow2(3) == 8;
    forall i, j | 0 <= i < 5 && 0 <= j < 5 && i != j
      ensures Or(SET_FLAGS[i], SET_FLAGS[j]) == SET_FLAGS[i] + SET_FLAGS[j]
    {
      OrDistinctBits(FLAG_BITS[i], FLAG_BITS[j]);
    }
  }

  /** The ending offset `verifyScratch` and `commitScratch` compute in a
      `uint8_t`: the target's offset within its 32-byte page plus
      length - 1, modulo 256. Nothing rejects an offset past the page. */
  function EndOffset(address: int, length: int): (e: int)
    ensures 0 <= e < 0x100
  {
    U8(Mask(address, 5) + length - 1)
  }

  /** For a length of at least one byte the ending offset is the page
      offset of the last byte, modulo 256; it lands within the page when
      the write does, and also when the sum wraps past 255. A zero length
      wraps around to 255 at a page start. */
  lemma EndOffsetPage(address: Uint16, length: Uint8)
    ensures length >= 1 && address % 32 + length <= 0x100 ==>
      EndOffset(address, length) == address % 32 + length - 1
    ensures length >= 1 ==>
      (EndOffset(address, length) < 32 <==> address % 32 + length <= 32 || address % 32 + length > 0x100)
    ensures length == 0 && address % 32 == 0 ==> EndOffset(address, length) == 0xFF
  {
    Pow2Values();
    var x := address % 32 + length - 1;
    if length >= 1 && x < 0x100 {
      U8Small(x);
    } else if length >= 1 {
      DivModUnique(x, 0x100, 1, x - 0x100);
    } else if address % 32 == 0 {
      DivModUnique(-1, 0x100, -1, 0xFF);
    }
  }

  /** The ending offsets of the three call sites: seven clock bytes at
      0x0200, the control register alone, and the six bytes from 0x020E. */
  lemma CallSiteOffsets()
    ensures EndOffset(RTCSECONDS, 7) == 6
    ensures EndOffset(CONTROLREG, 1) == 14
    ensures EndOffset(CONTROLREG, 6) == 19
  {
    EndOffsetPage(RTCSECONDS, 7);
    EndOffsetPage(CONTROLREG, 1);
    EndOffsetPage(CONTROLREG, 6);
  }

  /** `writeAddr`'s two bytes, in the order it sends them: the low byte
      `address & 0xFF`, then the high byte `(address >> 8) & 0xFF` (both
      already fit the `uint8_t` they are stored in). */
  function AddrBytes(address: int): (b: seq<int>)
    ensures |b| == 2 && 0 <= b[0] < 0x100 && 0 <= b[1] < 0x100
  {
    [Mask(address, 8), Mask(Shr(address, 8), 8)]
  }

  /** The address bytes on the wire at the three addresses the driver
      uses: 11 02 for the temperature register, 00 02 for the clock, 0E 02
      for the control register. */
  lemma WireAddresses()
    ensures AddrBytes(TEMPADDR) == [0x11, 0x02]
    ensures AddrBytes(RTCSECONDS) == [0x00, 0x02]
    ensures AddrBytes(CONTROLREG) == [0x0E, 0x02]
  {
    AddrBytesOf(TEMPADDR, 0x11, 0x02);
    AddrBytesOf(RTCSECONDS, 0x00, 0x02);
    AddrBytesOf(CONTROLREG, 0x0E, 0x02);
  }

  lemma AddrBytesOf(address: int, lo: int, hi: int)
    requires 0 <= lo < 0x100 && 0 <= hi < 0x100 && address == lo + 0x100 * hi
    ensures AddrBytes(address) == [lo, hi]
  {
    AddrBytesValue(address);
    DivModUnique(address, 0x100, hi, lo);
    DivModUnique(hi, 0x100, 0, hi);
  }

  /** `verifyScratch`'s address: the first byte read, OR-ed with the
      second shifted up by 8, in a `uint16_t`. */
  function Rebuilt(first: int, second: int): (a: int)
    requires 0 <= first < 0x100 && 0 <= second < 0x100
    ensures 0 <= a < 0x1_0000
  {
    U16(Or(first, Shl(second, 8)))
  }

  /** The two address bytes are the low and high byte of the address's
      16 low bits, and rebuilding them gives those 16 bits back: every
      16-bit address round-trips. */
  lemma AddrRoundTrip(address: int)
    ensures AddrBytes(address)[0] + 0x100 * AddrBytes(address)[1] == U16(address)
    ensures Rebuilt(AddrBytes(address)[0], AddrBytes(address)[1]) == U16(address)
  {
    var lo, hi := AddrBytes(address)[0], AddrBytes(address)[1];
    AddrBytesValue(address);
    ByteSplit(address);
    RebuiltBytes(lo, hi);
  }

  lemma AddrBytesValue(address: int)
    ensures AddrBytes(address)[0] == address % 0x100
    ensures AddrBytes(address)[1] == (address / 0x100) % 0x100
  {
    Pow2Values();
    ShrIsDiv(address, 8);
  }

  /** Bytes that fit rebuild their plain sum. */
  lemma RebuiltBytes(lo: int, hi: int)
    requires 0 <= lo < 0x100 && 0 <= hi < 0x100
    ensures Rebuilt(lo, hi) == lo + 0x100 * hi
  {
    var sh := Shl(hi, 8);
    assert sh == 0x100 * hi && lo < Pow2(8) by {
      Pow2Values();
    }
    OrComm(lo, sh);
    OrDisjoint(hi, 8, lo);
    U16Small(lo + 0x100 * hi);
  }

  /** What `verifyScratch` compares, read from the stream of the device's
      answer: the echoed address from the first two bytes and the
      echoed ending offset in the third. */
  function EchoedAddress(s: seq<Bit>, at: nat): (a: int)
    ensures 0 <= a < 0x1_0000
  {
    Rebuilt(ByteAt(s, at), ByteAt(s, at + 8))
  }

  /** `verifyScratch`'s verdict on the device's answer starting at read
      sample `at`. */
  predicate Verified(s: seq<Bit>, at: nat, address: int, length: int)
  {
    EchoedAddress(s, at) == address && ByteAt(s, at + 16) == EndOffset(address, length)
  }

  /** For a 16-bit address, `verifyScratch` succeeds exactly when the
      first byte read is the address's low byte, the second its high byte
      and the third the ending offset. */
  lemma VerifiedBytes(s: seq<Bit>, at: nat, address: Uint16, length: int)
    ensures Verified(s, at, address, length) <==>
      && ByteAt(s, at) == address % 0x100 && ByteAt(s, at + 8) == address / 0x100
      && ByteAt(s, at + 16) == EndOffset(address, length)
  {
    var lo, hi := ByteAt(s, at), ByteAt(s, at + 8);
    RebuiltBytes(lo, hi);
    DivModUnique(address, 0x100, address / 0x100, address % 0x100);
    if lo + 0x100 * hi == address {
      DivModUnique(address, 0x100, hi, lo);
    }
  }

  /** What a DS1921L answers to Read Scratchpad after a Write Scratchpad
      of `written` bytes at `address`: the target address, low byte
      first, then the ending offset of the last byte written with the
      status bits above it clear. */
  function ScratchEcho(address: int, written: int): (b: seq<int>)
  {
    AddrBytes(address) + [Mask(address, 5) + written - 1]
  }

  /** Against a device that staged `written` bytes within one page,
      `verifyScratch` succeeds exactly when it is given that number of
      bytes as its length. */
  lemma CompliantVerify(address: Uint16, length: Uint8, written: int, pre: seq<Bit>, rest: seq<Bit>)
    requires 1 <= written && Mask(address, 5) + written <= 32
    ensures Verified(pre + BitStream(ScratchEcho(address, written)) + rest, |pre|, address, length)
      <==> length == written
  {
    EchoRead(address, written, pre, rest);
    OffsetMatch(Mask(address, 5), length, written);
  }

  /** The answer of such a device is read back as the address and the
      ending offset of the last byte staged. */
  lemma EchoRead(address: Uint16, written: int, pre: seq<Bit>, rest: seq<Bit>)
    requires 1 <= written && Mask(address, 5) + written <= 32
    ensures EchoedAddress(pre + BitStream(ScratchEcho(address, written)) + rest, |pre|) == address
    ensures ByteAt(pre + BitStream(ScratchEcho(address, written)) + rest, |pre| + 16)
      == Mask(address, 5) + written - 1
  {
    var echo := ScratchEcho(address, written);
    Pow2Values();
    ByteAtStream(pre, echo, rest, 0);
    ByteAtStream(pre, echo, rest, 1);
    ByteAtStream(pre, echo, rest, 2);
    MaskSmall(echo[0], 8);
    MaskSmall(echo[1], 8);
    MaskSmall(echo[2], 8);
    AddrRoundTrip(address);
    U16Small(address);
  }

  lemma OffsetMatch(m: int, length: int, written: int)
    requires 0 <= m < 32 && 0 <= length < 0x100 && 1 <= written && m + written <= 32
    ensures U8(m + length - 1) == m + written - 1 <==> length == written
  {
    if length == 0 {
      if m == 0 {
        DivModUnique(-1, 0x100, -1, 0xFF);
      } else {
        U8Small(m - 1);
      }
    } else if m + length - 1 < 0x100 {
      U8Small(m + length - 1);
    } else {
      DivModUnique(m + length - 1, 0x100, 1, m + length - 1 - 0x100);
    }
  }

  /** A reset, Skip ROM, then the given command bytes. */
  function Command(bytes: seq<int>): (t: seq<Event>)
  {
    [ResetSlot] + Bytes([SKIPROM] + bytes)
  }

  /** The slots of a Write Scratchpad of `data` at `address`. */
  function WriteFrame(address: int, data: seq<int>): (t: seq<Event>)
  {
    Command([WRITESCRATCH] + AddrBytes(address) + data)
  }

  /** The slots of `verifyScratch`: Read Scratchpad and three bytes read. */
  function VerifyFrame(): (t: seq<Event>)
  {
    Command([READSCRATCH]) + ReadSlots(24)
  }

  /** The slots of `commitScratch`: Copy Scratchpad, the address and the
      ending offset. */
  function CommitFrame(address: int, length: int): (t: seq<Event>)
  {
    Command([COPYSCRATCH] + AddrBytes(address) + [EndOffset(address, length)])
  }

  /** The slots of a successful `oneShotConvert`: Convert Temperature,
      then Read Memory at the temperature register and one byte read. */
  function ConvertFrame(): (t: seq<Event>)
  {
    Command([CONVERTTEMP]) + Command([READMEM] + AddrBytes(TEMPADDR)) + ReadSlots(8)
  }

  /** `readByte(pin) / 2.0 - 40.0`: the reading of the temperature
      register in degrees Celsius. Every value it takes for a byte is a
      multiple of 0.5 of small magnitude, so the `float` the source
      stores it in holds it exactly. */
  function Celsius(raw: int): (c: real)
    ensures (c + 40.0) * 2.0 == raw as real
    ensures 0 <= raw < 0x100 ==> -40.0 <= c <= 87.5 && c != ABSENT
  {
    raw as real / 2.0 - 40.0
  }

  /** The opcodes on the wire: the frames open with a reset and Skip ROM
      (CC), then Write Scratchpad (0F), Read Scratchpad (AA), Copy
      Scratchpad (55), Convert Temperature (44) or Read Memory (F0) at
      the temperature register 11 02; Clear Memory is 3C. The six
      memory-function opcodes are distinct bytes. */
  lemma OpcodesOnWire(address: int, data: seq<int>, length: int)
    ensures WriteFrame(address, data) == [ResetSlot] + Bytes([0xCC, 0x0F] + AddrBytes(address) + data)
    ensures VerifyFrame() == [ResetSlot] + Bytes([0xCC, 0xAA]) + ReadSlots(24)
    ensures CommitFrame(address, length)
      == [ResetSlot] + Bytes([0xCC, 0x55] + AddrBytes(address) + [EndOffset(address, length)])
    ensures ConvertFrame() == [ResetSlot] + Bytes([0xCC, 0x44]) + [ResetSlot] + Bytes([0xCC, 0xF0, 0x11, 0x02]) + ReadSlots(8)
    ensures Command([CLEARMEM]) == [ResetSlot] + Bytes([0xCC, 0x3C])
    ensures var ops := [WRITESCRATCH, READSCRATCH, COPYSCRATCH, READMEM, CLEARMEM, CONVERTTEMP];
      forall i, j :: 0 <= i < j < |ops| ==> ops[i] != ops[j]
  {
    WireAddresses();
    assert [SKIPROM] + ([WRITESCRATCH] + AddrBytes(address) + data) == [0xCC, 0x0F] + AddrBytes(address) + data;
    assert [SKIPROM] + ([COPYSCRATCH] + AddrBytes(address) + [EndOffset(address, length)])
      == [0xCC, 0x55] + AddrBytes(address) + [EndOffset(address, length)];
    assert [SKIPROM] + ([READMEM] + AddrBytes(TEMPADDR)) == [0xCC, 0xF0, 0x11, 0x02];
  }

  /** `writeAddr`: the low byte, then the high byte. */
  method WriteAddr(bus: Bus, address: int)
    modifies bus`trace
    ensures bus.trace == old(bus.trace) + Bytes(AddrBytes(address))
    ensures bus.resetCount == old(bus.resetCount) && bus.sampleCount == old(bus.sampleCount)
  {
    AddrShape(bus.trace, address);
    var byte1 := Mask(Shr(address, 8), 8);
    var byte2 := Mask(address, 8);
    bus.WriteByte(byte2);
    bus.WriteByte(byte1);
  }

  /** `verifyScratch`: reads back the scratchpad's target address and
      ending offset and compares them with the expected ones; the
      presence level of its reset is not looked at. */
  method VerifyScratch(bus: Bus, address: Uint16, length: Uint8) returns (ok: bool)
    modifies bus`trace, bus`resetCount, bus`sampleCount
    ensures ok == Verified(bus.samples, old(bus.sampleCount), address, length)
    ensures bus.trace == old(bus.trace) + VerifyFrame()
    ensures bus.resetCount == old(bus.resetCount) + 1
    ensures bus.sampleCount == old(bus.sampleCount) + 24
  {
    ghost var n0, t0 := bus.sampleCount, bus.trace;
    VerifyShape(t0);
    var _ := bus.Reset();
    bus.WriteByte(SKIPROM);
    bus.WriteByte(READSCRATCH);
    var first := bus.ReadByte();
    var returnaddress := U16(first);
    var second := bus.ReadByte();
    U16Small(first);
    U16Small(second);
    returnaddress := U16(Or(returnaddress, Shl(U16(second), 8)));
    var returnlen := bus.ReadByte();
    assert bus.trace == t0 + [ResetSlot] + ByteSlots(SKIPROM) + ByteSlots(READSCRATCH)
      + ReadSlots(8) + ReadSlots(8) + ReadSlots(8);
    assert first == ByteAt(bus.samples, n0) && second == ByteAt(bus.samples, n0 + 8);
    assert returnlen == ByteAt(bus.samples, n0 + 16);
    assert returnaddress == EchoedAddress(bus.samples, n0);
    var endoffset := Mask(address, 5);
    endoffset := U8(endoffset + length - 1);
    ok := returnaddress == address && returnlen == endoffset;
  }

  /** `commitScratch`: Copy Scratchpad with the address and the ending
      offset, ignoring the presence level of its reset. */
  method CommitScratch(bus: Bus, address: Uint16, length: Uint8)
    modifies bus`trace, bus`resetCount
    ensures bus.trace == old(bus.trace) + CommitFrame(address, length)
    ensures bus.resetCount == old(bus.resetCount) + 1 && bus.sampleCount == old(bus.sampleCount)
  {
    CommitShape(bus.trace, address, length);
    var endoffset := Mask(address, 5);
    endoffset := U8(endoffset + length - 1);
    var _ := bus.Reset();
    bus.WriteByte(SKIPROM);
    bus.WriteByte(COPYSCRATCH);
    WriteAddr(bus, address);
    bus.WriteByte(endoffset);
  }

  /** `oneShotConvert`: a conversion and a read of the temperature
      register, giving up with -100 at the first reset that no device
      answers. */
  method OneShotConvert(bus: Bus) returns (temperature: real)
    modifies bus`trace, bus`resetCount, bus`sampleCount
    ensures var r, n := old(bus.resetCount), old(bus.sampleCount);
      if Level(bus.presence, r) == HIGH then
        && temperature == ABSENT
        && bus.trace == old(bus.trace) + [ResetSlot]
        && bus.resetCount == r + 1 && bus.sampleCount == n
      else if Level(bus.presence, r + 1) == HIGH then
        && temperature == ABSENT
        && bus.trace == old(bus.trace) + Command([CONVERTTEMP]) + [ResetSlot]
        && bus.resetCount == r + 2 && bus.sampleCount == n
      else
        && temperature == Celsius(ByteAt(bus.samples, n))
        && bus.trace == old(bus.trace) + ConvertFrame()
        && bus.resetCount == r + 2 && bus.sampleCount == n + 8
  {
    ConvertShape(bus.trace);
    var check := bus.Reset();
    if check == HIGH {
      return ABSENT;
    }
    bus.WriteByte(SKIPROM);
    bus.WriteByte(CONVERTTEMP);
    check := bus.Reset();
    if check == HIGH {
      return ABSENT;
    }
    bus.WriteByte(SKIPROM);
    bus.WriteByte(READMEM);
    WriteAddr(bus, TEMPADDR);
    var raw := bus.ReadByte();
    temperature := raw as real / 2.0 - 40.0;
  }

  /** What `setRTC` and its corrected form report: no device at the
      first reset, a failed verification, or a committed write. */
  datatype Outcome = NoDevice | NotVerified | Committed

  /** `setRTC` as written: after a reset that a device answers, it
      stages the six bytes of `RtcBlock(t)` at 0x0200, then verifies and
      commits with a length of seven. */
  method SetRTC(bus: Bus, t: Tm) returns (outcome: Outcome)
    modifies bus`trace, bus`resetCount, bus`sampleCount
    ensures var r, n := old(bus.resetCount), old(bus.sampleCount);
      if Level(bus.presence, r) == HIGH then
        && outcome == NoDevice
        && bus.trace == old(bus.trace) + [ResetSlot]
        && bus.resetCount == r + 1 && bus.sampleCount == n
      else
        var ok := Verified(bus.samples, n, RTCSECONDS, 7);
        && outcome == (if ok then Committed else NotVerified)
        && bus.trace == old(bus.trace) + WriteFrame(RTCSECONDS, RtcBlock(t)) + VerifyFrame()
                        + (if ok then CommitFrame(RTCSECONDS, 7) else [])
        && bus.resetCount == r + (if ok then 3 else 2) && bus.sampleCount == n + 24
  {
    ghost var t0, r0, n0 := bus.trace, bus.resetCount, bus.sampleCount;
    WriteShape6(t0, RTCSECONDS, BcdByte(t.sec), BcdByte(t.min), HourByte(t.hour), WdayByte(t.wday),
      MonthByte(t.mon), BcdByte(t.year - 100));
    var check := bus.Reset();
    if check == HIGH {
      return NoDevice;
    }
    bus.WriteByte(SKIPROM);
    bus.WriteByte(WRITESCRATCH);
    WriteAddr(bus, RTCSECONDS);
    bus.WriteByte(BcdByte(t.sec));
    bus.WriteByte(BcdByte(t.min));
    bus.WriteByte(HourByte(t.hour));
    bus.WriteByte(WdayByte(t.wday));
    bus.WriteByte(MonthByte(t.mon));
    bus.WriteByte(BcdByte(t.year - 100));
    ghost var t1 := bus.trace;
    assert bus.resetCount == r0 + 1 && bus.sampleCount == n0;
    assert t1 == t0 + WriteFrame(RTCSECONDS, RtcBlock(t));
    var ok := VerifyScratch(bus, RTCSECONDS, 7);
    assert ok == Verified(bus.samples, n0, RTCSECONDS, 7);
    if ok {
      CommitScratch(bus, RTCSECONDS, 7);
      outcome := Committed;
    } else {
      AppendNothing(bus.trace);
      outcome := NotVerified;
    }
    assert bus.trace == t1 + VerifyFrame() + (if ok then CommitFrame(RTCSECONDS, 7) else []);
    assert bus.resetCount == r0 + (if ok then 3 else 2) && bus.sampleCount == n0 + 24;
  }

  /** `setRTC` with both findings corrected: the hours byte in BCD and
      the date written, so that seven bytes are staged for the length of
      seven that is verified and committed. */
  method SetClock(bus: Bus, t: Tm) returns (outcome: Outcome)
    modifies bus`trace, bus`resetCount, bus`sampleCount
    ensures var r, n := old(bus.resetCount), old(bus.sampleCount);
      if Level(bus.presence, r) == HIGH then
        && outcome == NoDevice
        && bus.trace == old(bus.trace) + [ResetSlot]
        && bus.resetCount == r + 1 && bus.sampleCount == n
      else
        var ok := Verified(bus.samples, n, RTCSECONDS, 7);
        && outcome == (if ok then Committed else NotVerified)
        && bus.trace == old(bus.trace) + WriteFrame(RTCSECONDS, ClockBlock(t)) + VerifyFrame()
                        + (if ok then CommitFrame(RTCSECONDS, 7) else [])
        && bus.resetCount == r + (if ok then 3 else 2) && bus.sampleCount == n + 24
  {
    ghost var t0, r0, n0 := bus.trace, bus.resetCount, bus.sampleCount;
    WriteShape7(t0, RTCSECONDS, BcdByte(t.sec), BcdByte(t.min), HourByte24(t.hour), WdayByte(t.wday),
      BcdByte(t.mday), MonthByte(t.mon), BcdByte(t.year - 100));
    var check := bus.Reset();
    if check == HIGH {
      return NoDevice;
    }
    bus.WriteByte(SKIPROM);
    bus.WriteByte(WRITESCRATCH);
    WriteAddr(bus, RTCSECONDS);
    bus.WriteByte(BcdByte(t.sec));
    bus.WriteByte(BcdByte(t.min));
    bus.WriteByte(HourByte24(t.hour));
    bus.WriteByte(WdayByte(t.wday));
    bus.WriteByte(BcdByte(t.mday));
    bus.WriteByte(MonthByte(t.mon));
    bus.WriteByte(BcdByte(t.year - 100));
    ghost var t1 := bus.trace;
    assert bus.resetCount == r0 + 1 && bus.sampleCount == n0;
    assert t1 == t0 + WriteFrame(RTCSECONDS, ClockBlock(t));
    var ok := VerifyScratch(bus, RTCSECONDS, 7);
    assert ok == Verified(bus.samples, n0, RTCSECONDS, 7);
    if ok {
      CommitScratch(bus, RTCSECONDS, 7);
      outcome := Committed;
    } else {
      AppendNothing(bus.trace);
      outcome := NotVerified;
    }
    assert bus.trace == t1 + VerifyFrame() + (if ok then CommitFrame(RTCSECONDS, 7) else []);
    assert bus.resetCount == r0 + (if ok then 3 else 2) && bus.sampleCount == n0 + 24;
  }

  /** `clearMem`: stage and commit the memory-clear enable in the
      control register, then Clear Memory whether or not the commit
      happened, and a final reset. */
  method ClearMem(bus: Bus)
    modifies bus`trace, bus`resetCount, bus`sampleCount
    ensures var r, n := old(bus.resetCount), old(bus.sampleCount);
      var ok := Verified(bus.samples, n, CONTROLREG, 1);
      && bus.trace == old(bus.trace) + WriteFrame(CONTROLREG, [ENABLECLR]) + VerifyFrame()
                      + (if ok then CommitFrame(CONTROLREG, 1) else [])
                      + Command([CLEARMEM]) + [ResetSlot]
      && bus.resetCount == r + (if ok then 5 else 4) && bus.sampleCount == n + 24
  {
    ghost var t0, r0, n0 := bus.trace, bus.resetCount, bus.sampleCount;
    WriteShape1(t0, CONTROLREG, ENABLECLR);
    var _ := bus.Reset();
    bus.WriteByte(SKIPROM);
    bus.WriteByte(WRITESCRATCH);
    WriteAddr(bus, CONTROLREG);
    bus.WriteByte(ENABLECLR);
    ghost var t1 := bus.trace;
    assert bus.resetCount == r0 + 1 && bus.sampleCount == n0;
    assert t1 == t0 + WriteFrame(CONTROLREG, [ENABLECLR]);
    var ok := VerifyScratch(bus, CONTROLREG, 1);
    if ok {
      CommitScratch(bus, CONTROLREG, 1);
    } else {
      AppendNothing(bus.trace);
    }
    ghost var t2 := bus.trace;
    assert bus.resetCount == r0 + (if ok then 3 else 2) && bus.sampleCount == n0 + 24;
    assert t2 == t1 + VerifyFrame() + (if ok then CommitFrame(CONTROLREG, 1) else []);
    ClearShape(t2);
    var _ := bus.Reset();
    bus.WriteByte(SKIPROM);
    bus.WriteByte(CLEARMEM);
    var _ := bus.Reset();
  }

  /** `missionStart`: stage the control register, three zero bytes and
      the 16-bit start delay from 0x020E, commit them if verification
      succeeds, and end with a reset. */
  method MissionStart(bus: Bus, delay: Uint16, creg: Uint8)
    modifies bus`trace, bus`resetCount, bus`sampleCount
    ensures var r, n := old(bus.resetCount), old(bus.sampleCount);
      var ok := Verified(bus.samples, n, CONTROLREG, 6);
      && bus.trace == old(bus.trace) + WriteFrame(CONTROLREG, MissionBytes(delay, creg)) + VerifyFrame()
                      + (if ok then CommitFrame(CONTROLREG, 6) else []) + [ResetSlot]
      && bus.resetCount == r + (if ok then 4 else 3) && bus.sampleCount == n + 24
  {
    ghost var t0, r0, n0 := bus.trace, bus.resetCount, bus.sampleCount;
    MissionShape(t0, delay, creg);
    var _ := bus.Reset();
    bus.WriteByte(SKIPROM);
    bus.WriteByte(WRITESCRATCH);
    WriteAddr(bus, CONTROLREG);
    bus.WriteByte(creg);
    bus.WriteByte(0x00);
    bus.WriteByte(0x00);
    bus.WriteByte(0x00);
    WriteAddr(bus, delay);
    ghost var t1 := bus.trace;
    assert bus.resetCount == r0 + 1 && bus.sampleCount == n0;
    assert t1 == t0 + WriteFrame(CONTROLREG, MissionBytes(delay, creg));
    var ok := VerifyScratch(bus, CONTROLREG, 6);
    if ok {
      CommitScratch(bus, CONTROLREG, 6);
    } else {
      AppendNothing(bus.trace);
    }
    ghost var t2 := bus.trace;
    assert bus.resetCount == r0 + (if ok then 3 else 2) && bus.sampleCount == n0 + 24;
    assert t2 == t1 + VerifyFrame() + (if ok then CommitFrame(CONTROLREG, 6) else []);
    var _ := bus.Reset();
  }

  // The slot sequences the operations above produce, regrouped into
  // their frames.

  lemma AddrShape(t0: seq<Event>, address: int)
    ensures t0 + ByteSlots(Mask(address, 8)) + ByteSlots(Mask(Shr(address, 8), 8))
      == t0 + Bytes(AddrBytes(address))
  {
    BytesSnoc([Mask(address, 8)], Mask(Shr(address, 8), 8));
    BytesSingle(Mask(address, 8));
  }

  lemma VerifyShape(t0: seq<Event>)
    ensures t0 + [ResetSlot] + ByteSlots(SKIPROM) + ByteSlots(READSCRATCH)
      + ReadSlots(8) + ReadSlots(8) + ReadSlots(8) == t0 + VerifyFrame()
  {
    BytesSnoc([SKIPROM], READSCRATCH);
    BytesSingle(SKIPROM);
    ReadSlotsAdd(8, 8);
    ReadSlotsAdd(16, 8);
  }

  lemma CommitShape(t0: seq<Event>, address: int, length: int)
    ensures t0 + [ResetSlot] + ByteSlots(SKIPROM) + ByteSlots(COPYSCRATCH)
      + Bytes(AddrBytes(address)) + ByteSlots(EndOffset(address, length))
      == t0 + CommitFrame(address, length)
  {
    var a := AddrBytes(address);
    var e := EndOffset(address, length);
    BytesSingle(SKIPROM);
    BytesSnoc([SKIPROM], COPYSCRATCH);
    BytesAppend([SKIPROM, COPYSCRATCH], a);
    BytesSnoc([SKIPROM, COPYSCRATCH] + a, e);
    assert [SKIPROM] + ([COPYSCRATCH] + a + [e]) == [SKIPROM, COPYSCRATCH] + a + [e];
  }

  lemma ConvertShape(t0: seq<Event>)
    ensures t0 + [ResetSlot] + ByteSlots(SKIPROM) + ByteSlots(CONVERTTEMP) + [ResetSlot]
      == t0 + Command([CONVERTTEMP]) + [ResetSlot]
    ensures t0 + [ResetSlot] + ByteSlots(SKIPROM) + ByteSlots(CONVERTTEMP) + [ResetSlot]
      + ByteSlots(SKIPROM) + ByteSlots(READMEM) + Bytes(AddrBytes(TEMPADDR)) + ReadSlots(8)
      == t0 + ConvertFrame()
  {
    var a := AddrBytes(TEMPADDR);
    BytesSingle(SKIPROM);
    BytesSnoc([SKIPROM], CONVERTTEMP);
    BytesSnoc([SKIPROM], READMEM);
    BytesAppend([SKIPROM, READMEM], a);
    assert [SKIPROM] + ([READMEM] + a) == [SKIPROM, READMEM] + a;
  }

  /** The slots of a Write Scratchpad, before its data bytes. */
  lemma WriteHeadShape(t0: seq<Event>, address: int)
    ensures t0 + [ResetSlot] + ByteSlots(SKIPROM) + ByteSlots(WRITESCRATCH) + Bytes(AddrBytes(address))
      == t0 + [ResetSlot] + Bytes([SKIPROM, WRITESCRATCH] + AddrBytes(address))
  {
    BytesSingle(SKIPROM);
    BytesSnoc([SKIPROM], WRITESCRATCH);
    BytesAppend([SKIPROM, WRITESCRATCH], AddrBytes(address));
  }

  lemma WriteShape1(t0: seq<Event>, address: int, x: int)
    ensures t0 + [ResetSlot] + ByteSlots(SKIPROM) + ByteSlots(WRITESCRATCH) + Bytes(AddrBytes(address))
      + ByteSlots(x) == t0 + WriteFrame(address, [x])
  {
    var h := [SKIPROM, WRITESCRATCH] + AddrBytes(address);
    WriteHeadShape(t0, address);
    BytesSnoc(h, x);
    assert [SKIPROM] + ([WRITESCRATCH] + AddrBytes(address) + [x]) == h + [x];
  }

  lemma WriteShape6(t0: seq<Event>, address: int, d0: int, d1: int, d2: int, d3: int, d4: int, d5: int)
    ensures t0 + [ResetSlot] + ByteSlots(SKIPROM) + ByteSlots(WRITESCRATCH) + Bytes(AddrBytes(address))
      + ByteSlots(d0) + ByteSlots(d1) + ByteSlots(d2) + ByteSlots(d3) + ByteSlots(d4) + ByteSlots(d5)
      == t0 + WriteFrame(address, [d0, d1, d2, d3, d4, d5])
  {
    var x := t0 + [ResetSlot];
    var h := [SKIPROM, WRITESCRATCH] + AddrBytes(address);
    WriteHeadShape(t0, address);
    Extend(x, h, d0);
    Extend(x, h + [d0], d1);
    Extend(x, h + [d0] + [d1], d2);
    Extend(x, h + [d0] + [d1] + [d2], d3);
    Extend(x, h + [d0] + [d1] + [d2] + [d3], d4);
    Extend(x, h + [d0] + [d1] + [d2] + [d3] + [d4], d5);
    assert h + [d0] + [d1] + [d2] + [d3] + [d4] + [d5]
      == [SKIPROM] + ([WRITESCRATCH] + AddrBytes(address) + [d0, d1, d2, d3, d4, d5]);
    Assoc(t0, [ResetSlot], Bytes(h + [d0] + [d1] + [d2] + [d3] + [d4] + [d5]));
  }

  lemma WriteShape7(t0: seq<Event>, address: int, d0: int, d1: int, d2: int, d3: int, d4: int, d5: int, d6: int)
    ensures t0 + [ResetSlot] + ByteSlots(SKIPROM) + ByteSlots(WRITESCRATCH) + Bytes(AddrBytes(address))
      + ByteSlots(d0) + ByteSlots(d1) + ByteSlots(d2) + ByteSlots(d3) + ByteSlots(d4) + ByteSlots(d5)
      + ByteSlots(d6) == t0 + WriteFrame(address, [d0, d1, d2, d3, d4, d5, d6])
  {
    var x := t0 + [ResetSlot];
    var h := [SKIPROM, WRITESCRATCH] + AddrBytes(address);
    WriteHeadShape(t0, address);
    Extend(x, h, d0);
    Extend(x, h + [d0], d1);
    Extend(x, h + [d0] + [d1], d2);
    Extend(x, h + [d0] + [d1] + [d2], d3);
    Extend(x, h + [d0] + [d1] + [d2] + [d3], d4);
    Extend(x, h + [d0] + [d1] + [d2] + [d3] + [d4], d5);
    Extend(x, h + [d0] + [d1] + [d2] + [d3] + [d4] + [d5], d6);
    assert h + [d0] + [d1] + [d2] + [d3] + [d4] + [d5] + [d6]
      == [SKIPROM] + ([WRITESCRATCH] + AddrBytes(address) + [d0, d1, d2, d3, d4, d5, d6]);
    Assoc(t0, [ResetSlot], Bytes(h + [d0] + [d1] + [d2] + [d3] + [d4] + [d5] + [d6]));
  }

  /** One more `writeByte` extends a run of them. */
  lemma Extend(x: seq<Event>, h: seq<int>, d: int)
    ensures x + Bytes(h) + ByteSlots(d) == x + Bytes(h + [d])
  {
    BytesSnoc(h, d);
    Assoc(x, Bytes(h), ByteSlots(d));
  }

  lemma ClearShape(t0: seq<Event>)
    ensures t0 + [ResetSlot] + ByteSlots(SKIPROM) + ByteSlots(CLEARMEM) + [ResetSlot]
      == t0 + Command([CLEARMEM]) + [ResetSlot]
  {
    BytesSingle(SKIPROM);
    BytesSnoc([SKIPROM], CLEARMEM);
  }

  lemma MissionShape(t0: seq<Event>, delay: Uint16, creg: Uint8)
    ensures t0 + [ResetSlot] + ByteSlots(SKIPROM) + ByteSlots(WRITESCRATCH) + Bytes(AddrBytes(CONTROLREG))
      + ByteSlots(creg) + ByteSlots(0) + ByteSlots(0) + ByteSlots(0) + Bytes(AddrBytes(delay))
      == t0 + WriteFrame(CONTROLREG, MissionBytes(delay, creg))
  {
    var x := t0 + [ResetSlot];
    var h := [SKIPROM, WRITESCRATCH] + AddrBytes(CONTROLREG);
    var a := AddrBytes(delay);
    var m := h + [creg] + [0] + [0] + [0];
    WriteHeadShape(t0, CONTROLREG);
    Extend(x, h, creg);
    Extend(x, h + [creg], 0);
    Extend(x, h + [creg] + [0], 0);
    Extend(x, h + [creg] + [0] + [0], 0);
    BytesAppend(m, a);
    Assoc(x, Bytes(m), Bytes(a));
    assert m + a == [SKIPROM] + ([WRITESCRATCH] + AddrBytes(CONTROLREG) + MissionBytes(delay, creg));
    Assoc(t0, [ResetSlot], Bytes(m + a));
  }

  /** The six bytes `missionStart` stages from the control register on. */
  function MissionBytes(delay: Uint16, creg: Uint8): (b: seq<int>)
    ensures |b| == 6
  {
    [creg, 0, 0, 0] + AddrBytes(delay)
  }

  /** The mission bytes are the control register, three zeros, and the
      start delay low byte first, staged from 0x020E so that the delay
      lands in the two registers at MISDELAY: its bytes rebuild the delay. */
  lemma MissionBytesLayout(delay: Uint16, creg: Uint8)
    ensures CONTROLREG + 4 == MISDELAY
    ensures MissionBytes(delay, creg)[..4] == [creg, 0, 0, 0]
    ensures MissionBytes(delay, creg)[4] == delay % 0x100
    ensures MissionBytes(delay, creg)[5] == delay / 0x100
    ensures MissionBytes(delay, creg)[4] + 0x100 * MissionBytes(delay, creg)[5] == delay
  {
    AddrRoundTrip(delay);
    U16Small(delay);
    Pow2Values();
    DivModUnique(delay, 0x100, AddrBytes(delay)[1], AddrBytes(delay)[0]);
  }

  /** Where the staged clock bytes land, byte i at 0x0200 + i: the
      corrected block fills each of the seven clock registers with its own
      field, while the block as written puts the month byte into the date
      register and the year byte into the month register, and never
      reaches the year register. */
  lemma ClockRegisters(t: Tm)
    ensures RTCMINUTES == RTCSECONDS + 1 && RTCHOURS == RTCSECONDS + 2
    ensures RTCDAYOFWEEK == RTCSECONDS + 3 && RTCDATE == RTCSECONDS + 4
    ensures RTCMONTH == RTCSECONDS + 5 && RTCYEAR == RTCSECONDS + 6
    ensures ClockBlock(t) == [BcdByte(t.sec), BcdByte(t.min), HourByte24(t.hour), WdayByte(t.wday),
                              BcdByte(t.mday), MonthByte(t.mon), BcdByte(t.year - 100)]
    ensures RtcBlock(t)[RTCDATE - RTCSECONDS] == MonthByte(t.mon)
    ensures RtcBlock(t)[RTCMONTH - RTCSECONDS] == BcdByte(t.year - 100)
    ensures |RtcBlock(t)| == RTCYEAR - RTCSECONDS
  {
  }

  /** Finding: against a compliant device the clock update as written
      never verifies, since it stages six bytes and verifies seven. */
  lemma RtcBlockNeverVerifies(t: Tm, pre: seq<Bit>, rest: seq<Bit>)
    ensures !Verified(pre + BitStream(ScratchEcho(RTCSECONDS, |RtcBlock(t)|)) + rest, |pre|, RTCSECONDS, 7)
  {
    Pow2Values();
    CompliantVerify(RTCSECONDS, 7, |RtcBlock(t)|, pre, rest);
  }

  /** The corrected clock update stages the seven bytes it verifies. */
  lemma ClockBlockVerifies(t: Tm, pre: seq<Bit>, rest: seq<Bit>)
    ensures Verified(pre + BitStream(ScratchEcho(RTCSECONDS, |ClockBlock(t)|)) + rest, |pre|, RTCSECONDS, 7)
  {
    Pow2Values();
    CompliantVerify(RTCSECONDS, 7, |ClockBlock(t)|, pre, rest);
  }
}
