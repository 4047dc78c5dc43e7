/** The byte encodings `setRTC` applies to the local time before it
    writes the DS1921L's real-time-clock registers, and the fraction of
    `BCDSeconds`. */
module Rtc {
  import opened CInt

  /** The fields of the `struct tm` that `localtime` fills in: years are
      counted from 1900, months from 0, days of the week from Sunday = 0. */
  datatype Tm = Tm(sec: int, min: int, hour: int, mday: int, mon: int, year: int, wday: int)

  /** The ranges `localtime` produces (a leap second aside), restricted to
      the years of the 21st century that the year byte can hold. */
  predicate InRange(t: Tm)
  {
    && 0 <= t.sec < 60 && 0 <= t.min < 60 && 0 <= t.hour < 24
    && 1 <= t.mday <= 31 && 0 <= t.mon < 12 && 100 <= t.year < 200
    && 0 <= t.wday < 7
  }

  /** The number a binary-coded-decimal byte stands for: tens in the high
      nibble, ones in the low nibble. */
  function BcdValue(b: int): (v: int)
  {
    (b / 16) * 10 + b % 16
  }

  /** `(uint8_t)c` for a C comparison result. */
  function Flag(c: bool): (f: nat)
  {
    if c then 1 else 0
  }

  /** Seconds, minutes and year: the tens digit `(v / 10) & 0x0F` shifted
      into the high nibble, OR-ed with the ones digit `(v % 10) & 0x0F`. */
  function BcdByte(v: int): (b: int)
    ensures 0 <= b < 0x100
  {
    U8(Or(Shl(Mask(CDiv(v, 10), 4), 4), Mask(CMod(v, 10), 4)))
  }

  /** A two-digit value is sent with its tens digit in the high nibble and
      its ones digit in the low nibble, and decodes back exactly. */
  lemma BcdByteDecodes(v: int)
    requires 0 <= v < 100
    ensures BcdByte(v) == 16 * (v / 10) + v % 10
    ensures BcdValue(BcdByte(v)) == v
  {
    TwoDigits(v);
    Nibbles(v / 10, v % 10);
    U8Small(16 * (v / 10) + v % 10);
    BcdArith(v / 10, v % 10);
  }

  /** For a two-digit value the masked C quotient and remainder by 10 are
      its two decimal digits. */
  lemma TwoDigits(v: int)
    requires 0 <= v < 100
    ensures Mask(CDiv(v, 10), 4) == v / 10 < 10 && Mask(CMod(v, 10), 4) == v % 10
    ensures v == 10 * (v / 10) + v % 10
  {
    Pow2Values();
    assert CDiv(v, 10) == v / 10 && CMod(v, 10) == v % 10;
    MaskSmall(v / 10, 4);
    MaskSmall(v % 10, 4);
  }

  lemma BcdArith(tens: nat, ones: nat)
    requires tens < 10 && ones < 10
    ensures BcdValue(16 * tens + ones) == 10 * tens + ones
  {
    DivModUnique(16 * tens + ones, 16, tens, ones);
  }

  /** The hours byte as the source builds it: the ones digit in the low
      nibble, and above it bit 4 for `hour > 10`, bit 5 for `hour > 20`
      and bit 6 always. */
  function HourByte(h: int): (b: int)
    ensures 0 <= b < 0x100
  {
    var low := Mask(CMod(h, 10), 4);
    var high := Or(Or(Flag(h > 10), Shl(Flag(h > 20), 1)), Shl(1, 2));
    Pow2Values();
    OrBound(Shl(high, 4), low, 8);
    U8(Or(Shl(high, 4), low))
  }

  /** The hours byte has bits 6 and 7 at 1 and 0, bit 5 set exactly when
      the hour is above 20, bit 4 exactly when it is above 10, and the
      ones digit of the hour in the low nibble. */
  lemma HourByteBits(h: int)
    requires h >= 0
    ensures HourByte(h) / 64 == 1
    ensures (HourByte(h) / 32) % 2 == Flag(h > 20)
    ensures (HourByte(h) / 16) % 2 == Flag(h > 10)
    ensures HourByte(h) % 16 == h % 10
  {
    HourByteValue(h);
    LowDigit(h);
    HourFields(Flag(h > 20), Flag(h > 10), h % 10);
  }

  /** The OR-ed fields of the hours byte occupy disjoint bits. */
  lemma HourByteValue(h: int)
    ensures HourByte(h) == 64 + 32 * Flag(h > 20) + 16 * Flag(h > 10) + Mask(CMod(h, 10), 4)
  {
    var low := Mask(CMod(h, 10), 4);
    var tens := Or(Flag(h > 10), Shl(Flag(h > 20), 1));
    Pow2Values();
    OrComm(Flag(h > 10), Shl(Flag(h > 20), 1));
    OrDisjoint(Flag(h > 20), 1, Flag(h > 10));
    assert tens == 2 * Flag(h > 20) + Flag(h > 10);
    var high := Or(tens, Shl(1, 2));
    OrComm(tens, Shl(1, 2));
    OrDisjoint(1, 2, tens);
    assert high == 4 + tens;
    Nibbles(high, low);
    U8Small(16 * high + low);
  }

  /** The ones digit `(v % 10) & 0x0F` of a non-negative value. */
  lemma LowDigit(v: int)
    requires v >= 0
    ensures Mask(CMod(v, 10), 4) == v % 10
  {
    assert CMod(v, 10) == v % 10;
    Pow2Values();
    MaskSmall(CMod(v, 10), 4);
  }

  lemma HourFields(f20: nat, f10: nat, low: nat)
    requires f20 <= 1 && f10 <= 1 && low < 16
    ensures (64 + 32 * f20 + 16 * f10 + low) / 64 == 1
    ensures ((64 + 32 * f20 + 16 * f10 + low) / 32) % 2 == f20
    ensures ((64 + 32 * f20 + 16 * f10 + low) / 16) % 2 == f10
    ensures (64 + 32 * f20 + 16 * f10 + low) % 16 == low
  {
    var b := 64 + 32 * f20 + 16 * f10 + low;
    DivModUnique(b, 64, 1, 32 * f20 + 16 * f10 + low);
    DivModUnique(b, 32, 2 + f20, 16 * f10 + low);
    DivModUnique(2 + f20, 2, 1, f20);
    DivModUnique(b, 16, 4 + 2 * f20 + f10, low);
    DivModUnique(4 + 2 * f20 + f10, 2, 2 + f20, f10);
  }

  /** The month byte: bit 7 set, then the month counted from 1 in BCD. */
  function MonthByte(mon: int): (b: int)
    ensures 0x80 <= b < 0x100
  {
    var m := mon + 1;
    var low := Mask(CMod(m, 10), 4);
    var high := Mask(CDiv(m, 10), 4);
    MonthByteRange(high, low);
    U8(Or(Or(Shl(1, 7), Shl(high, 4)), low))
  }

  lemma MonthByteRange(high: int, low: int)
    requires 0 <= high < 16 && 0 <= low < 16
    ensures 0x80 <= U8(Or(Or(Shl(1, 7), Shl(high, 4)), low))
  {
    var top := Or(Shl(1, 7), Shl(high, 4));
    Pow2Values();
    OrBound(Shl(1, 7), Shl(high, 4), 8);
    OrBound(top, low, 8);
    U8Small(Or(top, low));
  }

  /** For a month of the year the month byte is bit 7 plus the month
      counted from 1 in BCD. */
  lemma MonthByteDecodes(mon: int)
    requires 0 <= mon < 12
    ensures MonthByte(mon) == 0x80 + BcdByte(mon + 1)
    ensures MonthByte(mon) / 0x80 == 1 && BcdValue(MonthByte(mon) % 0x80) == mon + 1
  {
    var m := mon + 1;
    BcdByteDecodes(m);
    MonthByteValue(mon);
    DivModUnique(MonthByte(mon), 0x80, 1, BcdByte(m));
  }

  lemma MonthByteValue(mon: int)
    requires 0 <= mon < 12
    ensures MonthByte(mon) == 0x80 + 16 * ((mon + 1) / 10) + (mon + 1) % 10
  {
    var m := mon + 1;
    TwoDigits(m);
    var high, low := m / 10, m % 10;
    MonthByteFields(mon, high, low);
    MonthTop(high);
    JoinNibble(8 + high, low, Or(Shl(1, 7), Shl(high, 4)));
  }

  lemma MonthByteFields(mon: int, high: nat, low: nat)
    requires Mask(CDiv(mon + 1, 10), 4) == high && Mask(CMod(mon + 1, 10), 4) == low
    ensures MonthByte(mon) == U8(Or(Or(Shl(1, 7), Shl(high, 4)), low))
  {
  }

  lemma MonthTop(high: nat)
    requires high < 2
    ensures Or(Shl(1, 7), Shl(high, 4)) == 0x80 + 16 * high
  {
    Pow2Values();
    OrDisjoint(1, 7, Shl(high, 4));
  }

  /** The day-of-week byte, `(uint8_t)(tm_wday + 1)`. */
  function WdayByte(wday: int): (b: int)
    ensures 0 <= b < 0x100
    ensures -1 <= wday < 0xFF ==> b == wday + 1
  {
    U8(wday + 1)
  }

  /** The six bytes `setRTC` writes, in the order it writes them:
      seconds, minutes, hours, day of week, month, year. */
  function RtcBlock(t: Tm): (b: seq<int>)
    ensures |b| == 6 && forall i :: 0 <= i < 6 ==> 0 <= b[i] < 0x100
  {
    [BcdByte(t.sec), BcdByte(t.min), HourByte(t.hour), WdayByte(t.wday),
     MonthByte(t.mon), BcdByte(t.year - 100)]
  }

  /** The 24-hour BCD reading of an hours byte: bit 5 is twenty hours,
      bit 4 ten hours, the low nibble the ones; bits 6 and 7 are not read. */
  function HourValue(b: int): (h: int)
  {
    20 * ((b / 32) % 2) + 10 * ((b / 16) % 2) + b % 16
  }

  /** What the hours byte decodes to for each hour of the day: hour 10
      is sent exactly as midnight, hour 20 as ten, and hours 21 to 23 as
      ten hours too many. */
  lemma HourByteMisencodes(h: int)
    requires 0 <= h < 24
    ensures h == 10 ==> HourByte(h) == HourByte(h - 10)
    ensures HourValue(HourByte(h)) ==
      if h == 10 then 0 else if h == 20 then 10 else if h > 20 then h + 10 else h
  {
    if h == 10 {
      HourTenCollides(h);
    }
    HourByteBits(h);
    if h < 10 {
      DivModUnique(h, 10, 0, h);
    } else if h < 20 {
      DivModUnique(h, 10, 1, h - 10);
    } else {
      DivModUnique(h, 10, 2, h - 20);
    }
  }

  lemma HourTenCollides(h: int)
    requires h == 10
    ensures HourByte(h) == HourByte(h - 10)
  {
    HourByteValue(h);
    HourByteValue(h - 10);
    LowDigit(h);
    LowDigit(h - 10);
  }

  /** The hours byte with its tens digit in BCD (bit 4 for 10..19, bit 5
      for 20..23) and bit 6 set as the source sets it. */
  function HourByte24(h: int): (b: int)
    ensures 0 <= b < 0x100
  {
    var bcd := BcdByte(h);
    Pow2Values();
    OrBound(Shl(1, 6), bcd, 8);
    Or(Shl(1, 6), bcd)
  }

  /** The corrected hours byte decodes back to every hour of the day and
      keeps bit 6 set. */
  lemma HourByte24Decodes(h: int)
    requires 0 <= h < 24
    ensures HourByte24(h) / 64 == 1 && HourValue(HourByte24(h)) == h
  {
    var tens, ones := h / 10, h % 10;
    TwoDigits(h);
    assert tens <= 2;
    BcdByteDecodes(h);
    HourByte24Value(h);
    HourArith24(tens, ones);
    assert HourByte24(h) == 64 + 16 * tens + ones;
  }

  lemma HourByte24Value(h: int)
    requires BcdByte(h) < 64
    ensures HourByte24(h) == 64 + BcdByte(h)
  {
    Pow2Values();
    OrDisjoint(1, 6, BcdByte(h));
  }

  lemma HourArith24(tens: nat, ones: nat)
    requires tens <= 2 && ones < 10
    ensures (64 + 16 * tens + ones) / 64 == 1
    ensures HourValue(64 + 16 * tens + ones) == 10 * tens + ones
  {
    var b := 64 + 16 * tens + ones;
    DivModUnique(b, 64, 1, 16 * tens + ones);
    DivModUnique(b, 16, 4 + tens, ones);
    if tens == 2 {
      DivModUnique(b, 32, 3, ones);
    } else {
      DivModUnique(b, 32, 2, 16 * tens + ones);
    }
  }

  /** The seven clock registers 0x0200..0x0206 in order: seconds,
      minutes, hours, day of week, date, month, year. */
  function ClockBlock(t: Tm): (b: seq<int>)
    ensures |b| == 7 && forall i :: 0 <= i < 7 ==> 0 <= b[i] < 0x100
  {
    [BcdByte(t.sec), BcdByte(t.min), HourByte24(t.hour), WdayByte(t.wday),
     BcdByte(t.mday), MonthByte(t.mon), BcdByte(t.year - 100)]
  }

  /** The 24-hour BCD reading of a seven-byte clock block: BCD fields,
      the days of the week counted from 1, bit 7 of the month byte taken
      as the century bit of the years 2000..2099. */
  function ClockTime(b: seq<int>): (t: Tm)
    requires |b| == 7
  {
    Tm(BcdValue(b[0]), BcdValue(b[1]), HourValue(b[2]), BcdValue(b[4]),
       BcdValue(b[5] % 0x80) - 1, 100 + BcdValue(b[6]), b[3] - 1)
  }

  /** The clock block round-trips: its 24-hour BCD reading is exactly the
      time that was encoded, and the century bit is set. */
  lemma ClockBlockDecodes(t: Tm)
    requires InRange(t)
    ensures ClockTime(ClockBlock(t)) == t
    ensures ClockBlock(t)[5] / 0x80 == 1
  {
    ClockMinutesDecode(t);
    ClockHoursDecode(t);
    ClockDateDecode(t);
    ClockYearDecode(t);
  }

  lemma ClockMinutesDecode(t: Tm)
    requires InRange(t)
    ensures BcdValue(ClockBlock(t)[0]) == t.sec && BcdValue(ClockBlock(t)[1]) == t.min
  {
    BcdByteDecodes(t.sec);
    BcdByteDecodes(t.min);
  }

  lemma ClockHoursDecode(t: Tm)
    requires InRange(t)
    ensures HourValue(ClockBlock(t)[2]) == t.hour && ClockBlock(t)[3] == t.wday + 1
  {
    HourByte24Decodes(t.hour);
  }

  lemma ClockDateDecode(t: Tm)
    requires InRange(t)
    ensures BcdValue(ClockBlock(t)[4]) == t.mday
    ensures ClockBlock(t)[5] / 0x80 == 1 && BcdValue(ClockBlock(t)[5] % 0x80) == t.mon + 1
  {
    BcdByteDecodes(t.mday);
    MonthByteDecodes(t.mon);
  }

  lemma ClockYearDecode(t: Tm)
    requires InRange(t)
    ensures BcdValue(ClockBlock(t)[6]) == t.year - 100
  {
    BcdByteDecodes(t.year - 100);
  }

  /** `BCDSeconds`: despite its name, the seconds within the minute in
      plain binary, `time % 60` truncated toward zero and cast to
      `uint8_t`; a negative time gives a negative remainder that wraps. */
  function BcdSeconds(time: int): (r: int)
    ensures 0 <= r < 0x100
    ensures time >= 0 ==> r < 60 && r == time % 60
    ensures time < 0 ==> r == (if (-time) % 60 == 0 then 0 else 0x100 - (-time) % 60)
    ensures time < 0 ==> r == 0 || 196 < r
  {
    var m := CMod(time, 60);
    NegativeWrap(time, m);
    U8(m)
  }

  /** A negative C remainder by 60 wraps around 256 in a `uint8_t`. */
  lemma NegativeWrap(time: int, m: int)
    requires m == CMod(time, 60)
    ensures time < 0 ==> U8(m) == (if (-time) % 60 == 0 then 0 else 0x100 - (-time) % 60)
  {
    if time < 0 {
      var k := (-time) % 60;
      assert m == -k;
      if k == 0 {
        DivModUnique(0, 0x100, 0, 0);
      } else {
        DivModUnique(-k, 0x100, -1, 0x100 - k);
      }
    }
  }

  /** `BCDSeconds` agrees with the BCD encoding of the seconds exactly in
      the first ten seconds of each minute. */
  lemma BcdSecondsIsBinary(time: int)
    requires time >= 0
    ensures BcdSeconds(time) == BcdByte(time % 60) <==> time % 60 < 10
  {
    var v := time % 60;
    assert BcdSeconds(time) == v;
    BcdByteDecodes(v);
    TensClear(v);
  }

  lemma TensClear(v: int)
    requires 0 <= v < 100
    ensures 16 * (v / 10) + v % 10 == v <==> v < 10
  {
    assert v == 10 * (v / 10) + v % 10;
  }
}
