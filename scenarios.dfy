/** The driver's operations called on a fresh bus built from the sample
    streams of a particular device: no device at all, whose line never
    answers a reset, and a DS1921L that answers every reset with a
    presence pulse and echoes its scratchpad as its data sheet says. */
module Scenarios {
  import opened CInt
  import opened OneWire
  import opened Rtc
  import opened DS1921

  /** The stream a compliant device sends for Read Scratchpad after
      `written` bytes were staged at `address`. */
  function EchoStream(address: int, written: int): (s: seq<Bit>)
    ensures |s| == 24
  {
    BitStream(ScratchEcho(address, written))
  }

  lemma EchoVerdict(address: Uint16, length: Uint8, written: int)
    requires 1 <= written && Mask(address, 5) + written <= 32
    ensures Verified(EchoStream(address, written), 0, address, length) <==> length == written
  {
    var s := EchoStream(address, written);
    assert [] + s + [] == s;
    CompliantVerify(address, length, written, [], []);
  }

  /** With no device on the line, a conversion stops at its first reset
      and reports -100. */
  method AbsentConvert() returns (temperature: real, trace: seq<Event>)
    ensures temperature == ABSENT && trace == [ResetSlot]
  {
    var bus := new Bus([], []);
    temperature := OneShotConvert(bus);
    trace := bus.trace;
  }

  /** A device that answers both resets and holds `raw` in its
      temperature register is reported at raw / 2 - 40 degrees. */
  method PresentConvert(raw: Uint8) returns (temperature: real, trace: seq<Event>)
    ensures temperature == Celsius(raw) && -40.0 <= temperature <= 87.5
    ensures trace == ConvertFrame()
  {
    var samples := BitStream([raw]);
    assert [] + samples + [] == samples;
    ByteAtStream([], [raw], [], 0);
    Pow2Values();
    MaskSmall(raw, 8);
    var bus := new Bus([LOW, LOW], samples);
    temperature := OneShotConvert(bus);
    trace := bus.trace;
  }

  /** With no device on the line, `setRTC` stops at its first reset. */
  method AbsentSetRtc(t: Tm) returns (outcome: Outcome, trace: seq<Event>)
    ensures outcome == NoDevice && trace == [ResetSlot]
  {
    var bus := new Bus([], []);
    outcome := SetRTC(bus, t);
    trace := bus.trace;
  }

  /** A compliant device, answering both resets of the run, that staged
      the six bytes `setRTC` writes rejects its length of seven: the clock
      is never committed. */
  method CompliantSetRtc(t: Tm) returns (outcome: Outcome, trace: seq<Event>)
    ensures outcome == NotVerified
    ensures trace == WriteFrame(RTCSECONDS, RtcBlock(t)) + VerifyFrame()
  {
    var staged := |RtcBlock(t)|;
    Pow2Values();
    EchoVerdict(RTCSECONDS, 7, staged);
    var bus := new Bus([LOW, LOW], EchoStream(RTCSECONDS, staged));
    outcome := SetRTC(bus, t);
    trace := bus.trace;
    AppendNothing(trace);
    AppendNothing(WriteFrame(RTCSECONDS, RtcBlock(t)));
  }

  /** The corrected clock update stages seven bytes and commits them, on
      a device that answers its three resets. */
  method CompliantSetClock(t: Tm) returns (outcome: Outcome, trace: seq<Event>)
    ensures outcome == Committed
    ensures trace == WriteFrame(RTCSECONDS, ClockBlock(t)) + VerifyFrame() + CommitFrame(RTCSECONDS, 7)
  {
    var staged := |ClockBlock(t)|;
    Pow2Values();
    EchoVerdict(RTCSECONDS, 7, staged);
    var bus := new Bus([LOW, LOW, LOW], EchoStream(RTCSECONDS, staged));
    outcome := SetClock(bus, t);
    trace := bus.trace;
    AppendNothing(WriteFrame(RTCSECONDS, ClockBlock(t)));
  }

  /** Against a compliant device, answering all five resets, `clearMem`
      commits the clear enable and then clears the memory. */
  method CompliantClearMem() returns (trace: seq<Event>)
    ensures trace == WriteFrame(CONTROLREG, [ENABLECLR]) + VerifyFrame() + CommitFrame(CONTROLREG, 1)
                     + Command([CLEARMEM]) + [ResetSlot]
  {
    Pow2Values();
    EchoVerdict(CONTROLREG, 1, 1);
    var bus := new Bus([LOW, LOW, LOW, LOW, LOW], EchoStream(CONTROLREG, 1));
    ClearMem(bus);
    trace := bus.trace;
    AppendNothing(WriteFrame(CONTROLREG, [ENABLECLR]));
  }

  /** Against a compliant device, answering all four resets,
      `missionStart` commits its six bytes. */
  method CompliantMissionStart(delay: Uint16, creg: Uint8) returns (trace: seq<Event>)
    ensures trace == WriteFrame(CONTROLREG, MissionBytes(delay, creg)) + VerifyFrame()
                     + CommitFrame(CONTROLREG, 6) + [ResetSlot]
  {
    var staged := |MissionBytes(delay, creg)|;
    Pow2Values();
    EchoVerdict(CONTROLREG, 6, staged);
    var bus := new Bus([LOW, LOW, LOW, LOW], EchoStream(CONTROLREG, staged));
    MissionStart(bus, delay, creg);
    trace := bus.trace;
    AppendNothing(WriteFrame(CONTROLREG, MissionBytes(delay, creg)));
  }

  /** A device that answers the three resets of the run but whose
      scratchpad holds any other number of bytes from 0x020E makes
      `missionStart` skip the commit. */
  method MismatchedMissionStart(delay: Uint16, creg: Uint8, written: int) returns (trace: seq<Event>)
    requires 1 <= written <= 18 && written != 6
    ensures trace == WriteFrame(CONTROLREG, MissionBytes(delay, creg)) + VerifyFrame() + [ResetSlot]
  {
    Pow2Values();
    EchoVerdict(CONTROLREG, 6, written);
    var bus := new Bus([LOW, LOW, LOW], EchoStream(CONTROLREG, written));
    MissionStart(bus, delay, creg);
    trace := bus.trace;
    AppendNothing(WriteFrame(CONTROLREG, MissionBytes(delay, creg)) + VerifyFrame());
  }

  /** Loopback: a bus whose read samples are the bits another bus's
      `writeByte(x)` sent reads back the low byte of x. */
  method Loopback(x: int) returns (r: int)
    ensures r == Mask(x, 8)
  {
    var sender := new Bus([], []);
    sender.WriteByte(x);
    EmittedByte(x);
    var bits := Emitted(sender.trace);
    assert sender.trace == ByteSlots(x);
    assert [x][1..] == [];
    assert bits == BitStream([x]) && [] + bits + [] == bits;
    ByteAtStream([], [x], [], 0);
    var receiver := new Bus([], bits);
    r := receiver.ReadByte();
  }
}
