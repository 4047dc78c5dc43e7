/** The bit-banged 1-Wire link: one bus line that the host pulls low and
    then releases or drives for a fixed time slot. The GPIO calls and the
    microsecond delays of each slot are abstracted into one event of the
    bus trace; what the line shows when the host samples it comes from two
    oracle streams that stand for the device. */
module OneWire {
  import opened CInt

  /** A sampled line level, as `bcm2835_gpio_lev` returns it. */
  type Bit = b: int | 0 <= b <= 1

  const LOW: Bit := 0
  /** With nothing pulling it down the line floats HIGH: no presence pulse
      at a reset, a 1 in a read slot. */
  const HIGH: Bit := 1

  /** One time slot on the bus. */
  datatype Event =
    | ResetSlot             // reset pulse and presence sample
    | WriteSlot(bit: Bit)   // write slot: short low for 1, long low for 0
    | ReadSlot              // read slot: short low, release, sample

  /** The level the line shows at sample i of a stream; past the end of
      the stream it is an idle, pulled-up line. */
  function Level(s: seq<Bit>, i: nat): (b: Bit)
    ensures i < |s| ==> b == s[i]
    ensures |s| <= i ==> b == HIGH
  {
    if i < |s| then s[i] else HIGH
  }

  /** The n levels of samples at, at + 1, ... */
  function Levels(s: seq<Bit>, at: nat, n: nat): (r: seq<Bit>)
    ensures |r| == n
  {
    seq<Bit>(n, i requires 0 <= i => Level(s, at + i))
  }

  /** Bit i of x as the source's `writeByte` finds it: the low bit of x
      after i arithmetic shifts right (`byte & 1`, then `byte >> 1`). */
  function BitOf(x: int, i: nat): (b: Bit)
  {
    Mask(Shr(x, i), 1)
  }

  /** The n low bits of x, least significant first. */
  function BitsOf(x: int, n: nat): (s: seq<Bit>)
    ensures |s| == n
  {
    seq(n, i requires 0 <= i => BitOf(x, i))
  }

  /** The value of a bit sequence read least significant bit first: the
      byte `readByte` assembles from its samples. */
  function FromBits(s: seq<Bit>): (v: nat)
    ensures v < Pow2(|s|)
  {
    if s == [] then 0 else FromBits(s[..|s| - 1]) + s[|s| - 1] * Pow2(|s| - 1)
  }

  /** The slots `writeByte(x)` produces. */
  function ByteSlots(x: int): (t: seq<Event>)
  {
    seq(8, i requires 0 <= i => WriteSlot(BitOf(x, i)))
  }

  /** The slots of a run of `writeByte` calls. */
  function Bytes(xs: seq<int>): (t: seq<Event>)
  {
    if xs == [] then [] else ByteSlots(xs[0]) + Bytes(xs[1..])
  }

  /** n read slots. */
  function ReadSlots(n: nat): (t: seq<Event>)
    ensures |t| == n
  {
    seq(n, _ => ReadSlot)
  }

  /** The byte eight read slots assemble from the samples at, ...,
      at + 7 of a stream. */
  function ByteAt(s: seq<Bit>, at: nat): (v: nat)
    ensures v < 0x100
  {
    FromBits(Levels(s, at, 8))
  }

  /** The bits carried by the write slots of a trace, in order. */
  function Emitted(t: seq<Event>): (s: seq<Bit>)
  {
    if t == [] then []
    else (if t[0].WriteSlot? then [t[0].bit] else []) + Emitted(t[1..])
  }

  /** The sample stream of a device that sends the given bytes. */
  function BitStream(xs: seq<int>): (s: seq<Bit>)
    ensures |s| == 8 * |xs|
  {
    if xs == [] then [] else BitsOf(xs[0], 8) + BitStream(xs[1..])
  }

  /** The bus line, as the driver sees it through the GPIO calls. The
      device is two fixed streams of levels, one for the presence samples
      and one for the read-slot samples, and the line keeps count of how
      many of each have been taken. */
  class Bus {
    /** Every slot issued so far, in order. */
    var trace: seq<Event>
    /** The level the line shows at each presence sample, in order. */
    const presence: seq<Bit>
    /** The level the line shows at each read-slot sample, in order. */
    const samples: seq<Bit>
    /** Presence samples taken so far. */
    var resetCount: nat
    /** Read-slot samples taken so far. */
    var sampleCount: nat

    constructor (presence: seq<Bit>, samples: seq<Bit>)
      ensures this.presence == presence && this.samples == samples
      ensures trace == [] && resetCount == 0 && sampleCount == 0
    {
      this.presence := presence;
      this.samples := samples;
      trace := [];
      resetCount := 0;
      sampleCount := 0;
    }

    /** `writeBit`: only the value 1 selects the short low pulse; every
        other value is sent as 0. */
    method WriteBit(b: int)
      modifies this`trace
      ensures trace == old(trace) + [WriteSlot(if b == 1 then HIGH else LOW)]
      ensures resetCount == old(resetCount) && sampleCount == old(sampleCount)
    {
      if b == 1 {
        trace := trace + [WriteSlot(HIGH)];
      } else {
        trace := trace + [WriteSlot(LOW)];
      }
    }

    /** `writeByte`: eight write slots, least significant bit first. */
    method WriteByte(x: int)
      modifies this`trace
      ensures trace == old(trace) + ByteSlots(x)
      ensures resetCount == old(resetCount) && sampleCount == old(sampleCount)
    {
      var v := x;
      var i := 0;
      while i < 8
        invariant 0 <= i <= 8
        invariant v == Shr(x, i)
        invariant trace == old(trace) + ByteSlots(x)[..i]
      {
        if Mask(v, 1) != 0 {
          WriteBit(1);
        } else {
          WriteBit(0);
        }
        assert ByteSlots(x)[..i + 1] == ByteSlots(x)[..i] + [WriteSlot(BitOf(x, i))];
        assert Shr(v, 1) == Shr(x, i + 1) by {
          assert Shr(v, 0) == v;
        }
        v := Shr(v, 1);
        i := i + 1;
      }
    }

    /** `readBit`: one read slot and the level sampled in it. */
    method ReadBit() returns (b: Bit)
      modifies this`trace, this`sampleCount
      ensures b == Level(samples, old(sampleCount)) && sampleCount == old(sampleCount) + 1
      ensures resetCount == old(resetCount)
      ensures trace == old(trace) + [ReadSlot]
    {
      b := Level(samples, sampleCount);
      sampleCount := sampleCount + 1;
      trace := trace + [ReadSlot];
    }

    /** `readByte`: eight read slots, the i-th sample OR-ed in at bit i. */
    method ReadByte() returns (r: int)
      modifies this`trace, this`sampleCount
      ensures r == ByteAt(samples, old(sampleCount)) && 0 <= r < 0x100
      ensures sampleCount == old(sampleCount) + 8 && resetCount == old(resetCount)
      ensures trace == old(trace) + ReadSlots(8)
    {
      ghost var at := sampleCount;
      r := 0;
      var i := 0;
      while i < 8
        invariant 0 <= i <= 8
        invariant sampleCount == at + i
        invariant r == FromBits(Levels(samples, at, i))
        invariant trace == old(trace) + ReadSlots(i)
      {
        var b := ReadBit();
        LevelsSnoc(samples, at, i);
        ReadSlotsAdd(i, 1);
        OrDisjoint(b, i, r);
        OrComm(Shl(b, i), r);
        r := Or(r, Shl(b, i));
        i := i + 1;
      }
    }

    /** `reset`: the reset pulse and the level sampled after it; LOW is a
        presence pulse, HIGH means no device answered. */
    method Reset() returns (level: Bit)
      modifies this`trace, this`resetCount
      ensures level == Level(presence, old(resetCount)) && resetCount == old(resetCount) + 1
      ensures sampleCount == old(sampleCount)
      ensures trace == old(trace) + [ResetSlot]
    {
      level := Level(presence, resetCount);
      resetCount := resetCount + 1;
      trace := trace + [ResetSlot];
    }
  }

  /** Decoding the n low bits of x gives back x modulo 2^n. */
  lemma {:induction false} FromBitsOfBits(x: int, n: nat)
    ensures FromBits(BitsOf(x, n)) == Mask(x, n)
  {
    if n > 0 {
      assert BitsOf(x, n)[..n - 1] == BitsOf(x, n - 1);
      FromBitsOfBits(x, n - 1);
      ShrIsDiv(x, n - 1);
      DivHalf(x, Pow2(n - 1));
    }
  }

  /** Bit sequences of one length with one value are the same sequence. */
  lemma {:induction false} FromBitsInjective(s: seq<Bit>, t: seq<Bit>)
    requires |s| == |t| && FromBits(s) == FromBits(t)
    ensures s == t
  {
    if s != [] {
      var n := |s| - 1;
      assert FromBits(s) == FromBits(s[..n]) + s[n] * Pow2(n);
      assert FromBits(t) == FromBits(t[..n]) + t[n] * Pow2(n);
      assert s[n] == t[n];
      FromBitsInjective(s[..n], t[..n]);
      assert s == s[..n] + [s[n]] && t == t[..n] + [t[n]];
    }
  }

  /** `writeByte` sends bit i of its argument in slot i and nothing of the
      bits above 7: two arguments give the same slots exactly when they
      agree in their low byte. */
  lemma ByteSlotsLowByte(x: int, y: int)
    ensures ByteSlots(x) == ByteSlots(y) <==> Mask(x, 8) == Mask(y, 8)
    ensures |ByteSlots(x)| == 8
    ensures forall i :: 0 <= i < 8 ==> ByteSlots(x)[i] == WriteSlot(BitOf(x, i))
  {
    FromBitsOfBits(x, 8);
    FromBitsOfBits(y, 8);
    if ByteSlots(x) == ByteSlots(y) {
      assert BitsOf(x, 8) == BitsOf(y, 8) by {
        forall i | 0 <= i < 8 ensures BitsOf(x, 8)[i] == BitsOf(y, 8)[i] {
          assert ByteSlots(x)[i] == ByteSlots(y)[i];
        }
      }
    }
    if Mask(x, 8) == Mask(y, 8) {
      FromBitsInjective(BitsOf(x, 8), BitsOf(y, 8));
      forall i | 0 <= i < 8 ensures ByteSlots(x)[i] == ByteSlots(y)[i] {
        assert BitsOf(x, 8)[i] == BitsOf(y, 8)[i];
      }
    }
  }

  /** The slots of consecutive runs of `writeByte` calls follow one
      another. */
  lemma {:induction false} BytesAppend(xs: seq<int>, ys: seq<int>)
    ensures Bytes(xs + ys) == Bytes(xs) + Bytes(ys)
  {
    if xs == [] {
      assert xs + ys == ys;
    } else {
      assert (xs + ys)[1..] == xs[1..] + ys;
      BytesAppend(xs[1..], ys);
    }
  }

  lemma BytesSingle(x: int)
    ensures Bytes([x]) == ByteSlots(x)
  {
    assert [x][1..] == [];
  }

  lemma BytesSnoc(xs: seq<int>, x: int)
    ensures Bytes(xs + [x]) == Bytes(xs) + ByteSlots(x)
  {
    BytesAppend(xs, [x]);
    BytesSingle(x);
  }

  lemma AppendNothing(t: seq<Event>)
    ensures t + [] == t && [] + t == t
  {
  }

  lemma Assoc(a: seq<Event>, b: seq<Event>, c: seq<Event>)
    ensures a + b + c == a + (b + c)
  {
  }

  /** One more sample adds its level at the next bit position. */
  lemma LevelsSnoc(s: seq<Bit>, at: nat, i: nat)
    ensures FromBits(Levels(s, at, i + 1)) == FromBits(Levels(s, at, i)) + Level(s, at + i) * Pow2(i)
  {
    assert Levels(s, at, i + 1)[..i] == Levels(s, at, i);
  }

  lemma ReadSlotsAdd(a: nat, b: nat)
    ensures ReadSlots(a) + ReadSlots(b) == ReadSlots(a + b)
  {
  }

  /** Bit i of the k-th byte of a device's stream. */
  lemma {:induction false} BitStreamAt(xs: seq<int>, k: nat, i: nat)
    requires k < |xs| && i < 8
    ensures BitStream(xs)[8 * k + i] == BitOf(xs[k], i)
  {
    assert BitStream(xs) == BitsOf(xs[0], 8) + BitStream(xs[1..]);
    if k > 0 {
      BitStreamAt(xs[1..], k - 1, i);
    }
  }

  lemma SameLevels(a: seq<Bit>, b: seq<Bit>)
    requires |a| == |b| && forall i :: 0 <= i < |a| ==> a[i] == b[i]
    ensures a == b
  {
  }

  lemma StreamLevel(pre: seq<Bit>, mid: seq<Bit>, rest: seq<Bit>, j: nat)
    requires j < |mid|
    ensures Level(pre + mid + rest, |pre| + j) == mid[j]
  {
  }

  /** A device that sends the bytes xs after whatever came before, and
      whatever follows them, is read back as xs, each byte modulo 256. */
  lemma ByteAtStream(pre: seq<Bit>, xs: seq<int>, rest: seq<Bit>, k: nat)
    requires k < |xs|
    ensures ByteAt(pre + BitStream(xs) + rest, |pre| + 8 * k) == Mask(xs[k], 8)
  {
    LevelsOfStream(pre, xs, rest, k);
    SameLevels(Levels(pre + BitStream(xs) + rest, |pre| + 8 * k, 8), BitsOf(xs[k], 8));
    FromBitsOfBits(xs[k], 8);
  }

  lemma LevelsOfStream(pre: seq<Bit>, xs: seq<int>, rest: seq<Bit>, k: nat)
    requires k < |xs|
    ensures forall i :: 0 <= i < 8 ==>
      Levels(pre + BitStream(xs) + rest, |pre| + 8 * k, 8)[i] == BitsOf(xs[k], 8)[i]
  {
    forall i | 0 <= i < 8
      ensures Levels(pre + BitStream(xs) + rest, |pre| + 8 * k, 8)[i] == BitsOf(xs[k], 8)[i]
    {
      assert 8 * k + i < 8 * |xs|;
      StreamLevel(pre, BitStream(xs), rest, 8 * k + i);
      BitStreamAt(xs, k, i);
    }
  }

  /** Loopback: the bits the write slots of a run of `writeByte` calls
      carry form the stream of a device that sends those bytes back. */
  lemma {:induction false} EmittedBytes(xs: seq<int>)
    ensures Emitted(Bytes(xs)) == BitStream(xs)
  {
    if xs != [] {
      EmittedConcat(ByteSlots(xs[0]), Bytes(xs[1..]));
      EmittedByte(xs[0]);
      EmittedBytes(xs[1..]);
    }
  }

  lemma {:induction false} EmittedConcat(t: seq<Event>, u: seq<Event>)
    ensures Emitted(t + u) == Emitted(t) + Emitted(u)
  {
    if t == [] {
      assert t + u == u;
    } else {
      assert (t + u)[0] == t[0];
      assert (t + u)[1..] == t[1..] + u;
      EmittedConcat(t[1..], u);
    }
  }

  lemma EmittedByte(x: int)
    ensures Emitted(ByteSlots(x)) == BitsOf(x, 8)
  {
    var t := ByteSlots(x);
    assert t[8..] == [];
    assert t[7..][1..] == t[8..];
    assert t[6..][1..] == t[7..];
    assert t[5..][1..] == t[6..];
    assert t[4..][1..] == t[5..];
    assert t[3..][1..] == t[4..];
    assert t[2..][1..] == t[3..];
    assert t[1..][1..] == t[2..];
    assert Emitted(t[7..]) == [BitOf(x, 7)];
    assert Emitted(t[6..]) == [BitOf(x, 6), BitOf(x, 7)];
    assert Emitted(t[5..]) == BitsOf(x, 8)[5..];
    assert Emitted(t[4..]) == BitsOf(x, 8)[4..];
    assert Emitted(t[3..]) == BitsOf(x, 8)[3..];
    assert Emitted(t[2..]) == BitsOf(x, 8)[2..];
    assert Emitted(t[1..]) == BitsOf(x, 8)[1..];
  }
}
