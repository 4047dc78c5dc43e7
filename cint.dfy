/** The C integer operators the driver uses, written out for Dafny's
    unbounded integers. Shifts and masks follow two's-complement semantics
    with an arithmetic right shift; `/` and `%` on `int` truncate toward
    zero as in C, while Dafny's own are Euclidean. */
module CInt {

  /** The unsigned C types of the driver's parameters. */
  type Uint8 = x: int | 0 <= x < 0x100
  type Uint16 = x: int | 0 <= x < 0x1_0000

  /** 2^k. */
  function Pow2(k: nat): (p: nat)
    ensures p >= 1
    ensures k > 0 ==> p % 2 == 0
  {
    if k == 0 then 1 else 2 * Pow2(k - 1)
  }

  /** Masking a value that already fits leaves it alone. */
  lemma MaskSmall(x: int, k: nat)
    requires 0 <= x < Pow2(k)
    ensures Mask(x, k) == x
  {
    DivModUnique(x, Pow2(k), 0, x);
  }

  lemma U8Small(x: int)
    requires 0 <= x < 0x100
    ensures U8(x) == x
  {
    DivModUnique(x, 0x100, 0, x);
  }

  lemma U16Small(x: int)
    requires 0 <= x < 0x1_0000
    ensures U16(x) == x
  {
    DivModUnique(x, 0x1_0000, 0, x);
  }

  /** The low 16 bits of x are its low byte and, above it, the low byte
      of x / 256. */
  lemma ByteSplit(x: int)
    ensures x % 0x1_0000 == x % 0x100 + 0x100 * ((x / 0x100) % 0x100)
  {
    var q := x / 0x100;
    assert x == 0x100 * q + x % 0x100;
    assert q == 0x100 * (q / 0x100) + q % 0x100;
    DivModUnique(x, 0x1_0000, q / 0x100, x % 0x100 + 0x100 * (q % 0x100));
  }

  /** The powers of two the driver's masks and shifts use. */
  lemma Pow2Values()
    ensures Pow2(1) == 2 && Pow2(2) == 4 && Pow2(4) == 16 && Pow2(5) == 32
    ensures Pow2(6) == 64 && Pow2(7) == 128 && Pow2(8) == 256
  {
  }

  /** A high and a low nibble OR-ed together form one byte, from which
      division and remainder by 16 give them back. */
  lemma Nibbles(high: nat, low: nat)
    requires high < 16 && low < 16
    ensures Or(Shl(high, 4), low) == 16 * high + low
    ensures (16 * high + low) / 16 == high && (16 * high + low) % 16 == low
  {
    Pow2Values();
    OrDisjoint(high, 4, low);
    DivModUnique(16 * high + low, 16, high, low);
  }

  /** A byte assembled as `top | low` from a high part with its low
      nibble clear and a low nibble. */
  lemma JoinNibble(high: nat, low: nat, top: nat)
    requires high < 16 && low < 16 && top == 16 * high
    ensures U8(Or(top, low)) == top + low
  {
    assert Shl(high, 4) == top by { Pow2Values(); }
    OrDisjoint(high, 4, low);
    U8Small(top + low);
  }

  /** `x & (2^k - 1)`: on a two's-complement integer this keeps the k low
      bits, whatever the sign of x. */
  function Mask(x: int, k: nat): (r: int)
    ensures 0 <= r < Pow2(k)
  {
    x % Pow2(k)
  }

  /** `(uint8_t)x` and `(uint16_t)x`: conversion to an unsigned type keeps
      the low 8 or 16 bits. */
  function U8(x: int): (r: int)
    ensures 0 <= r < 0x100
  {
    x % 0x100
  }

  function U16(x: int): (r: int)
    ensures 0 <= r < 0x1_0000
  {
    x % 0x1_0000
  }

  /** `x >> k` on a signed integer with arithmetic shift: k halvings,
      each rounding toward minus infinity. */
  function Shr(x: int, k: nat): (r: int)
  {
    if k == 0 then x else Shr(x, k - 1) / 2
  }

  /** `x << k`, for the non-negative values the driver shifts. */
  function Shl(x: nat, k: nat): (r: nat)
  {
    x * Pow2(k)
  }

  /** Bitwise `|` on non-negative integers, bit by bit from the least
      significant end. */
  function Or(a: nat, b: nat): (r: nat)
    ensures a <= r && b <= r && r <= a + b
    decreases a + b
  {
    if a == 0 then b
    else if b == 0 then a
    else 2 * Or(a / 2, b / 2) + (if a % 2 == 1 || b % 2 == 1 then 1 else 0)
  }

  /** C's `a / d` for a positive divisor: the quotient truncated toward
      zero, so that the remainder takes the sign of a. */
  function CDiv(a: int, d: int): (q: int)
    requires d > 0
    ensures a >= 0 ==> 0 <= a - q * d < d
    ensures a < 0 ==> -d < a - q * d <= 0
  {
    if a >= 0 then a / d else -((-a) / d)
  }

  /** C's `a % d` for a positive divisor. */
  function CMod(a: int, d: int): (r: int)
    requires d > 0
    ensures a == d * CDiv(a, d) + r
    ensures a >= 0 ==> r == a % d
    ensures a < 0 ==> -d < r <= 0 && r == -((-a) % d)
  {
    var q := CDiv(a, d);
    assert a >= 0 ==> q == a / d;
    a - d * q
  }

  /** Euclidean division is unique: any quotient and in-range remainder
      that rebuild x are Dafny's. */
  lemma DivModUnique(x: int, d: int, q: int, r: int)
    requires d > 0 && 0 <= r < d && x == q * d + r
    ensures x / d == q && x % d == r
  {
    var q0, r0 := x / d, x % d;
    assert (q - q0) * d == r0 - r;
    if q > q0 {
      MulAtLeast(q - q0, d);
    } else if q < q0 {
      MulAtLeast(q0 - q, d);
    }
  }

  lemma MulAtLeast(a: int, d: int)
    requires a >= 1 && d > 0
    ensures a * d >= d
  {
    assert a * d == (a - 1) * d + d;
  }

  /** One more halving of x / p is division by 2p. */
  lemma DivHalf(x: int, p: int)
    requires p > 0
    ensures (x / p) / 2 == x / (2 * p)
    ensures x % (2 * p) == x % p + ((x / p) % 2) * p
  {
    var q, r := x / p, x % p;
    var q2, t := q / 2, q % 2;
    assert x == q2 * (2 * p) + (t * p + r) by {
      assert q == 2 * q2 + t;
      assert x == q * p + r;
      assert q * p == q2 * (2 * p) + t * p;
    }
    assert 0 <= t * p + r < 2 * p by {
      assert t == 0 || t == 1;
    }
    DivModUnique(x, 2 * p, q2, t * p + r);
  }

  /** The arithmetic shift is floor division by a power of two. */
  lemma {:induction false} ShrIsDiv(x: int, k: nat)
    ensures Shr(x, k) == x / Pow2(k)
  {
    if k > 0 {
      ShrIsDiv(x, k - 1);
      DivHalf(x, Pow2(k - 1));
    }
  }

  lemma {:induction false} OrComm(a: nat, b: nat)
    ensures Or(a, b) == Or(b, a)
    decreases a + b
  {
    if a != 0 && b != 0 {
      OrComm(a / 2, b / 2);
    }
  }

  /** OR-ing a value into bits that are all zero is addition: the source
      assembles bytes and addresses this way. */
  lemma {:induction false} OrDisjoint(a: nat, k: nat, b: nat)
    requires b < Pow2(k)
    ensures Or(Shl(a, k), b) == Shl(a, k) + b
  {
    var x := Shl(a, k);
    if k == 0 {
      assert b == 0;
    } else if x != 0 && b != 0 {
      var h := Shl(a, k - 1);
      assert x == 2 * h by {
        assert Pow2(k) == 2 * Pow2(k - 1);
        assert a * Pow2(k) == 2 * (a * Pow2(k - 1));
      }
      assert x / 2 == h && x % 2 == 0;
      OrDisjoint(a, k - 1, b / 2);
    }
  }

  /** OR-ing two values below 2^k stays below 2^k. */
  lemma {:induction false} OrBound(a: nat, b: nat, k: nat)
    requires a < Pow2(k) && b < Pow2(k)
    ensures Or(a, b) < Pow2(k)
  {
    if k > 0 && a != 0 && b != 0 {
      OrBound(a / 2, b / 2, k - 1);
    }
  }

  /** Two distinct single-bit values never collide, so OR-ing them adds. */
  lemma OrDistinctBits(j: nat, k: nat)
    requires j != k
    ensures Or(Pow2(j), Pow2(k)) == Pow2(j) + Pow2(k)
  {
    if j < k {
      OrHigherBit(j, k);
      OrComm(Pow2(j), Pow2(k));
    } else {
      OrHigherBit(k, j);
    }
  }

  lemma OrHigherBit(j: nat, k: nat)
    requires j < k
    ensures Or(Pow2(k), Pow2(j)) == Pow2(k) + Pow2(j)
  {
    PowMonotone(j, k);
    OrDisjoint(1, k, Pow2(j));
    assert Shl(1, k) == Pow2(k);
  }

  lemma {:induction false} PowMonotone(j: nat, k: nat)
    requires j < k
    ensures Pow2(j) < Pow2(k)
  {
    if j < k - 1 {
      PowMonotone(j, k - 1);
    }
  }
}
