/** Integer conversions shared by the retry loop and the VaR index computation. */
module Numerics {

  /** Go's conversion of a floating-point value to an integer type (`int(x)`, `time.Duration(x)`):
      the fractional part is discarded, rounding toward zero. */
  function TruncateToInt(x: real): (n: int)
    ensures 0.0 <= x ==> n as real <= x < n as real + 1.0
    ensures x < 0.0 ==> n as real - 1.0 < x <= n as real
  {
    if x >= 0.0 then x.Floor else -((-x).Floor)
  }

  /** Truncation toward zero never reverses the order of two values. */
  lemma TruncateMonotone(x: real, y: real)
    requires x <= y
    ensures TruncateToInt(x) <= TruncateToInt(y)
  {
    if 0.0 <= x {
      assert x.Floor <= y.Floor;
    } else if 0.0 <= y {
    } else {
      assert (-y).Floor <= (-x).Floor;
    }
  }

  /** 2^i, that is `1 << i` without the 64-bit overflow. */
  function Pow2(i: nat): (p: nat)
    ensures p >= 1
  {
    if i == 0 then 1 else 2 * Pow2(i - 1)
  }

  lemma {:induction false} Pow2Monotone(i: nat, j: nat)
    requires i <= j
    ensures Pow2(i) <= Pow2(j)
    decreases j - i
  {
    if i < j {
      Pow2Monotone(i, j - 1);
    }
  }

  /** 2^63: Go's 64-bit `int` holds the integers in [-2^63, 2^63). */
  const TwoTo63: int := 0x8000_0000_0000_0000

  /** The 64-bit two's complement value of x: Go's signed integer arithmetic wraps around
      modulo 2^64 into [-2^63, 2^63). */
  function WrapInt64(x: int): (r: int)
    ensures -TwoTo63 <= r < TwoTo63
    ensures (r - x) % (2 * TwoTo63) == 0
  {
    (x + TwoTo63) % (2 * TwoTo63) - TwoTo63
  }

  /** Go's `1 << i` on a 64-bit `int`. A shift by i behaves as i shifts by one, and each
      shift by one doubles the value and wraps it into the 64-bit range. */
  function ShiftLeftOne(i: nat): int
  {
    if i == 0 then 1 else WrapInt64(2 * ShiftLeftOne(i - 1))
  }

  /** The shift is 2^i only while i < 63: at 63 the one bit lands in the sign position and the
      result is -2^63, and from 64 on the bit has been shifted out and the result is zero. */
  lemma ShiftLeftOneOverflow(i: nat)
    ensures i < 63 ==> ShiftLeftOne(i) == Pow2(i) && ShiftLeftOne(i) >= 1
    ensures i == 63 ==> ShiftLeftOne(i) == -TwoTo63
    ensures i > 63 ==> ShiftLeftOne(i) == 0
  {
    if i < 63 {
      ShiftBelow63(i);
    } else {
      ShiftFrom63(i);
    }
  }

  lemma {:induction false} ShiftBelow63(i: nat)
    requires i < 63
    ensures ShiftLeftOne(i) == Pow2(i)
  {
    if i > 0 {
      ShiftBelow63(i - 1);
      Pow2Monotone(i, 62);
      Pow2Of62();
      WrapInRange(2 * Pow2(i - 1));
    }
  }

  lemma {:induction false} ShiftFrom63(i: nat)
    requires i >= 63
    ensures i == 63 ==> ShiftLeftOne(i) == -TwoTo63
    ensures i > 63 ==> ShiftLeftOne(i) == 0
  {
    if i == 63 {
      ShiftBelow63(62);
      Pow2Of62();
      WrapOfTwoTo63();
    } else {
      ShiftFrom63(i - 1);
      if i == 64 {
        WrapOfMinusTwoTo64();
      } else {
        WrapInRange(0);
      }
    }
  }

  /** Wrapping leaves a value already in the 64-bit range unchanged. */
  lemma WrapInRange(x: int)
    requires -TwoTo63 <= x < TwoTo63
    ensures WrapInt64(x) == x
  {
  }

  lemma WrapOfTwoTo63()
    ensures WrapInt64(TwoTo63) == -TwoTo63
  {
  }

  lemma WrapOfMinusTwoTo64()
    ensures WrapInt64(-2 * TwoTo63) == 0
  {
  }

  /** 2^(a+b) = 2^a * 2^b. */
  lemma {:induction false} Pow2Add(a: nat, b: nat)
    ensures Pow2(a + b) == Pow2(a) * Pow2(b)
  {
    if b > 0 {
      Pow2Add(a, b - 1);
      assert Pow2(a + b) == 2 * Pow2(a + b - 1);
    }
  }

  lemma Pow2Of62()
    ensures 2 * Pow2(62) == TwoTo63
  {
    Pow2Of31();
    Pow2Add(31, 31);
  }

  lemma Pow2Of31()
    ensures Pow2(31) == 0x8000_0000
  {
    Pow2Of15();
    Pow2Of16();
    Pow2Add(16, 15);
  }

  lemma Pow2Of16()
    ensures Pow2(16) == 0x1_0000
  {
    assert Pow2(8) == 0x100;
    Pow2Add(8, 8);
  }

  lemma Pow2Of15()
    ensures Pow2(15) == 0x8000
  {
    assert Pow2(8) == 0x100;
    assert Pow2(7) == 0x80;
    Pow2Add(8, 7);
  }
}
