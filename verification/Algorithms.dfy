/** `roundToPowerOfTwo`: rounding up by smearing the highest bit over all lower ones. */
module Algorithms {

  function Pow2(k: nat): (p: int)
    ensures p > 0
  {
    if k == 0 then 1 else 2 * Pow2(k - 1)
  }

  /** Bit `i` of the two's complement of `x`. */
  predicate Bit(x: int, i: nat)
    decreases i
  {
    if i == 0 then x % 2 == 1 else Bit(x / 2, i - 1)
  }

  /** `a | b` on two's complement. */
  function Or(a: int, b: int): int
    decreases (if a < 0 then -a else a) + (if b < 0 then -b else b)
  {
    if -1 <= a <= 0 && -1 <= b <= 0 then (if a == 0 && b == 0 then 0 else -1)
    else 2 * Or(a / 2, b / 2) + (if a % 2 == 1 || b % 2 == 1 then 1 else 0)
  }

  /** The arithmetic shift `x >> n`. */
  function ShiftRight(x: int, n: nat): int
    decreases n
  {
    if n == 0 then x else ShiftRight(x / 2, n - 1)
  }

  /** The value of a 32-bit two's complement integer. */
  function Wrap32(x: int): int {
    (x + 0x8000_0000) % 0x1_0000_0000 - 0x8000_0000
  }

  function SmearStep(v: int, n: nat): int {
    Or(v, ShiftRight(v, n))
  }

  /** The steps with distances `n`, `2 n`, ... up to 16. */
  function Smear(v: int, n: nat): int
    requires n > 0
    decreases 32 - n, v
  {
    if n > 16 then v else Smear(SmearStep(v, n), 2 * n)
  }

  function Rounded(v: int): int {
    Wrap32(Smear(v - 1, 1) + 1)
  }

  method RoundToPowerOfTwo(v: int) returns (r: int)
    requires -0x8000_0000 < v < 0x8000_0000
    ensures r == Rounded(v)
  {
    r := v - 1;
    ghost var e := Smear(r, 1);
    r := Or(r, ShiftRight(r, 1));
    assert e == Smear(r, 2);
    r := Or(r, ShiftRight(r, 2));
    assert e == Smear(r, 4);
    r := Or(r, ShiftRight(r, 4));
    assert e == Smear(r, 8);
    r := Or(r, ShiftRight(r, 8));
    assert e == Smear(r, 16);
    r := Or(r, ShiftRight(r, 16));
    r := Wrap32(r + 1);
  }

  // ----- bits -----

  lemma {:induction false} OrBit(a: int, b: int, i: nat)
    ensures Bit(Or(a, b), i) <==> Bit(a, i) || Bit(b, i)
    decreases i
  {
    if -1 <= a <= 0 && -1 <= b <= 0 {
      SignBits(a, i);
      SignBits(b, i);
      SignBits(Or(a, b), i);
    } else if i > 0 {
      OrBit(a / 2, b / 2, i - 1);
    }
  }

  lemma {:induction false} SignBits(a: int, i: nat)
    requires -1 <= a <= 0
    ensures Bit(a, i) <==> a == -1
  {
    if i > 0 {
      SignBits(a, i - 1);
    }
  }

  lemma {:induction false} ShiftBit(x: int, n: nat, i: nat)
    ensures Bit(ShiftRight(x, n), i) <==> Bit(x, i + n)
    decreases n
  {
    if n > 0 {
      ShiftBit(x / 2, n - 1, i);
    }
  }

  lemma {:induction false} OrSign(a: int, b: int)
    ensures Or(a, b) < 0 <==> a < 0 || b < 0
    decreases (if a < 0 then -a else a) + (if b < 0 then -b else b)
  {
    if !(-1 <= a <= 0 && -1 <= b <= 0) {
      OrSign(a / 2, b / 2);
    }
  }

  ghost predicate IsTopBit(x: int, k: nat) {
    Bit(x, k) && forall i: nat :: i > k ==> !Bit(x, i)
  }

  lemma {:induction false} HighestBit(x: int) returns (k: nat)
    requires x > 0
    ensures Pow2(k) <= x < Pow2(k + 1)
    ensures IsTopBit(x, k)
  {
    if x == 1 {
      k := 0;
      forall i: nat | i > 0 ensures !Bit(x, i) {
        SignBits(0, i - 1);
      }
    } else {
      var j := HighestBit(x / 2);
      k := j + 1;
      forall i: nat | i > k ensures !Bit(x, i) {
        assert !Bit(x / 2, i - 1);
      }
    }
  }

  /** `x` has no bit above `k`, and its bits in `(k - m, k]` are ones. */
  ghost predicate TopOnes(x: int, k: nat, m: nat) {
    forall i: nat :: (i > k ==> !Bit(x, i)) && (k < i + m && i <= k ==> Bit(x, i))
  }

  /** One smearing step doubles the run of ones. */
  lemma SmearStepDoubles(x: int, k: nat, m: nat)
    requires TopOnes(x, k, m)
    ensures TopOnes(SmearStep(x, m), k, 2 * m)
  {
    forall i: nat
      ensures (i > k ==> !Bit(SmearStep(x, m), i))
           && (k < i + 2 * m && i <= k ==> Bit(SmearStep(x, m), i))
    {
      OrBit(x, ShiftRight(x, m), i);
      ShiftBit(x, m, i);
    }
  }

  lemma {:induction false} OnesValue(x: int, n: nat)
    requires x >= 0
    requires forall i: nat :: Bit(x, i) <==> i < n
    ensures x == Pow2(n) - 1
    decreases n
  {
    if n == 0 {
      if x > 0 {
        var k := HighestBit(x);
        assert false;
      }
    } else {
      assert Bit(x, 0);
      forall i: nat ensures Bit(x / 2, i) <==> i < n - 1 {
        assert Bit(x, i + 1) == Bit(x / 2, i);
      }
      OnesValue(x / 2, n - 1);
    }
  }

  /** Smearing fills every bit below the highest one. */
  lemma SmearFills(x: int, k: nat)
    requires x > 0 && k <= 30
    requires IsTopBit(x, k)
    ensures Smear(x, 1) == Pow2(k + 1) - 1
  {
    SmearDoubles(x, k, 1);
    SmearSign(x, 1);
    OnesValue(Smear(x, 1), k + 1);
  }

  lemma {:induction false} SmearDoubles(x: int, k: nat, n: nat)
    requires n == 1 || n == 2 || n == 4 || n == 8 || n == 16 || n == 32
    requires TopOnes(x, k, n)
    ensures TopOnes(Smear(x, n), k, 32)
    decreases 32 - n
  {
    if n <= 16 {
      SmearStepDoubles(x, k, n);
      SmearDoubles(SmearStep(x, n), k, 2 * n);
    }
  }

  lemma {:induction false} SmearSign(x: int, n: nat)
    requires n > 0
    ensures Smear(x, n) < 0 <==> x < 0
    decreases 32 - n
  {
    if n <= 16 {
      StepSign(x, n);
      SmearSign(SmearStep(x, n), 2 * n);
    }
  }

  lemma StepSign(x: int, n: nat)
    ensures SmearStep(x, n) < 0 <==> x < 0
  {
    ShiftSign(x, n);
    OrSign(x, ShiftRight(x, n));
  }

  lemma {:induction false} ShiftSign(x: int, n: nat)
    ensures ShiftRight(x, n) < 0 <==> x < 0
    decreases n
  {
    if n > 0 {
      ShiftSign(x / 2, n - 1);
    }
  }

  // ----- main results -----

  ghost predicate IsPowerOfTwo(p: int) {
    exists k: nat :: p == Pow2(k)
  }

  lemma {:induction false} Pow2Grows(j: nat, k: nat)
    requires j <= k
    ensures Pow2(j) <= Pow2(k)
  {
    if j < k {
      Pow2Grows(j, k - 1);
    }
  }

  lemma Pow2At30()
    ensures Pow2(30) == 0x4000_0000 && Pow2(31) == 0x8000_0000
  {
    assert Pow2(5) == 32;
    assert Pow2(10) == 1024;
    assert Pow2(15) == 32768;
    assert Pow2(20) == 0x10_0000;
    assert Pow2(25) == 0x200_0000;
  }

  /** The result for positive arguments, by the highest bit of `v - 1`. */
  lemma RoundedValue(v: int) returns (k: nat)
    requires 1 < v < 0x8000_0000
    ensures k <= 30 && Pow2(k) < v <= Pow2(k + 1)
    ensures Rounded(v) == Wrap32(Pow2(k + 1))
  {
    k := HighestBitOf31(v - 1);
    SmearFills(v - 1, k);
    RoundedFrom(v, Pow2(k + 1));
  }

  lemma RoundedFrom(v: int, p: int)
    requires Smear(v - 1, 1) == p - 1
    ensures Rounded(v) == Wrap32(p)
  {
  }

  lemma HighestBitOf31(x: int) returns (k: nat)
    requires 0 < x < 0x8000_0000
    ensures k <= 30 && Pow2(k) <= x < Pow2(k + 1)
    ensures IsTopBit(x, k)
  {
    k := HighestBit(x);
    Pow2At30();
    if k > 30 {
      Pow2Grows(31, k);
    }
  }

  lemma {:induction false} SmearZero(x: int, n: nat)
    requires x == 0 && n > 0
    ensures Smear(x, n) == 0
    decreases 32 - n
  {
    if n <= 16 {
      ShiftZero(x, n);
      SmearZero(SmearStep(x, n), 2 * n);
    }
  }

  lemma {:induction false} ShiftZero(x: int, n: nat)
    requires x == 0
    ensures ShiftRight(x, n) == 0
    decreases n
  {
    if n > 0 {
      ShiftZero(x / 2, n - 1);
    }
  }

  /** The rounded value wraps around exactly when it is 2^31. */
  lemma WrappedPower(v: int, k: nat, r: int)
    requires k <= 30 && Pow2(k) < v <= Pow2(k + 1)
    requires r == Wrap32(Pow2(k + 1))
    ensures v <= 0x4000_0000 ==> r == Pow2(k + 1) && v <= r < 2 * v
    ensures v > 0x4000_0000 ==> r == -0x8000_0000
  {
    Pow2At30();
    if k < 30 {
      Pow2Grows(k + 1, 30);
    }
  }

  /** `r` is the least power of two that is at least `v`. */
  ghost predicate IsLeastPower(v: int, r: int) {
    && IsPowerOfTwo(r) && v <= r < 2 * v
    && forall j: nat :: v <= Pow2(j) ==> r <= Pow2(j)
  }

  lemma LeastAbove(v: int, k: nat, r: int)
    requires v <= 0x4000_0000
    requires k <= 30 && Pow2(k) < v <= Pow2(k + 1)
    requires r == Wrap32(Pow2(k + 1))
    ensures IsLeastPower(v, r)
  {
    WrappedPower(v, k, r);
    forall j: nat | v <= Pow2(j) ensures r <= Pow2(j) {
      if j <= k {
        Pow2Grows(j, k);
      } else {
        Pow2Grows(k + 1, j);
      }
    }
  }

  lemma LeastAboveOne(r: int)
    requires r == 1
    ensures IsLeastPower(1, r)
  {
    assert r == Pow2(0);
  }

  /** For 1 <= v <= 2^30 the result is the least power of two that is at least `v`. */
  lemma RoundedIsLeast(v: int)
    requires 1 <= v <= 0x4000_0000
    ensures IsLeastPower(v, Rounded(v))
  {
    if v == 1 {
      SmearZero(v - 1, 1);
      LeastAboveOne(Rounded(v));
    } else {
      var k := RoundedValue(v);
      LeastAbove(v, k, Rounded(v));
    }
  }

  lemma NotAPower(r: int)
    requires r <= 0
    ensures !IsPowerOfTwo(r)
  {
  }

  /** Over the whole argument range the result is a power of two that is large enough exactly for
      1 <= v <= 2^30: below it is 0, above it wraps around to the least integer. */
  lemma RoundedIsRightExactly(v: int)
    requires -0x8000_0000 < v < 0x8000_0000
    ensures IsPowerOfTwo(Rounded(v)) && v <= Rounded(v) <==> 1 <= v <= 0x4000_0000
    ensures v <= 0 ==> Rounded(v) == 0
    ensures v > 0x4000_0000 ==> Rounded(v) == -0x8000_0000
  {
    if 1 <= v <= 0x4000_0000 {
      RoundedIsLeast(v);
    } else {
      if v <= 0 {
        NegativeSmear(v - 1);
      } else {
        var k := RoundedValue(v);
        WrappedPower(v, k, Rounded(v));
      }
      NotAPower(Rounded(v));
    }
  }

  /** From bit `32 - m` on, all bits are ones. */
  ghost predicate HighOnes(x: int, m: nat) {
    forall i: nat :: i + m >= 32 ==> Bit(x, i)
  }

  lemma SmearStepDoublesHigh(x: int, m: nat)
    requires HighOnes(x, m)
    ensures HighOnes(SmearStep(x, m), 2 * m)
  {
    forall i: nat | i + 2 * m >= 32 ensures Bit(SmearStep(x, m), i) {
      OrBit(x, ShiftRight(x, m), i);
      ShiftBit(x, m, i);
    }
  }

  lemma {:induction false} NegativeBits(x: int, n: nat, i: nat)
    requires -Pow2(n) <= x < 0 && i >= n
    ensures Bit(x, i)
    decreases n
  {
    if n == 0 {
      SignBits(x, i);
    } else {
      NegativeBits(x / 2, n - 1, i - 1);
    }
  }

  lemma {:induction false} AllOnes(x: int)
    requires x < 0 && forall i: nat :: Bit(x, i)
    ensures x == -1
    decreases -x
  {
    assert Bit(x, 0);
    forall i: nat ensures Bit(x / 2, i) {
      assert Bit(x, i + 1);
    }
    if x < -1 {
      AllOnes(x / 2);
    }
  }

  lemma {:induction false} SmearDoublesHigh(x: int, n: nat)
    requires n == 1 || n == 2 || n == 4 || n == 8 || n == 16 || n == 32
    requires HighOnes(x, n)
    ensures HighOnes(Smear(x, n), 32)
    decreases 32 - n
  {
    if n <= 16 {
      SmearStepDoublesHigh(x, n);
      SmearDoublesHigh(SmearStep(x, n), 2 * n);
    }
  }

  lemma NegativeSmear(x: int)
    requires -0x8000_0000 <= x < 0
    ensures Smear(x, 1) == -1
  {
    Pow2At30();
    forall i: nat | i + 1 >= 32 ensures Bit(x, i) {
      NegativeBits(x, 31, i);
    }
    SmearDoublesHigh(x, 1);
    SmearSign(x, 1);
    AllOnes(Smear(x, 1));
  }
}
