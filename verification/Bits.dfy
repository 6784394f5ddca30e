/** Scaling by powers of two, 64-bit shifts and bitwise operations, all by
    repeated doubling so that every fact about them is linear. */
module Bits {

  const U64_MODULUS: int := 0x1_0000_0000_0000_0000

  type u64 = x: int | 0 <= x < U64_MODULUS
  type i64 = x: int | -0x8000_0000_0000_0000 <= x < 0x8000_0000_0000_0000

  /** `x * 2^n`. */
  function Scale(x: int, n: nat): int {
    if n == 0 then x else 2 * Scale(x, n - 1)
  }

  function Pow2(k: nat): (r: nat)
    ensures r >= 1
  {
    if k == 0 then 1 else 2 * Pow2(k - 1)
  }

  lemma {:induction false} ScaleOne(k: nat)
    ensures Scale(1, k) == Pow2(k)
  {
    if k > 0 {
      ScaleOne(k - 1);
    }
  }

  lemma {:induction false} ScaleAdd(x: int, y: int, n: nat)
    ensures Scale(x + y, n) == Scale(x, n) + Scale(y, n)
  {
    if n > 0 {
      ScaleAdd(x, y, n - 1);
    }
  }

  lemma {:induction false} ScaleNegate(x: int, n: nat)
    ensures Scale(-x, n) == -Scale(x, n)
  {
    if n > 0 {
      ScaleNegate(x, n - 1);
    }
  }

  lemma {:induction false} ScaleScale(x: int, m: nat, n: nat)
    ensures Scale(Scale(x, m), n) == Scale(x, m + n)
  {
    if n > 0 {
      ScaleScale(x, m, n - 1);
    }
  }

  /** Scaling keeps the order and its strictness. */
  lemma {:induction false} ScaleMonotone(x: int, y: int, n: nat)
    requires x <= y
    ensures Scale(x, n) <= Scale(y, n)
    ensures x < y ==> Scale(x, n) < Scale(y, n)
  {
    if n > 0 {
      ScaleMonotone(x, y, n - 1);
    }
  }

  lemma {:induction false} ScaleZero(n: nat)
    ensures Scale(0, n) == 0
  {
    if n > 0 {
      ScaleZero(n - 1);
    }
  }

  lemma {:induction false} Pow2Monotone(a: nat, b: nat)
    requires a <= b
    ensures Pow2(a) <= Pow2(b)
    ensures a < b ==> 2 * Pow2(a) <= Pow2(b)
    decreases b
  {
    if a < b {
      Pow2Monotone(a, b - 1);
    }
  }

  lemma ScaleBy16(x: int, n: nat)
    ensures Scale(x, n + 4) == 16 * Scale(x, n)
  {
    assert Scale(x, n + 2) == 4 * Scale(x, n);
  }

  lemma Pow2Of64()
    ensures Pow2(52) == 0x10_0000_0000_0000
    ensures Pow2(63) == 0x8000_0000_0000_0000
    ensures Pow2(64) == U64_MODULUS
  {
    Pow2By256(0);
    Pow2By256(8);
    Pow2By256(16);
    Pow2By256(24);
    Pow2By256(32);
    Pow2By256(40);
    Pow2By256(48);
    Pow2By256(56);
    assert Pow2(52) == 16 * Pow2(48);
  }

  lemma Pow2By256(n: nat)
    ensures Pow2(n + 8) == 256 * Pow2(n)
  {
    assert Pow2(n + 4) == 16 * Pow2(n) by {
      assert Pow2(n + 2) == 4 * Pow2(n);
    }
    assert Pow2(n + 6) == 4 * Pow2(n + 4);
  }

  /** Index of the highest set bit. */
  function FloorLog2(n: nat): (k: nat)
    requires n > 0
    ensures Pow2(k) <= n < Pow2(k + 1)
  {
    if n == 1 then 0 else 1 + FloorLog2(n / 2)
  }

  lemma FloorLog2Bound(n: nat, k: nat)
    requires 0 < n < Pow2(k)
    ensures FloorLog2(n) < k
  {
    if FloorLog2(n) >= k {
      Pow2Monotone(k, FloorLog2(n));
    }
  }

  lemma FloorLog2Of64(n: u64)
    requires n > 0
    ensures FloorLog2(n) <= 63
  {
    Pow2Of64();
    FloorLog2Bound(n, 64);
  }

  // ---- shifts ----

  /** A 64-bit left shift: bits leave at the top. */
  function Shl64(x: u64, n: nat): u64 {
    if n == 0 then x else (2 * Shl64(x, n - 1)) % U64_MODULUS
  }

  function Shr(x: nat, n: nat): (r: nat)
    ensures r <= x
    decreases n
  {
    if n == 0 then x else Shr(x / 2, n - 1)
  }

  /** The lowest `k` bits of `n` are clear. */
  predicate LowBitsClear(n: nat, k: nat)
    decreases k
  {
    k == 0 || (n % 2 == 0 && LowBitsClear(n / 2, k - 1))
  }

  lemma {:induction false} LowBitsClearLess(n: nat, j: nat, k: nat)
    requires j <= k && LowBitsClear(n, k)
    ensures LowBitsClear(n, j)
    decreases j
  {
    if j > 0 {
      LowBitsClearLess(n / 2, j - 1, k - 1);
    }
  }

  /** Shifting left without overflow multiplies. */
  lemma {:induction false} ShlExact(x: u64, n: nat)
    requires Scale(x, n) < U64_MODULUS
    ensures Shl64(x, n) == Scale(x, n)
  {
    if n > 0 {
      ScaleMonotone(0, x, n - 1);
      ScaleZero(n - 1);
      ShlExact(x, n - 1);
    }
  }

  lemma {:induction false} ShiftBack(x: nat, n: nat)
    ensures Scale(x, n) >= 0
    ensures Shr(Scale(x, n), n) == x
    ensures LowBitsClear(Scale(x, n), n)
    decreases n
  {
    if n > 0 {
      ShiftBack(x, n - 1);
    }
  }

  lemma {:induction false} ShrTwice(x: nat, m: nat, n: nat)
    ensures Shr(Shr(x, m), n) == Shr(x, m + n)
    decreases m
  {
    if m > 0 {
      ShrTwice(x / 2, m - 1, n);
    }
  }

  /** What a right shift keeps and what it drops. */
  lemma {:induction false} ShrSplit(x: nat, n: nat)
    ensures Scale(Shr(x, n), n) <= x < Scale(Shr(x, n), n) + Pow2(n)
    decreases n
  {
    if n > 0 {
      ShrSplit(x / 2, n - 1);
    }
  }

  // ---- bitwise operations, bit by bit ----

  function Or(a: nat, b: nat): nat {
    if a == 0 && b == 0 then 0
    else 2 * Or(a / 2, b / 2) + (if a % 2 == 1 || b % 2 == 1 then 1 else 0)
  }

  function And(a: nat, b: nat): nat {
    if a == 0 || b == 0 then 0
    else 2 * And(a / 2, b / 2) + (if a % 2 == 1 && b % 2 == 1 then 1 else 0)
  }

  function Xor(a: nat, b: nat): nat {
    if a == 0 && b == 0 then 0
    else 2 * Xor(a / 2, b / 2) + (if a % 2 != b % 2 then 1 else 0)
  }

  /** Or-ing in bits below the lowest set one is addition. */
  lemma {:induction false} OrDisjoint(high: nat, low: nat, k: nat)
    requires LowBitsClear(high, k) && low < Pow2(k)
    ensures Or(high, low) == high + low
    ensures Or(low, high) == high + low
    decreases k
  {
    if k == 0 {
      OrZero(high);
    } else {
      OrDisjoint(high / 2, low / 2, k - 1);
    }
  }

  lemma {:induction false} OrZero(a: nat)
    ensures Or(a, 0) == a && Or(0, a) == a
  {
    if a > 0 {
      OrZero(a / 2);
    }
  }

  /** Masking a k-bit number with k ones keeps it. */
  lemma {:induction false} AndOnes(a: nat, k: nat)
    requires a < Pow2(k)
    ensures And(a, Pow2(k) - 1) == a
  {
    if k > 0 && a > 0 {
      AndOnes(a / 2, k - 1);
    }
  }

  /** Flipping k bits of a k-bit number. */
  lemma {:induction false} XorOnes(a: nat, k: nat)
    requires a < Pow2(k)
    ensures Xor(a, Pow2(k) - 1) == Pow2(k) - 1 - a
  {
    if k > 0 {
      XorOnes(a / 2, k - 1);
    }
  }

  lemma {:induction false} XorZero(a: nat)
    ensures Xor(a, 0) == a
  {
    if a > 0 {
      XorZero(a / 2);
    }
  }

  lemma RemainderIs(x: int, q: int, r: int)
    requires 0 <= r < U64_MODULUS && x == U64_MODULUS * q + r
    ensures x % U64_MODULUS == r
  {}

  lemma DoubleRemainder(x: int)
    ensures (2 * (x % U64_MODULUS)) % U64_MODULUS == (2 * x) % U64_MODULUS
  {
    var q, r := x / U64_MODULUS, x % U64_MODULUS;
    if 2 * r < U64_MODULUS {
      RemainderIs(2 * x, 2 * q, 2 * r);
    } else {
      RemainderIs(2 * x, 2 * q + 1, 2 * r - U64_MODULUS);
      RemainderIs(2 * r, 1, 2 * r - U64_MODULUS);
    }
  }

  /** A 64-bit left shift is multiplication modulo 2^64. */
  lemma {:induction false} ShlWraps(x: u64, n: nat)
    ensures Shl64(x, n) == Scale(x, n) % U64_MODULUS
  {
    if n > 0 {
      ShlWraps(x, n - 1);
      DoubleRemainder(Scale(x, n - 1));
    }
  }

  lemma {:induction false} OrBound(a: nat, b: nat, k: nat)
    requires a < Pow2(k) && b < Pow2(k)
    ensures Or(a, b) < Pow2(k)
  {
    if k > 0 {
      OrBound(a / 2, b / 2, k - 1);
    }
  }

  function Or64(a: u64, b: u64): u64 {
    Pow2Of64();
    OrBound(a, b, 64);
    Or(a, b)
  }
}
