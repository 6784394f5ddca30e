/** The canonical sign / exponent / fraction decomposition of a number, in
    which equal int64s and doubles become the same value. */
module NumberParts {
  import opened Bits
  import opened Numbers
  import opened Results

  const I32_MIN: int := -0x8000_0000
  const I32_MAX: int := 0x7FFF_FFFF

  /** `(-1)^negative * 1.significand * 2^exponent`, the fraction after the
      leading 1 left-justified in 64 bits; zero, the infinities and NaN use
      the extreme exponents. */
  datatype Parts = Parts(negative: bool, exponent: int, significand: u64) {

    predicate IsZero() {
      exponent == I32_MIN && significand == 0
    }

    predicate IsNaN() {
      exponent == I32_MAX && significand != 0
    }

    predicate IsInfinite() {
      exponent == I32_MAX && significand == 0
    }

    predicate IsFinite() {
      -1074 <= exponent <= 1023
    }

    /** The fraction needs no more bits than a double has. */
    predicate FitsDouble() {
      IsFinite() && LowBitsClear(significand, 12)
    }

    /** The fraction needs no more bits than an int64 of this exponent has. */
    predicate FitsInt() {
      0 <= exponent <= 63 && LowBitsClear(significand, 64 - exponent)
    }

    /** Every value `FromI64` and `FromF64` can produce. */
    predicate Canonical() {
      this == ZERO || this == NAN || IsInfinite() || FitsDouble() || FitsInt()
    }

    /** The magnitude of a finite number in units of 2^-1138. */
    function Magnitude(): int
      requires IsFinite()
    {
      Scale(U64_MODULUS + significand, exponent + 1074)
    }
  }

  const ZERO := Parts(false, I32_MIN, 0)
  const NAN := Parts(true, I32_MAX, 1)

  function Abs(x: int): nat { if x < 0 then -x else x }

  function LeadingZeros(n: u64): (z: nat)
    requires n > 0
    ensures z <= 63
  {
    FloorLog2Of64(n);
    63 - FloorLog2(n)
  }

  function TrailingZeros(n: nat): nat
    requires n > 0
  {
    if n % 2 == 1 then 0 else 1 + TrailingZeros(n / 2)
  }

  /** The fraction of `n` below its leading 1, left-justified in 64 bits.
      Clearing the top bit first avoids a shift by 64 when `n` is 1. */
  function LeftJustified(n: u64): u64
    requires n > 0
  {
    var leadingZeros := LeadingZeros(n);
    var fraction := n - Pow2(63 - leadingZeros);
    if leadingZeros == 63 then 0 else Shl64(fraction, leadingZeros + 1)
  }

  function FromI64(value: i64): Parts {
    if value == 0 then ZERO
    else
      var magnitude := Abs(value);
      Parts(value < 0, 63 - LeadingZeros(magnitude), LeftJustified(magnitude))
  }

  function FromF64(value: F64): Parts {
    // False for NaN and for -0.0.
    var negative := value.negative && !value.IsNaN() && !value.IsZero();
    if value.biased == 0 then
      if value.mantissa == 0 then ZERO
      else Parts(negative, -1023 - (LeadingZeros(value.mantissa) - 12), LeftJustified(value.mantissa))
    else if value.biased == 0x7FF then
      if value.mantissa == 0 then Parts(negative, I32_MAX, 0) else NAN
    else
      Parts(negative, value.biased - 1023, Shl64(value.mantissa, 12))
  }

  function FromNumber(x: Number): Parts {
    match x
    case Int(i) => FromI64(i)
    case Double(d) => FromF64(d)
  }

  /** The quiet NaN every NaN is read back as. */
  const CANONICAL_NAN := F64(false, 0x7FF, 0x8_0000_0000_0000)

  /** `None` where the code would shift by a negative amount or build a
      bit pattern that is no double. */
  function AsF64(p: Parts): Option<F64> {
    if p.IsZero() then Some(F64(false, 0, 0))
    else if p.IsInfinite() then Some(F64(p.negative, 0x7FF, 0))
    else if p.IsNaN() then Some(CANONICAL_NAN)
    else if p.exponent >= -1022 then
      ToF64(p.negative, p.exponent + 1023, Shr(p.significand, 12))
    else if p.exponent < -1074 then None
    else ToF64(p.negative, 0, SubnormalMantissa(p.significand, -1022 - p.exponent))
  }

  function SubnormalMantissa(significand: u64, adjustment: nat): nat
    requires adjustment <= 52
  {
    Or(Shr(Shr(significand, 12), adjustment), Pow2(52 - adjustment))
  }

  function ToF64(negative: bool, biased: int, mantissa: nat): Option<F64> {
    if 0 <= biased < 2048 && mantissa < HIDDEN_BIT then Some(F64(negative, biased, mantissa)) else None
  }

  /** `None` where the code panics: the parts do not hold an int64. */
  function AsI64(p: Parts): Option<i64> {
    if p.IsZero() then Some(0)
    else if !(0 <= p.exponent <= 63) then None
    else if p.exponent == 63 then
      if p.negative && p.significand == 0 then Some(-0x8000_0000_0000_0000) else None
    else if p.significand != 0 && p.exponent < 64 - TrailingZeros(p.significand) then None
    else
      var magnitude := I64Magnitude(p.significand, p.exponent);
      if magnitude >= 0x8000_0000_0000_0000 then None
      else Some(if p.negative then 0 - magnitude else magnitude)
  }

  function I64Magnitude(significand: u64, exponent: nat): nat
    requires exponent <= 62
  {
    var leadingZeros := 63 - exponent;
    var fraction := if leadingZeros == 63 then 0 else Shr(significand, leadingZeros + 1);
    Or(fraction, Pow2(exponent))
  }

  // ---- what the decomposition keeps ----

  /** Left-justifying loses no bits. */
  lemma LeftJustifiedExact(n: u64)
    requires n > 0
    ensures
      var k := FloorLog2(n);
      && k <= 63
      && LeadingZeros(n) == 63 - k
      && LeftJustified(n) == Scale(n - Pow2(k), 64 - k)
      && U64_MODULUS + LeftJustified(n) == Scale(n, 64 - k)
  {
    FloorLog2Of64(n);
    var k := FloorLog2(n);
    ScaleAdd(n - Pow2(k), Pow2(k), 64 - k);
    ScaleMonotone(n - Pow2(k), Pow2(k), 64 - k);
    assert Scale(Pow2(k), 64 - k) == U64_MODULUS by {
      ScaleOne(k);
      ScaleScale(1, k, 64 - k);
      ScaleOne(64);
      Pow2Of64();
    }
    ShlExact(n - Pow2(k), 64 - k);
    ScaleZero(64 - k);
  }

  lemma MantissaLog2(m: Mantissa52)
    requires m > 0
    ensures FloorLog2(m) <= 51
  {
    Pow2Of64();
    FloorLog2Bound(m, 52);
  }

  lemma FromI64Exact(value: i64)
    requires value != 0
    ensures
      var p := FromI64(value);
      && p.FitsInt()
      && p.negative == (value < 0)
      && p.Magnitude() == Scale(Abs(value), 1138)
  {
    var n := Abs(value);
    LeftJustifiedExact(n);
    var k := FloorLog2(n);
    ShiftBack(n - Pow2(k), 64 - k);
    ScaleScale(n, 64 - k, k + 1074);
  }

  lemma FromF64Exact(value: F64)
    requires !value.IsNaN() && !value.IsInfinite() && !value.IsZero()
    ensures
      var p := FromF64(value);
      && p.FitsDouble()
      && p.negative == value.negative
      && p.Magnitude() == Scale(value.Magnitude(), 64)
  {
    if value.biased == 0 {
      SubnormalExact(value.mantissa);
    } else {
      NormalSignificand(value.mantissa);
      ScaleScale(HIDDEN_BIT + value.mantissa, 12, value.biased + 51);
      ScaleScale(HIDDEN_BIT + value.mantissa, value.biased - 1, 64);
    }
  }

  lemma SubnormalExact(m: Mantissa52)
    requires m > 0
    ensures
      var k := FloorLog2(m);
      && k <= 51
      && LeadingZeros(m) == 63 - k
      && LowBitsClear(LeftJustified(m), 12)
      && Scale(U64_MODULUS + LeftJustified(m), k) == Scale(m, 64)
  {
    var k := FloorLog2(m);
    MantissaLog2(m);
    LeftJustifiedExact(m);
    ShiftBack(m - Pow2(k), 64 - k);
    LowBitsClearLess(LeftJustified(m), 12, 64 - k);
    ScaleScale(m, 64 - k, k);
  }

  lemma NormalSignificand(m: Mantissa52)
    ensures Shl64(m, 12) == Scale(m, 12)
    ensures U64_MODULUS + Shl64(m, 12) == Scale(HIDDEN_BIT + m, 12)
    ensures LowBitsClear(Shl64(m, 12), 12)
    ensures Shr(Shl64(m, 12), 12) == m
  {
    ScaleBy4096(m);
    ScaleBy4096(HIDDEN_BIT + m);
    ShlExact(m, 12);
    ShiftBack(m, 12);
  }

  lemma ScaleBy4096(x: int)
    ensures Scale(x, 12) == 0x1000 * x
  {
    ScaleBy16(x, 0);
    ScaleBy16(x, 4);
    ScaleBy16(x, 8);
  }

  lemma FromNumberCanonical(x: Number)
    ensures FromNumber(x).Canonical()
  {
    match x
    case Int(i) =>
      if i != 0 {
        FromI64Exact(i);
      }
    case Double(d) =>
      if !d.IsNaN() && !d.IsInfinite() && !d.IsZero() {
        FromF64Exact(d);
      }
  }

  lemma {:induction false} ScaleGrows(x: int, m: nat, n: nat)
    requires x >= 0 && m <= n
    ensures 0 <= Scale(x, m) <= Scale(x, n)
    decreases n
  {
    if n > 0 {
      if m == n {
        ScaleGrows(x, m - 1, n - 1);
      } else {
        ScaleGrows(x, m, n - 1);
      }
    }
  }

  /** Magnitudes order by exponent, then fraction. */
  lemma MagnitudeOrder(p: Parts, q: Parts)
    requires p.IsFinite() && q.IsFinite()
    requires p.exponent < q.exponent || (p.exponent == q.exponent && p.significand < q.significand)
    ensures p.Magnitude() < q.Magnitude()
  {
    var a, b := p.exponent + 1074, q.exponent + 1074;
    if a < b {
      ScaleMonotone(U64_MODULUS + p.significand, 2 * U64_MODULUS, a);
      ScaleScale(U64_MODULUS, 1, a);
      ScaleGrows(U64_MODULUS, a + 1, b);
      ScaleMonotone(U64_MODULUS, U64_MODULUS + q.significand, b);
    } else {
      ScaleMonotone(U64_MODULUS + p.significand, U64_MODULUS + q.significand, a);
    }
  }

  // ---- reading back ----

  lemma {:induction false} TrailingZerosAtLeast(n: nat, k: nat)
    requires n > 0 && LowBitsClear(n, k)
    ensures TrailingZeros(n) >= k
  {
    if k > 0 {
      TrailingZerosAtLeast(n / 2, k - 1);
    }
  }

  /** Shifting a left-justified fraction back and or-ing in its leading 1. */
  lemma Unjustify(n: u64)
    requires n > 0
    ensures
      var k := FloorLog2(n);
      k <= 63 && Or(Shr(LeftJustified(n), 64 - k), Pow2(k)) == n
  {
    var k := FloorLog2(n);
    LeftJustifiedExact(n);
    ShiftBack(n - Pow2(k), 64 - k);
    RestoreLeadingOne(n - Pow2(k), k);
  }

  lemma RestoreLeadingOne(f: nat, k: nat)
    requires f < Pow2(k)
    ensures Or(f, Pow2(k)) == f + Pow2(k)
  {
    ShiftBack(1, k);
    ScaleOne(k);
    OrDisjoint(Pow2(k), f, k);
  }

  /** `as_i64` inverts `from_i64`, never reaching one of its panics. */
  lemma I64RoundTrip(value: i64)
    ensures AsI64(FromI64(value)) == Some(value)
  {
    if value != 0 {
      var n := Abs(value);
      LeftJustifiedExact(n);
      if FloorLog2(n) == 63 {
        TopBitAlone(n);
      } else {
        I64Below63(value, n, FloorLog2(n));
      }
    }
  }

  lemma I64Below63(value: i64, n: u64, k: nat)
    requires value != 0 && n == Abs(value) && k == FloorLog2(n) < 63
    ensures AsI64(Parts(value < 0, k, LeftJustified(n))) == Some(value)
  {
    BelowTopBit(n);
    assert I64Magnitude(LeftJustified(n), k) == n by {
      Unjustify(n);
      if k == 0 {
        assert n == 1;
      }
    }
    assert LeftJustified(n) != 0 ==> TrailingZeros(LeftJustified(n)) >= 64 - k by {
      LeftJustifiedExact(n);
      ShiftBack(n - Pow2(k), 64 - k);
      if LeftJustified(n) != 0 {
        TrailingZerosAtLeast(LeftJustified(n), 64 - k);
      }
    }
  }

  lemma TopBitAlone(n: u64)
    requires 0 < n <= 0x8000_0000_0000_0000 && FloorLog2(n) == 63
    ensures n == 0x8000_0000_0000_0000 && LeftJustified(n) == 0
  {
    Pow2Of64();
    LeftJustifiedExact(n);
  }

  lemma BelowTopBit(n: u64)
    requires n > 0 && FloorLog2(n) < 63
    ensures n < 0x8000_0000_0000_0000
  {
    Pow2Monotone(FloorLog2(n) + 1, 63);
    Pow2Of64();
  }

  /** What a double reads back as: itself, except that the NaN payload and the
      sign of zero are gone. */
  function Normalized(d: F64): F64 {
    if d.IsNaN() then CANONICAL_NAN else if d.IsZero() then F64(false, 0, 0) else d
  }

  lemma F64RoundTrip(d: F64)
    ensures AsF64(FromF64(d)) == Some(Normalized(d))
  {
    if !d.IsNaN() && !d.IsInfinite() && !d.IsZero() {
      if d.biased == 0 {
        SubnormalRoundTrip(d);
      } else {
        NormalSignificand(d.mantissa);
      }
    }
  }

  lemma SubnormalRoundTrip(d: F64)
    requires d.biased == 0 && d.mantissa > 0
    ensures AsF64(FromF64(d)) == Some(d)
  {
    var k: int := FloorLog2(d.mantissa);
    var s := LeftJustified(d.mantissa);
    SubnormalExact(d.mantissa);
    SubnormalAsF64(d.negative, k, s, d.mantissa) by {
      Unjustify(d.mantissa);
      ShrTwice(s, 12, 52 - k);
    }
  }

  lemma SubnormalAsF64(negative: bool, k: nat, s: u64, m: Mantissa52)
    requires k <= 51 && SubnormalMantissa(s, 52 - k) == m
    ensures AsF64(Parts(negative, k - 1074, s)) == Some(F64(negative, 0, m))
  {}
}
