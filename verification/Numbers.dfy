/** Firestore's number order: int64 and double compared exactly. */
module Numbers {
  import opened Orderings
  import opened Bits

  const HIDDEN_BIT: int := 0x10_0000_0000_0000

  type Exponent11 = x: int | 0 <= x < 2048
  type Mantissa52 = x: int | 0 <= x < HIDDEN_BIT

  /** 2^-1074, the spacing of the subnormals, is the unit of exact values. */
  const UNIT: nat := 1074

  /** A double as its bit fields (section 3.4 of IEEE 754-2019). */
  datatype F64 = F64(negative: bool, biased: Exponent11, mantissa: Mantissa52) {

    predicate IsNaN() {
      biased == 2047 && mantissa != 0
    }

    predicate IsInfinite() {
      biased == 2047 && mantissa == 0
    }

    predicate IsZero() {
      biased == 0 && mantissa == 0
    }

    /** The magnitude in units of 2^-1074. For an infinity this is 2^1024,
        beyond every finite double. */
    function Magnitude(): (m: nat) {
      if biased == 0 then mantissa
      else
        ShiftBack(HIDDEN_BIT + mantissa, biased - 1);
        Scale(HIDDEN_BIT + mantissa, biased - 1)
    }

    /** The exact value in units of 2^-1074. */
    function Exact(): int {
      if negative then 0 - Magnitude() else Magnitude()
    }
  }

  /** A stored number: an int64 or a double. */
  datatype Number = Int(i: i64) | Double(d: F64) {

    predicate IsNaN() {
      Double? && d.IsNaN()
    }

    /** The exact value in units of 2^-1074. */
    function Exact(): int {
      match this
      case Int(i) => Scale(i, UNIT)
      case Double(d) => d.Exact()
    }
  }

  /** IEEE comparison of two doubles of which neither is a NaN. */
  function IeeeCompare(x: F64, y: F64): Ordering {
    CompareInts(x.Exact(), y.Exact())
  }

  /** Doubles totally ordered: NaN below everything, -0 equal to 0. */
  function CompareDoubles(x: F64, y: F64): Ordering {
    if x.IsNaN() then (if y.IsNaN() then Equal else Less)
    else if y.IsNaN() then Greater
    else IeeeCompare(x, y)
  }

  /** Rounding towards zero to an integer. */
  function Truncate(d: F64): int {
    if d.negative then 0 - Shr(d.Magnitude(), UNIT) else Shr(d.Magnitude(), UNIT)
  }

  /** `i` against `d` without rounding the integer to a double first. */
  function CompareIntDouble(i: i64, d: F64): Ordering {
    if d.IsNaN() then Greater
    else if d.Exact() >= Scale(0x8000_0000_0000_0000, UNIT) then Less
    else if d.Exact() < Scale(-0x8000_0000_0000_0000, UNIT) then Greater
    else
      var t := Truncate(d);
      // The fractional part, d - t, carries the sign of d.
      CompareInts(i, t).Then(CompareInts(0, d.Exact() - Scale(t, UNIT)))
  }

  function CompareNumbers(x: Number, y: Number): Ordering {
    match (x, y)
    case (Int(a), Int(b)) => CompareInts(a, b)
    case (Double(a), Double(b)) => CompareDoubles(a, b)
    case (Int(a), Double(b)) => CompareIntDouble(a, b)
    case (Double(a), Int(b)) => CompareIntDouble(b, a).Reverse()
  }

  lemma ScaleCompare(a: int, b: int, n: nat)
    ensures CompareInts(Scale(a, n), Scale(b, n)) == CompareInts(a, b)
  {
    if a <= b {
      ScaleMonotone(a, b, n);
    } else {
      ScaleMonotone(b, a, n);
    }
  }

  /** Splitting a magnitude into whole part and fraction decides a comparison
      against an integer: whole parts first, the fraction breaking ties. */
  lemma WholeThenFraction(i: int, negative: bool, m: nat, n: nat)
    ensures
      var t := if negative then 0 - Shr(m, n) else Shr(m, n);
      var x := if negative then 0 - m else m;
      CompareInts(Scale(i, n), x) == CompareInts(i, t).Then(CompareInts(0, x - Scale(t, n)))
  {
    ShrSplit(m, n);
    ScaleNegate(Shr(m, n), n);
    ScaleOne(n);
    var t := if negative then 0 - Shr(m, n) else Shr(m, n);
    if i < t {
      ScaleMonotone(i, t - 1, n);
      ScaleAdd(t - 1, 1, n);
    } else if i > t {
      ScaleMonotone(t + 1, i, n);
      ScaleAdd(t, 1, n);
    }
  }

  /** The range checks and the truncation of `CompareIntDouble` lose nothing:
      it is the exact comparison. */
  lemma CompareIntDoubleExact(i: i64, d: F64)
    requires !d.IsNaN()
    ensures CompareIntDouble(i, d) == CompareInts(Scale(i, UNIT), d.Exact())
  {
    if d.Exact() >= Scale(0x8000_0000_0000_0000, UNIT) {
      ScaleMonotone(i, 0x8000_0000_0000_0000, UNIT);
    } else if d.Exact() < Scale(-0x8000_0000_0000_0000, UNIT) {
      ScaleMonotone(-0x8000_0000_0000_0000, i, UNIT);
    } else {
      WholeThenFraction(i, d.negative, d.Magnitude(), UNIT);
    }
  }

  /** NaN sorts below every other number; the rest compare by exact value,
      whichever of the two representations each of them has. */
  lemma CompareNumbersExact(x: Number, y: Number)
    ensures CompareNumbers(x, y) ==
      if x.IsNaN() then (if y.IsNaN() then Equal else Less)
      else if y.IsNaN() then Greater
      else CompareInts(x.Exact(), y.Exact())
  {
    match (x, y)
    case (Int(a), Int(b)) => ScaleCompare(a, b, UNIT);
    case (Double(a), Double(b)) =>
    case (Int(a), Double(b)) =>
      if !b.IsNaN() {
        CompareIntDoubleExact(a, b);
      }
    case (Double(a), Int(b)) =>
      if !a.IsNaN() {
        CompareIntDoubleExact(b, a);
      }
  }
}
