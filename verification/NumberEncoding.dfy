/** The ordered-number code: at most eleven prefix-free bytes whose
    lexicographic order is numeric order. */
module NumberEncoding {
  import opened Orderings
  import opened Bytes
  import opened Bits
  import opened Numbers
  import opened NumberParts

  const TWO_57: int := 0x200_0000_0000_0000
  const TWO_60: int := 0x1000_0000_0000_0000
  const TWO_61: int := 0x2000_0000_0000_0000
  const TWO_62: int := 0x4000_0000_0000_0000
  const TWO_63: int := 0x8000_0000_0000_0000

  // ---- the code, stated arithmetically ----

  /** The top seven bits of a left-justified fraction, placed above bit 0. */
  function TopGroup(significand: u64): (g: byte)
    ensures g % 2 == 0
  {
    2 * (significand / TWO_57)
  }

  /** The fraction with its top seven bits shifted out. */
  function DropGroup(significand: u64): u64 {
    128 * (significand % TWO_57)
  }

  /** Seven bits of fraction per byte. Bit 0 says whether another group
      follows; trailing zero groups are left out. `width` bounds the number of
      fraction bits that can still be set. */
  function Stream(last: byte, significand: u64, ghost width: nat): (s: seq<byte>)
    requires last % 2 == 0 && width <= 64 && LowBitsClear(significand, 64 - width)
    ensures s != [] && (s[0] == last || s[0] == last + 1)
    decreases width
  {
    if significand == 0 then [last]
    else
      DropGroupClear(significand, width);
      SomeWidth(significand, width);
      [last + 1] + Stream(TopGroup(significand), DropGroup(significand), Narrower(width))
  }

  ghost function Narrower(width: nat): nat {
    if width < 7 then 0 else width - 7
  }

  /** What an encoding starts with: whole bytes, then the byte that carries the
      first fraction bits, and the fraction still to be streamed after it. */
  datatype Head = Head(prefix: seq<byte>, last: byte, rest: u64)

  function FirstUnit(m: nat): int
    requires m < 4
  {
    if m == 0 then U64_MODULUS else if m == 1 then TWO_63 else if m == 2 then TWO_62 else TWO_61
  }

  /** The fraction with its top `m` bits shifted out. */
  function ShortRest(m: nat, significand: u64): u64
    requires m < 4
  {
    if m == 0 then significand
    else if m == 1 then 2 * (significand % TWO_63)
    else if m == 2 then 4 * (significand % TWO_62)
    else 8 * (significand % TWO_61)
  }

  /** Marker of a short exponent: the bit above the fraction bits is set, and
      for a negative exponent the bits from it up to bit 6 are flipped. */
  function ShortMarker(exponent: int): byte
    requires -4 < exponent < 4
  {
    match exponent
    case -3 => 0xA0
    case -2 => 0xB0
    case -1 => 0xB8
    case 0 => 0xC2
    case 1 => 0xC4
    case 2 => 0xC8
    case _ => 0xD0
  }

  function ShortHead(exponent: int, significand: u64): (h: Head)
    requires -4 < exponent < 4
    ensures h.last % 2 == 0
  {
    var m := Abs(exponent);
    Head([], ShortMarker(exponent) + 2 * (significand / FirstUnit(m)), ShortRest(m, significand))
  }

  /** The head of a positive number's encoding. */
  function HeadOf(exponent: int, significand: u64): (h: Head)
    requires -1172 < exponent < 1172
    ensures h.last % 2 == 0
  {
    var m := Abs(exponent);
    if m < 4 then ShortHead(exponent, significand)
    else if m < 20 then
      Head([if exponent > 0 then 0xE0 + (m - 4) else 0x9F - (m - 4)],
           TopGroup(significand), DropGroup(significand))
    else if m < 148 then
      var e := m - 20;
      var nibble := significand / TWO_60;
      var rest := 16 * (significand % TWO_60);
      Head([if exponent > 0 then 0xF0 + e / 16 else 0x8F - e / 16,
            (if exponent > 0 then 16 * (e % 16) else 16 * (15 - e % 16)) + nibble],
           TopGroup(rest), DropGroup(rest))
    else
      var e := m - 148;
      Head([if exponent > 0 then 0xF8 + e / 256 else 0x87 - e / 256,
            if exponent > 0 then e % 256 else 255 - e % 256],
           TopGroup(significand), DropGroup(significand))
  }

  function EncodeMagnitude(exponent: int, significand: u64): seq<byte>
    requires -1172 < exponent < 1172
  {
    var h := HeadOf(exponent, significand);
    h.prefix + Stream(h.last, h.rest, 64)
  }

  /** The whole code: sentinels, and finite numbers of either sign. Negative
      numbers are the complement of their magnitude. */
  function Encode(p: Parts): seq<byte>
    requires p.Canonical()
  {
    if p.IsZero() then [0x80]
    else if p.IsNaN() then [0x00, 0x60]
    else if p.IsInfinite() then (if p.negative then [0x00, 0x80] else [0xFF])
    else
      var magnitude := EncodeMagnitude(p.exponent, p.significand);
      if p.negative then Complement(magnitude) else magnitude
  }

  function EncodeNumber(x: Number): seq<byte> {
    FromNumberCanonical(x);
    Encode(FromNumber(x))
  }

  // ---- bookkeeping of fraction widths ----

  lemma {:induction false} ClearZero(k: nat)
    ensures LowBitsClear(0, k)
  {
    if k > 0 {
      ClearZero(k - 1);
    }
  }

  lemma {:induction false} ClearBelow(high: nat, k: nat, x: nat, j: nat)
    requires j <= k && Scale(high, k) >= 0 && LowBitsClear(Scale(high, k) + x, j)
    ensures LowBitsClear(x, j)
    decreases k
  {
    if j > 0 {
      ClearBelow(high, k - 1, x / 2, j - 1);
    }
  }

  lemma {:induction false} ClearDoubled(x: nat, j: nat, n: nat)
    requires LowBitsClear(x, j)
    ensures Scale(x, n) >= 0 && LowBitsClear(Scale(x, n), j + n)
  {
    if n > 0 {
      ClearDoubled(x, j, n - 1);
    }
  }

  lemma ScaleBy57(x: int)
    ensures Scale(x, 57) == TWO_57 * x
  {
    ScaleBy16(x, 0);
    ScaleBy16(x, 4);
    ScaleBy16(x, 8);
    ScaleBy16(x, 12);
    ScaleBy16(x, 16);
    ScaleBy16(x, 20);
    ScaleBy16(x, 24);
    ScaleBy16(x, 28);
    ScaleBy16(x, 32);
    ScaleBy16(x, 36);
    ScaleBy16(x, 40);
    ScaleBy16(x, 44);
    ScaleBy16(x, 48);
    ScaleBy16(x, 52);
  }

  lemma ScaleBy128(x: int)
    ensures Scale(x, 7) == 128 * x
  {
    ScaleBy16(x, 0);
    assert Scale(x, 6) == 4 * Scale(x, 4);
  }

  /** Shifting out a group leaves seven fewer fraction bits. */
  lemma DropGroupClear(significand: u64, width: nat)
    requires width <= 64 && LowBitsClear(significand, 64 - width)
    ensures LowBitsClear(DropGroup(significand), 64 - Narrower(width))
  {
    var high, low := significand / TWO_57, significand % TWO_57;
    ScaleBy57(high);
    ScaleBy128(low);
    if width < 7 {
      LowBitsClearLess(significand, 57, 64 - width);
      ClearBelow(high, 57, low, 57);
      ScaleOne(57);
      ScaleBy57(1);
      ClearSmall(low, 57);
      ClearZero(64);
    } else {
      ClearBelow(high, 57, low, 64 - width);
      ClearDoubled(low, 64 - width, 7);
    }
  }

  lemma SomeWidth(significand: u64, width: nat)
    requires width <= 64 && LowBitsClear(significand, 64 - width) && significand != 0
    ensures width > 0
  {
    if width == 0 {
      Pow2Of64();
      ClearSmall(significand, 64);
    }
  }

  /** A number below 2^k with k clear low bits is zero. */
  lemma {:induction false} ClearSmall(x: nat, k: nat)
    requires x < Pow2(k) && LowBitsClear(x, k)
    ensures x == 0
    decreases k
  {
    if k > 0 {
      ClearSmall(x / 2, k - 1);
    }
  }

  // ---- the order of the code ----

  lemma {:induction false} StreamOrder(lastA: byte, a: u64, lastB: byte, b: u64, width: nat)
    requires lastA % 2 == 0 && lastB % 2 == 0 && width <= 64
    requires LowBitsClear(a, 64 - width) && LowBitsClear(b, 64 - width)
    requires lastA < lastB || (lastA == lastB && a < b)
    ensures Before(Stream(lastA, a, width), Stream(lastB, b, width))
    decreases width
  {
    if lastA == lastB && a != 0 {
      SomeWidth(a, width);
      DropGroupClear(a, width);
      DropGroupClear(b, width);
      StreamOrder(TopGroup(a), DropGroup(a), TopGroup(b), DropGroup(b), Narrower(width));
    }
  }

  /** `x`'s head sorts below `y`'s: at a whole byte, or at the fraction. */
  predicate HeadLess(x: Head, y: Head) {
    || (|x.prefix| == |y.prefix| == 2 && x.prefix[0] == y.prefix[0] && x.prefix[1] < y.prefix[1])
    || (x.prefix == y.prefix && (x.last < y.last || (x.last == y.last && x.rest < y.rest)))
  }

  /** Within one exponent, the head orders by fraction. */
  lemma HeadOrder(exponent: int, a: u64, b: u64)
    requires -1172 < exponent < 1172 && a < b
    ensures HeadLess(HeadOf(exponent, a), HeadOf(exponent, b))
  {
    var m := Abs(exponent);
    if m < 4 {
      ShortOrder(m, a, b);
    } else {
      GroupOrder(a, b);
      if 20 <= m < 148 {
        NibbleOrder(a, b);
      }
    }
  }

  lemma ShortOrder(m: nat, a: u64, b: u64)
    requires m < 4 && a < b
    ensures
      || a / FirstUnit(m) < b / FirstUnit(m)
      || (a / FirstUnit(m) == b / FirstUnit(m) && ShortRest(m, a) < ShortRest(m, b))
  {}

  lemma GroupOrder(a: u64, b: u64)
    requires a < b
    ensures TopGroup(a) < TopGroup(b) || (TopGroup(a) == TopGroup(b) && DropGroup(a) < DropGroup(b))
  {}

  lemma NibbleOrder(a: u64, b: u64)
    requires a < b
    ensures
      var x, y := 16 * (a % TWO_60), 16 * (b % TWO_60);
      || a / TWO_60 < b / TWO_60
      || (a / TWO_60 == b / TWO_60
          && (TopGroup(x) < TopGroup(y) || (TopGroup(x) == TopGroup(y) && DropGroup(x) < DropGroup(y))))
  {
    if a / TWO_60 == b / TWO_60 {
      GroupOrder(16 * (a % TWO_60), 16 * (b % TWO_60));
    }
  }

  lemma SameExponentOrder(exponent: int, a: u64, b: u64)
    requires -1172 < exponent < 1172 && a < b
    ensures Before(EncodeMagnitude(exponent, a), EncodeMagnitude(exponent, b))
  {
    HeadOrder(exponent, a, b);
    var x, y := HeadOf(exponent, a), HeadOf(exponent, b);
    var s, t := Stream(x.last, x.rest, 64), Stream(y.last, y.rest, 64);
    if x.prefix == y.prefix {
      StreamOrder(x.last, x.rest, y.last, y.rest, 64);
      BeforePrepend(x.prefix, s, t);
    } else {
      PairBefore(x.prefix, y.prefix);
      BeforeAppend(x.prefix, y.prefix, s, t);
    }
  }

  lemma PairBefore(x: seq<byte>, y: seq<byte>)
    requires |x| == |y| == 2 && x[0] == y[0] && x[1] < y[1]
    ensures Before(x, y)
  {
    assert Before(x[1..], y[1..]);
  }

  /** The largest first byte an exponent's encodings reach. */
  function FirstByteMax(exponent: int): byte
    requires -4 < exponent < 4
  {
    match exponent
    case -3 => 0xAF
    case -2 => 0xB7
    case -1 => 0xBB
    case 0 => 0xC3
    case 1 => 0xC7
    case 2 => 0xCF
    case _ => 0xDF
  }

  lemma ShortFirstByte(exponent: int, significand: u64)
    requires -4 < exponent < 4
    ensures EncodeMagnitude(exponent, significand) != []
    ensures ShortMarker(exponent) <= EncodeMagnitude(exponent, significand)[0] <= FirstByteMax(exponent)
  {
    var h := ShortHead(exponent, significand);
    assert [] + Stream(h.last, h.rest, 64) == Stream(h.last, h.rest, 64);
  }

  /** The first byte of a longer exponent's encodings. */
  function FirstByte(exponent: int): byte
    requires -1172 < exponent < 1172 && !(-4 < exponent < 4)
  {
    var m := Abs(exponent);
    if m < 20 then (if exponent > 0 then 0xE0 + (m - 4) else 0x9F - (m - 4))
    else if m < 148 then (if exponent > 0 then 0xF0 + (m - 20) / 16 else 0x8F - (m - 20) / 16)
    else if exponent > 0 then 0xF8 + (m - 148) / 256 else 0x87 - (m - 148) / 256
  }

  lemma LongHead(exponent: int, significand: u64)
    requires -1172 < exponent < 1172 && !(-4 < exponent < 4)
    ensures
      var h := HeadOf(exponent, significand);
      && h.prefix != [] && h.prefix[0] == FirstByte(exponent)
      && EncodeMagnitude(exponent, significand)[0] == FirstByte(exponent)
  {}

  /** Larger exponents never have smaller first bytes, and where the first
      bytes agree the second bytes decide. */
  lemma FirstByteOrder(e: int, a: u64, f: int, b: u64)
    requires -1172 < e < f < 1172 && !(-4 < e < 4) && !(-4 < f < 4)
    ensures
      var x, y := HeadOf(e, a).prefix, HeadOf(f, b).prefix;
      || FirstByte(e) < FirstByte(f)
      || (|x| == |y| == 2 && x[0] == y[0] && x[1] < y[1])
  {
    if e > 0 {
      ExponentBytes(e, f);
      HeadBytes(e, a);
      HeadBytes(f, b);
    } else if f < 0 {
      ExponentBytes(-f, -e);
      HeadBytes(e, a);
      HeadBytes(f, b);
    }
  }

  /** A long exponent's byte for a magnitude, counted up from its marker. */
  function MagnitudeByte(m: nat): nat
    requires 4 <= m < 1172
  {
    if m < 20 then m - 4 else if m < 148 then 16 + (m - 20) / 16 else 24 + (m - 148) / 256
  }

  function MagnitudeRest(m: nat): nat
    requires 4 <= m < 1172
  {
    if m < 20 then 0 else if m < 148 then (m - 20) % 16 else (m - 148) % 256
  }

  lemma ExponentBytes(m: nat, n: nat)
    requires 4 <= m < n < 1172
    ensures MagnitudeByte(m) <= MagnitudeByte(n) < 28
    ensures MagnitudeByte(m) == MagnitudeByte(n) ==> 20 <= m && MagnitudeRest(m) < MagnitudeRest(n)
  {}

  lemma HeadBytes(e: int, a: u64)
    requires -1172 < e < 1172 && !(-4 < e < 4)
    ensures
      var m, x := Abs(e), HeadOf(e, a).prefix;
      && FirstByte(e) == (if e > 0 then 0xE0 + MagnitudeByte(m) else 0x9F - MagnitudeByte(m))
      && |x| == (if m < 20 then 1 else 2) && x[0] == FirstByte(e)
      && (20 <= m < 148 ==>
           var r := if e > 0 then MagnitudeRest(m) else 15 - MagnitudeRest(m);
           16 * r <= x[1] < 16 * r + 16)
      && (148 <= m ==> x[1] == if e > 0 then MagnitudeRest(m) else 255 - MagnitudeRest(m))
  {}

  /** A larger exponent means a larger encoding, whatever the fractions. */
  lemma ExponentOrder(e: int, a: u64, f: int, b: u64)
    requires -1172 < e < f < 1172
    ensures Before(EncodeMagnitude(e, a), EncodeMagnitude(f, b))
  {
    if -4 < e < 4 {
      ShortFirstByte(e, a);
      if -4 < f < 4 {
        ShortFirstByte(f, b);
      } else {
        LongHead(f, b);
      }
    } else {
      LongHead(e, a);
      if -4 < f < 4 {
        ShortFirstByte(f, b);
      } else {
        LongHead(f, b);
        FirstByteOrder(e, a, f, b);
        var x, y := HeadOf(e, a), HeadOf(f, b);
        if FirstByte(e) >= FirstByte(f) {
          PairBefore(x.prefix, y.prefix);
          BeforeAppend(x.prefix, y.prefix, Stream(x.last, x.rest, 64), Stream(y.last, y.rest, 64));
        }
      }
    }
  }

  lemma MagnitudeBytes(exponent: int, significand: u64)
    requires -1172 < exponent < 1172
    ensures EncodeMagnitude(exponent, significand) != []
    ensures 0x84 <= EncodeMagnitude(exponent, significand)[0] <= 0xFB
  {
    if -4 < exponent < 4 {
      ShortFirstByte(exponent, significand);
    }
  }

  /** The order the code realises: NaN, -infinity, negatives, zero,
      positives, +infinity. */
  predicate PartsLess(p: Parts, q: Parts)
    requires p.Canonical() && q.Canonical()
  {
    if p.IsNaN() || q.IsNaN() then p.IsNaN() && !q.IsNaN()
    else
      PartsKey(p).0 < PartsKey(q).0
      || (PartsKey(p).0 == PartsKey(q).0
          && (PartsKey(p).1 < PartsKey(q).1
              || (PartsKey(p).1 == PartsKey(q).1 && PartsKey(p).2 < PartsKey(q).2)))
  }

  /** Class of the number, then exponent, then fraction, reversed below zero. */
  function PartsKey(p: Parts): (int, int, int) {
    if p.IsZero() then (0, 0, 0)
    else if p.IsInfinite() then (if p.negative then (-2, 0, 0) else (2, 0, 0))
    else if p.negative then (-1, -p.exponent, 0 - p.significand)
    else (1, p.exponent, p.significand)
  }

  lemma FiniteOrder(p: Parts, q: Parts)
    requires p.IsFinite() && q.IsFinite()
    requires p.exponent < q.exponent || (p.exponent == q.exponent && p.significand < q.significand)
    ensures Before(EncodeMagnitude(p.exponent, p.significand), EncodeMagnitude(q.exponent, q.significand))
  {
    if p.exponent < q.exponent {
      ExponentOrder(p.exponent, p.significand, q.exponent, q.significand);
    } else {
      SameExponentOrder(p.exponent, p.significand, q.significand);
    }
  }

  /** Smaller parts encode to bytes that sort strictly below, at a byte both
      encodings have. */
  lemma PartsOrder(p: Parts, q: Parts)
    requires p.Canonical() && q.Canonical() && PartsLess(p, q)
    ensures Before(Encode(p), Encode(q))
  {
    if p.IsFinite() {
      MagnitudeBytes(p.exponent, p.significand);
    }
    if q.IsFinite() {
      MagnitudeBytes(q.exponent, q.significand);
    }
    if p.IsFinite() && q.IsFinite() && p.negative == q.negative {
      if p.negative {
        FiniteOrder(q, p);
        BeforeComplement(EncodeMagnitude(q.exponent, q.significand), EncodeMagnitude(p.exponent, p.significand));
      } else {
        FiniteOrder(p, q);
      }
    } else if p.IsNaN() && q.IsInfinite() && q.negative {
      PairBefore(Encode(p), Encode(q));
    }
  }

  // ---- parts order is exact numeric order ----

  /** The signed exact value of canonical parts in units of 2^-1138, with
      2^1024 standing for infinity. */
  ghost function Size(p: Parts): int
    requires p.Canonical() && !p.IsNaN()
  {
    var magnitude :=
      if p.IsZero() then 0
      else if p.IsInfinite() then Scale(U64_MODULUS, 2098)
      else p.Magnitude();
    if p.negative then 0 - magnitude else magnitude
  }

  lemma SizeSign(p: Parts)
    requires p.Canonical() && !p.IsNaN() && !p.IsZero()
    ensures p.negative ==> Size(p) < 0
    ensures !p.negative ==> Size(p) > 0
    ensures p.IsFinite() ==> Scale(0 - U64_MODULUS, 2098) < Size(p) < Scale(U64_MODULUS, 2098)
  {
    if p.IsFinite() {
      var n := p.exponent + 1074;
      ScaleMonotone(0, U64_MODULUS + p.significand, n);
      ScaleZero(n);
      ScaleMonotone(U64_MODULUS + p.significand, 2 * U64_MODULUS, n);
      ScaleScale(U64_MODULUS, 1, n);
      ScaleGrows(U64_MODULUS, n + 1, 2098);
      ScaleNegate(U64_MODULUS, 2098);
    } else {
      ScaleMonotone(0, U64_MODULUS, 2098);
      ScaleZero(2098);
    }
  }

  lemma PartsLessSize(p: Parts, q: Parts)
    requires p.Canonical() && q.Canonical() && !p.IsNaN() && !q.IsNaN() && PartsLess(p, q)
    ensures Size(p) < Size(q)
  {
    if !p.IsZero() {
      SizeSign(p);
    }
    if !q.IsZero() {
      SizeSign(q);
    }
    ScaleNegate(U64_MODULUS, 2098);
    if p.IsFinite() && q.IsFinite() && p.negative == q.negative {
      if p.negative {
        MagnitudeOrder(q, p);
      } else {
        MagnitudeOrder(p, q);
      }
    }
  }

  lemma PartsTotal(p: Parts, q: Parts)
    requires p.Canonical() && q.Canonical()
    ensures PartsLess(p, q) || PartsLess(q, p) || p == q
  {}

  /** The decomposition keeps the exact value. */
  lemma SizeExact(x: Number)
    requires !x.IsNaN()
    ensures
      var p := FromNumber(x);
      p.Canonical() && !p.IsNaN() && Size(p) == Scale(x.Exact(), 64)
  {
    FromNumberCanonical(x);
    match x
    case Int(i) => IntSizeExact(i);
    case Double(d) => DoubleSizeExact(d);
  }

  lemma IntSizeExact(i: i64)
    ensures FromI64(i).Canonical() && !FromI64(i).IsNaN() && Size(FromI64(i)) == Scale(Scale(i, UNIT), 64)
  {
    FromNumberCanonical(Int(i));
    ScaleZero(64);
    ScaleZero(UNIT);
    ScaleScale(i, UNIT, 64);
    if i != 0 {
      FromI64Exact(i);
      ScaleNegate(i, 1138);
    }
  }

  lemma DoubleSizeExact(d: F64)
    requires !d.IsNaN()
    ensures FromF64(d).Canonical() && !FromF64(d).IsNaN() && Size(FromF64(d)) == Scale(d.Exact(), 64)
  {
    FromNumberCanonical(Double(d));
    ScaleZero(64);
    ScaleNegate(d.Magnitude(), 64);
    if d.IsInfinite() {
      ScaleScale(HIDDEN_BIT, 2046, 64);
      ScaleBy4096(HIDDEN_BIT);
      ScaleScale(HIDDEN_BIT, 12, 2098);
    } else if !d.IsZero() {
      FromF64Exact(d);
    }
  }

  /** For every int64 and double in any mix, the byte order of the codes is
      the exact numeric order, and numerically equal numbers share a code. A
      difference always shows at a byte both codes have. */
  lemma NumberOrder(x: Number, y: Number)
    ensures CompareNumbers(x, y) == Less ==> Before(EncodeNumber(x), EncodeNumber(y))
    ensures CompareNumbers(x, y) == Greater ==> Before(EncodeNumber(y), EncodeNumber(x))
    ensures CompareNumbers(x, y) == Equal ==> EncodeNumber(x) == EncodeNumber(y)
  {
    CompareNumbersExact(x, y);
    FromNumberCanonical(x);
    FromNumberCanonical(y);
    var p, q := FromNumber(x), FromNumber(y);
    PartsTotal(p, q);
    if !x.IsNaN() {
      SizeExact(x);
    }
    if !y.IsNaN() {
      SizeExact(y);
    }
    if !x.IsNaN() && !y.IsNaN() {
      ScaleCompare(x.Exact(), y.Exact(), 64);
    }
    if PartsLess(p, q) {
      PartsOrder(p, q);
      if !x.IsNaN() && !y.IsNaN() {
        PartsLessSize(p, q);
      }
    } else if PartsLess(q, p) {
      PartsOrder(q, p);
      if !x.IsNaN() && !y.IsNaN() {
        PartsLessSize(q, p);
      }
    }
  }

  // ---- no code is longer than eleven bytes ----

  /** The width handed to `Stream` does not matter to its result. */
  lemma {:induction false} StreamWidth(last: byte, significand: u64, v: nat, w: nat)
    requires last % 2 == 0 && v <= 64 && w <= 64
    requires LowBitsClear(significand, 64 - v) && LowBitsClear(significand, 64 - w)
    ensures Stream(last, significand, v) == Stream(last, significand, w)
    decreases v
  {
    if significand != 0 {
      SomeWidth(significand, v);
      DropGroupClear(significand, v);
      DropGroupClear(significand, w);
      StreamWidth(TopGroup(significand), DropGroup(significand), Narrower(v), Narrower(w));
    }
  }

  lemma {:induction false} StreamLength(last: byte, significand: u64, width: nat)
    requires last % 2 == 0 && width <= 64 && LowBitsClear(significand, 64 - width)
    ensures |Stream(last, significand, width)| <= 1 + (width + 6) / 7
    decreases width
  {
    if significand != 0 {
      SomeWidth(significand, width);
      DropGroupClear(significand, width);
      StreamLength(TopGroup(significand), DropGroup(significand), Narrower(width));
    }
  }

  /** Dropping top bits is a shift modulo 2^64. */
  lemma ShortRestWraps(significand: u64)
    ensures 2 * (significand % TWO_63) == (2 * significand) % U64_MODULUS
    ensures 4 * (significand % TWO_62) == (4 * significand) % U64_MODULUS
    ensures 8 * (significand % TWO_61) == (8 * significand) % U64_MODULUS
    ensures 16 * (significand % TWO_60) == (16 * significand) % U64_MODULUS
  {
    RemainderIs(2 * significand, significand / TWO_63, 2 * (significand % TWO_63));
    RemainderIs(4 * significand, significand / TWO_62, 4 * (significand % TWO_62));
    RemainderIs(8 * significand, significand / TWO_61, 8 * (significand % TWO_61));
    RemainderIs(16 * significand, significand / TWO_60, 16 * (significand % TWO_60));
  }

  lemma ShortRestStep(m: nat, significand: u64)
    requires 1 <= m < 4
    ensures ShortRest(m, significand) == (2 * ShortRest(m - 1, significand)) % U64_MODULUS
  {
    ShortRestWraps(significand);
    DoubleRemainder(2 * significand);
    DoubleRemainder(4 * significand);
  }

  lemma ClearDouble(significand: u64, j: nat)
    requires j <= 63 && LowBitsClear(significand, j)
    ensures LowBitsClear((2 * significand) % U64_MODULUS, j + 1)
  {
    if significand < TWO_63 {
      assert (2 * significand) % U64_MODULUS == 2 * significand;
    } else {
      Pow2Of64();
      ScaleOne(63);
      ClearBelow(1, 63, significand - TWO_63, j);
      assert (2 * significand) % U64_MODULUS == 2 * (significand - TWO_63);
    }
  }

  /** Shifting `m` fraction bits out leaves `m` more clear bits. */
  lemma {:induction false} ClearShortRest(m: nat, significand: u64, j: nat)
    requires m < 4 && j + m <= 64 && LowBitsClear(significand, j)
    ensures LowBitsClear(ShortRest(m, significand), j + m)
    ensures j + m == 64 ==> ShortRest(m, significand) == 0
  {
    if m > 0 {
      ClearShortRest(m - 1, significand, j);
      ShortRestStep(m, significand);
      ClearDouble(ShortRest(m - 1, significand), j + m - 1);
    }
    if j + m == 64 {
      Pow2Of64();
      ClearSmall(ShortRest(m, significand), 64);
    }
  }

  /** Shifting the first four fraction bits out leaves four more clear bits. */
  lemma ClearNibble(significand: u64, j: nat)
    requires j <= 60 && LowBitsClear(significand, j)
    ensures LowBitsClear(16 * (significand % TWO_60), j + 4)
  {
    ClearShortRest(3, significand, j);
    ShortRestWraps(significand);
    DoubleRemainder(8 * significand);
    ClearDouble(ShortRest(3, significand), j + 3);
  }

  lemma HeadWidth(exponent: int, significand: u64, width: nat)
    requires -1172 < exponent < 1172 && width <= 63 && LowBitsClear(significand, 64 - width)
    requires width <= 52 || width == exponent
    requires -4 < exponent < 4 ==> width >= Abs(exponent)
    ensures |EncodeMagnitude(exponent, significand)| <= 11
  {
    var h, m := HeadOf(exponent, significand), Abs(exponent);
    if m < 4 {
      ClearShortRest(m, significand, 64 - width);
      HeadLength(h, width - m);
    } else if m < 20 || m >= 148 {
      DropGroupClear(significand, width);
      HeadLength(h, Narrower(width));
    } else {
      var rest := 16 * (significand % TWO_60);
      if width >= 4 {
        ClearNibble(significand, 64 - width);
        DropGroupClear(rest, width - 4);
        HeadLength(h, Narrower(width - 4));
      } else {
        LowBitsClearLess(significand, 60, 64 - width);
        ClearNibble(significand, 60);
        DropGroupClear(rest, 0);
        HeadLength(h, 0);
      }
    }
  }

  lemma HeadLength(h: Head, width: nat)
    requires h.last % 2 == 0 && width <= 64 && LowBitsClear(h.rest, 64 - width)
    ensures |h.prefix + Stream(h.last, h.rest, 64)| <= |h.prefix| + 1 + (width + 6) / 7
  {
    StreamWidth(h.last, h.rest, 64, width);
    StreamLength(h.last, h.rest, width);
  }

  /** The eleven-byte buffer is never overrun. */
  lemma EncodeLength(p: Parts)
    requires p.Canonical()
    ensures 1 <= |Encode(p)| <= 11
  {
    if p.IsFinite() {
      if p.FitsDouble() {
        HeadWidth(p.exponent, p.significand, 52);
      } else {
        HeadWidth(p.exponent, p.significand, p.exponent);
      }
    }
  }
}
