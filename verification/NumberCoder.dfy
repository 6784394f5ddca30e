/** The byte-level encoder: shifts, masks and inverters over an eleven-byte
    buffer, proved against the arithmetic statement of the code. */
module NumberCoder {
  import opened Bytes
  import opened Bits
  import opened NumberParts
  import opened NumberEncoding

  const MAX_LENGTH: nat := 11

  // ---- the bit operations, arithmetically ----

  lemma ShrBy57(x: u64)
    ensures Shr(x, 57) == x / TWO_57
  {
    ShrSplit(x, 57);
    ScaleBy57(Shr(x, 57));
    ScaleBy57(1);
    ScaleOne(57);
  }

  lemma AndEven(y: byte)
    ensures And(y, 0xFE) == 2 * (y / 2)
  {
    AndOnes(y / 2, 7);
  }

  lemma TopGroupBits(significand: u64)
    ensures Shr(significand, 56) < 256
    ensures And(Shr(significand, 56), 0xFE) == TopGroup(significand)
  {
    ShrTwice(significand, 56, 1);
    ShrBy57(significand);
    AndEven(Shr(significand, 56));
  }

  lemma DropGroupBits(significand: u64)
    ensures Shl64(significand, 7) == DropGroup(significand)
  {
    ShlWraps(significand, 7);
    ScaleBy128(significand);
  }

  /** Or-ing in the continuation flag. */
  lemma OrOne(last: byte)
    requires last % 2 == 0
    ensures Or(last, 1) == last + 1
  {
    OrDisjoint(last, 1, 1);
  }

  function Inverted(x: byte, negative: bool): byte {
    if negative then 255 - x else x
  }

  lemma InvertByte(x: byte, negative: bool)
    ensures Xor(x, if negative then 0xFF else 0) == Inverted(x, negative)
  {
    XorOnes(x, 8);
    XorZero(x);
  }

  function Mask(on: bool): byte {
    if on then 0xFF else 0x00
  }

  lemma FirstMask(exponentNegative: bool, negative: bool)
    ensures
      Xor(And(0x7F, Mask(exponentNegative)), Mask(negative))
      == if exponentNegative then (if negative then 0x80 else 0x7F) else Mask(negative)
  {
    AndOnes(0x7F, 8);
    InvertByte(0x7F, negative);
    InvertByte(0, negative);
  }

  lemma NibbleMask(exponentNegative: bool, negative: bool)
    ensures
      Xor(And(0xF0, Mask(exponentNegative)), Mask(negative))
      == if exponentNegative then (if negative then 0x0F else 0xF0) else Mask(negative)
  {
    AndOnes(0xF0, 8);
    InvertByte(0xF0, negative);
    InvertByte(0, negative);
  }

  lemma WholeMask(exponentNegative: bool, negative: bool)
    ensures Xor(And(0xFF, Mask(exponentNegative)), Mask(negative)) == Mask(exponentNegative != negative)
  {
    AndOnes(0xFF, 8);
    InvertByte(0xFF, negative);
    InvertByte(0, negative);
  }

  /** Exclusive-or acts on the two halves of a split separately. */
  lemma {:induction false} XorParts(x: nat, y: nat, k: nat, highX: nat, lowX: nat, highY: nat, lowY: nat,
                                    high: nat, low: nat)
    requires x == Scale(highX, k) + lowX && y == Scale(highY, k) + lowY
    requires lowX < Pow2(k) && lowY < Pow2(k)
    requires Xor(highX, highY) == high && Xor(lowX, lowY) == low
    ensures Xor(x, y) == Scale(high, k) + low
  {
    if k > 0 {
      XorParts(x / 2, y / 2, k - 1, highX, lowX / 2, highY, lowY / 2, high, low / 2);
    }
  }

  lemma XorBelowTop(x: byte)
    requires x >= 0x80
    ensures Xor(x, 0x7F) == 0x17F - x && Xor(x, 0x80) == x - 0x80
  {
    ScaleBy128(1);
    ScaleBy128(0);
    XorOnes(x - 0x80, 7);
    XorZero(x - 0x80);
    XorParts(x, 0x7F, 7, 1, x - 0x80, 0, 0x7F, 1, 0xFF - x);
    XorParts(x, 0x80, 7, 1, x - 0x80, 1, 0, 0, x - 0x80);
  }

  /** The first byte of a long exponent: a negative exponent flips the seven
      bits below the top one, a negative number all eight. */
  lemma FirstByteFlip(x: byte, exponentNegative: bool, negative: bool)
    requires x >= 0x80
    ensures
      Xor(x, Xor(And(0x7F, Mask(exponentNegative)), Mask(negative)))
      == Inverted(if exponentNegative then 0x17F - x else x, negative)
  {
    FirstMask(exponentNegative, negative);
    XorBelowTop(x);
    InvertByte(x, negative);
  }

  lemma XorHighNibble(high: nat, low: nat)
    requires high < 16 && low < 16
    ensures Xor(16 * high + low, 0xF0) == 16 * (15 - high) + low
  {
    XorParts(16 * high + low, 0xF0, 4, high, low, 15, 0, 15 - high, low) by {
      XorOnes(high, 4);
      XorZero(low);
      ScaleBy16(high, 0);
      ScaleBy16(15, 0);
    }
    ScaleBy16(15 - high, 0);
  }

  lemma XorLowNibble(high: nat, low: nat)
    requires high < 16 && low < 16
    ensures Xor(16 * high + low, 0x0F) == 16 * high + (15 - low)
  {
    XorParts(16 * high + low, 0x0F, 4, high, low, 0, 15, high, 15 - low) by {
      XorOnes(low, 4);
      XorZero(high);
      ScaleBy16(high, 0);
      ScaleBy16(0, 0);
    }
    ScaleBy16(high, 0);
  }

  /** The second byte of a middle exponent: the exponent's nibble above the
      fraction's. */
  lemma SecondByteFlip(high: nat, low: nat, exponentNegative: bool, negative: bool)
    requires high < 16 && low < 16
    ensures
      Xor(16 * high + low, Xor(And(0xF0, Mask(exponentNegative)), Mask(negative)))
      == Inverted(16 * (if exponentNegative then 15 - high else high) + low, negative)
  {
    NibbleMask(exponentNegative, negative);
    XorHighNibble(high, low);
    XorLowNibble(high, low);
    InvertByte(16 * high + low, negative);
  }

  lemma WholeByteFlip(x: byte, exponentNegative: bool, negative: bool)
    ensures
      Xor(x, Xor(And(0xFF, Mask(exponentNegative)), Mask(negative)))
      == Inverted(if exponentNegative then 255 - x else x, negative)
  {
    WholeMask(exponentNegative, negative);
    InvertByte(x, exponentNegative != negative);
  }

  /** The fraction bits that ride under a short exponent's marker. */
  lemma ShortTop(m: nat, significand: u64)
    requires m < 4
    ensures And(Shr(significand, 63 - m), Pow2(m + 1) - 2) == 2 * (significand / FirstUnit(m))
    ensures significand / FirstUnit(m) < Pow2(m)
  {
    var y := Shr(significand, 63 - m);
    ShrTwice(significand, 63 - m, 1);
    ShrToUnit(m, significand);
    AndOnes(y / 2, m);
  }

  lemma ShrToUnit(m: nat, significand: u64)
    requires m < 4
    ensures Shr(significand, 64 - m) == significand / FirstUnit(m)
    ensures significand / FirstUnit(m) < Pow2(m)
  {
    ShrTwice(significand, 57, 7 - m);
    ShrBy57(significand);
    ShrSmall(significand / TWO_57, 7 - m);
    DivideUnit(m, significand);
  }

  lemma DivideUnit(m: nat, significand: u64)
    requires m < 4
    ensures
      var x := significand / TWO_57;
      significand / FirstUnit(m) == if m == 0 then x / 128 else if m == 1 then x / 64 else if m == 2 then x / 32 else x / 16
    ensures
      significand / FirstUnit(m) < if m == 0 then 1 else if m == 1 then 2 else if m == 2 then 4 else 8
  {}

  lemma ShrSmall(x: nat, n: nat)
    requires 4 <= n <= 7
    ensures Shr(x, n) == if n == 4 then x / 16 else if n == 5 then x / 32 else if n == 6 then x / 64 else x / 128
  {
    assert Shr(x, 4) == x / 16;
    ShrTwice(x, 4, n - 4);
    assert Shr(x / 16, 1) == x / 32;
    assert Shr(x / 16, 2) == x / 64;
    assert Shr(x / 16, 3) == x / 128;
  }

  /** The fraction bits that ride along in a short exponent's byte. */
  function ShortBits(exponent: nat, significand: u64): nat
    requires exponent < 4
  {
    var start := exponent + 1;
    And(Shr(significand, 64 - start), Pow2(start) - 2)
  }

  /** The bits a negative short exponent flips: `start` to 6. */
  function ShortInverter(exponent: nat): nat
    requires exponent < 4
  {
    var start := exponent + 1;
    And((0xFFFF_FFFF * Pow2(start)) % 0x1_0000_0000, 126)
  }

  /** The byte that holds a short exponent's marker and its fraction bits. */
  function ShortByte(exponent: nat, bits: nat, exponentNegative: bool): nat
    requires exponent < 4
  {
    var marked := Or(Or(0xC0, Pow2(exponent + 1)), bits);
    if exponentNegative then Xor(marked, ShortInverter(exponent)) else marked
  }

  lemma ShortByteAt(exponent: nat, bits: nat, exponentNegative: bool,
                    marker: byte, k: nat, high: nat, mask: nat, flip: nat, result: nat, flipped: nat)
    requires exponent < 4 && Or(0xC0, Pow2(exponent + 1)) == marker && ShortInverter(exponent) == mask
    requires Scale(high, k) == marker && Scale(flip, k) == mask && Scale(flipped, k) == result
    requires bits < Pow2(k) && Xor(high, flip) == flipped
    ensures ShortByte(exponent, bits, exponentNegative) == (if exponentNegative then result else marker) + bits
  {
    ShortMarked(marker, bits, k, high, mask, flip, result, flipped);
  }

  lemma ShortByte0()
    ensures ShortByte(0, 0, false) == 0xC2
  {
    assert Or(0xC0, 2) == 0xC2;
    Marked(0xC2, 2);
  }

  lemma Marked(marker: byte, power: nat)
    requires power == Pow2(1) && Or(0xC0, power) == marker
    ensures ShortByte(0, 0, false) == marker
  {
    OrZero(marker);
  }

  lemma ShortByte1(bits: nat, exponentNegative: bool)
    requires bits < 4
    ensures ShortByte(1, bits, exponentNegative) == (if exponentNegative then 0xB8 else 0xC4) + bits
  {
    ShortByteAt(1, bits, exponentNegative, 0xC4, 2, 0x31, 0x7C, 0x1F, 0xB8, 0x2E) by {
      Inverter(1, 4, 0x7C);
      ShortFlips();
    }
  }

  lemma ShortByte2(bits: nat, exponentNegative: bool)
    requires bits < 8
    ensures ShortByte(2, bits, exponentNegative) == (if exponentNegative then 0xB0 else 0xC8) + bits
  {
    ShortByteAt(2, bits, exponentNegative, 0xC8, 3, 0x19, 0x78, 0x0F, 0xB0, 0x16) by {
      Inverter(2, 8, 0x78);
      ShortFlips();
    }
  }

  lemma ShortByte3(bits: nat, exponentNegative: bool)
    requires bits < 16
    ensures ShortByte(3, bits, exponentNegative) == (if exponentNegative then 0xA0 else 0xD0) + bits
  {
    ShortByteAt(3, bits, exponentNegative, 0xD0, 4, 0x0D, 0x70, 0x07, 0xA0, 0x0A) by {
      Inverter(3, 16, 0x70);
      ShortFlips();
    }
  }

  lemma ShortFlips()
    ensures Xor(0x31, 0x1F) == 0x2E && Xor(0x19, 0x0F) == 0x16 && Xor(0x0D, 0x07) == 0x0A
  {}

  /** The marker byte of a short exponent. */
  lemma ShortLast(exponent: nat, significand: u64, exponentNegative: bool)
    requires exponent < 4 && (exponentNegative ==> exponent > 0)
    ensures
      ShortByte(exponent, ShortBits(exponent, significand), exponentNegative)
      == ShortHead(if exponentNegative then 0 - exponent else exponent, significand).last
  {
    ShortTop(exponent, significand);
    ShortByteMarks(exponent, 2 * (significand / FirstUnit(exponent)), exponentNegative);
  }

  lemma ShortByteMarks(exponent: nat, bits: nat, exponentNegative: bool)
    requires exponent < 4 && (exponentNegative ==> exponent > 0)
    requires bits < if exponent == 0 then 1 else if exponent == 1 then 4 else if exponent == 2 then 8 else 16
    ensures ShortByte(exponent, bits, exponentNegative)
      == ShortMarker(if exponentNegative then 0 - exponent else exponent) + bits
  {
    match exponent
    case 0 => ShortByte0();
    case 1 => ShortByte1(bits, exponentNegative);
    case 2 => ShortByte2(bits, exponentNegative);
    case 3 => ShortByte3(bits, exponentNegative);
  }

  lemma Inverter(exponent: nat, power: nat, mask: byte)
    requires exponent < 4 && power == Pow2(exponent + 1) && power <= 16
    requires mask == 128 - power
    requires power % 2 == 0 && 128 % power == 0
    ensures ShortInverter(exponent) == mask
  {
    assert (0xFFFF_FFFF * power) % 0x1_0000_0000 == 0x1_0000_0000 - power;
    AndLow7(0x1_0000_0000 - power, mask);
  }

  /** Bits below a marker: or-ed in, and untouched by flipping the ones above. */
  lemma ShortMarked(marker: byte, bits: nat, k: nat, high: nat, mask: nat, flip: nat, result: nat, flipped: nat)
    requires Scale(high, k) == marker && Scale(flip, k) == mask && Scale(flipped, k) == result
    requires bits < Pow2(k) && Xor(high, flip) == flipped
    ensures Or(marker, bits) == marker + bits
    ensures Xor(marker + bits, mask) == result + bits
  {
    ShiftBack(high, k);
    OrDisjoint(marker, bits, k);
    XorZero(bits);
    XorParts(marker + bits, mask, k, high, bits, flip, 0, flipped, bits);
  }

  /** Masking with 126 looks at seven bits only. */
  lemma AndLow7(x: nat, low: byte)
    requires x % 128 == low < 128 && low % 2 == 0
    ensures And(x, 126) == low
  {
    ScaleBy128(x / 128);
    AndIgnoresHigh(x, x / 128, low, 126, 7);
    AndOnes(low / 2, 6);
  }

  lemma {:induction false} AndIgnoresHigh(x: nat, high: nat, low: nat, mask: nat, k: nat)
    requires x == Scale(high, k) + low && low < Pow2(k) && mask < Pow2(k)
    ensures And(x, mask) == And(low, mask)
  {
    if k > 0 {
      AndIgnoresHigh(x / 2, high, low / 2, mask / 2, k - 1);
    }
  }

  // ---- the encoder ----

  function Flip(s: seq<byte>, negative: bool): (f: seq<byte>)
    ensures |f| == |s|
  {
    if negative then Complement(s) else s
  }

  lemma FlipCons(x: byte, s: seq<byte>, negative: bool)
    ensures Flip([x] + s, negative) == [Inverted(x, negative)] + Flip(s, negative)
  {}

  lemma FlipConcat(s: seq<byte>, t: seq<byte>, negative: bool)
    ensures Flip(s + t, negative) == Flip(s, negative) + Flip(t, negative)
  {
    var u := s + t;
    forall i | 0 <= i < |u|
      ensures Flip(u, negative)[i] == (Flip(s, negative) + Flip(t, negative))[i]
    {
      assert u[i] == if i < |s| then s[i] else t[i - |s|];
    }
  }

  /** A streamed byte, with or without its continuation flag. */
  lemma StreamByte(last: byte, more: bool, negative: bool)
    requires last % 2 == 0
    ensures Or(last, 1) == last + 1
    ensures
      var x := if more then last + 1 else last;
      And(Xor(x, Mask(negative)), 0xFF) == Inverted(x, negative)
  {
    OrOne(last);
    var x := if more then last + 1 else last;
    InvertByte(x, negative);
    AndOnes(Inverted(x, negative), 8);
  }

  lemma MiddleSecondByte(e: nat, nibble: nat, exponentNegative: bool, negative: bool)
    requires e < 128 && nibble < 16
    ensures
      Xor(Or(And(16 * e, 0xF0), nibble), Xor(And(0xF0, Mask(exponentNegative)), Mask(negative)))
      == Inverted((if exponentNegative then 16 * (15 - e % 16) else 16 * (e % 16)) + nibble, negative)
  {
    AndHighNibble(e);
    ShiftedNibble(e % 16, nibble);
    SecondByteFlip(e % 16, nibble, exponentNegative, negative);
  }

  lemma AndHighNibble(e: nat)
    requires e < 128
    ensures And(16 * e, 0xF0) == 16 * (e % 16)
  {
    ScaleBy16(e, 0);
    ScaleBy16(15, 0);
    AndShift(e, 15, 4);
    assert Scale(e / 16, 4) == 16 * (e / 16) by {
      ScaleBy16(e / 16, 0);
    }
    AndIgnoresHigh(e, e / 16, e % 16, 15, 4);
    AndOnes(e % 16, 4);
    ScaleBy16(e % 16, 0);
  }

  lemma {:induction false} AndShift(a: nat, b: nat, k: nat)
    ensures Scale(a, k) >= 0 && Scale(b, k) >= 0 && And(Scale(a, k), Scale(b, k)) == Scale(And(a, b), k)
  {
    if k > 0 {
      AndShift(a, b, k - 1);
      ScaleZero(k);
    }
  }

  lemma ShiftedNibble(high: nat, low: nat)
    requires high < 16 && low < 16
    ensures Or(16 * high, low) == 16 * high + low
  {
    ScaleBy16(high, 0);
    ShiftBack(high, 4);
    OrDisjoint(16 * high, low, 4);
  }

  lemma AndLowByte(e: nat)
    ensures And(e, 0xFF) == e % 256
  {
    ScaleBy16(e / 256, 0);
    ScaleBy16(e / 256, 4);
    AndIgnoresHigh(e, e / 256, e % 256, 0xFF, 8);
    AndOnes(e % 256, 8);
  }

  lemma LargeSecondByte(e: nat, exponentNegative: bool, negative: bool)
    ensures
      Xor(And(e, 0xFF), Xor(And(0xFF, Mask(exponentNegative)), Mask(negative)))
      == Inverted(if exponentNegative then 255 - e % 256 else e % 256, negative)
  {
    AndLowByte(e);
    WholeByteFlip(e % 256, exponentNegative, negative);
  }

  /** The fraction's first nibble, and the fraction after it. */
  lemma NibbleBits(significand: u64)
    ensures Shr(significand, 60) == significand / TWO_60 < 16
    ensures Shl64(significand, 4) == 16 * (significand % TWO_60)
  {
    ShrTwice(significand, 57, 3);
    ShrBy57(significand);
    assert Shr(significand / TWO_57, 3) == significand / TWO_57 / 8;
    ShlWraps(significand, 4);
    ScaleBy16(significand, 0);
    ShortRestWraps(significand);
  }

  lemma ShortShift(m: nat, significand: u64)
    requires m < 4
    ensures Shl64(significand, m) == ShortRest(m, significand)
  {
    ShortRestWraps(significand);
    ShlWraps(significand, m);
    assert Scale(significand, 1) == 2 * significand && Scale(significand, 2) == 4 * significand;
    assert Scale(significand, 3) == 8 * significand;
  }

  /** Moves the fraction's top seven bits into a byte. */
  method TakeGroup(significand: u64) returns (group: byte, rest: u64)
    ensures group == TopGroup(significand) && rest == DropGroup(significand)
  {
    TopGroupBits(significand);
    DropGroupBits(significand);
    group := And(Shr(significand, 56), 0xFE);
    rest := Shl64(significand, 7);
  }

  /** Writes the whole bytes that precede the fraction, inverted, and returns
      the first fraction-carrying byte and what is left to stream. */
  method WriteHead(parts: Parts, buf: array<byte>) returns (pos: nat, last: byte, rest: u64)
    requires parts.IsFinite() && buf.Length == MAX_LENGTH
    modifies buf
    ensures pos <= 2
    ensures
      var head := HeadOf(parts.exponent, parts.significand);
      buf[..pos] == Flip(head.prefix, parts.negative) && last == head.last && rest == head.rest
  {
    var exponentNegative := parts.exponent < 0;
    var exponent: nat := if exponentNegative then 0 - parts.exponent else parts.exponent;
    if exponent < 4 {
      ShortLast(exponent, parts.significand, exponentNegative);
      ShortShift(exponent, parts.significand);
      pos := 0;
      last := ShortByte(exponent, ShortBits(exponent, parts.significand), exponentNegative);
      rest := Shl64(parts.significand, exponent);
    } else if exponent < 20 {
      WriteSmall(parts, exponent, buf);
      pos := 1;
      last, rest := TakeGroup(parts.significand);
    } else if exponent < 148 {
      WriteMiddle(parts, exponent, buf);
      pos := 2;
      NibbleBits(parts.significand);
      last, rest := TakeGroup(Shl64(parts.significand, 4));
    } else {
      WriteLarge(parts, exponent, buf);
      pos := 2;
      last, rest := TakeGroup(parts.significand);
    }
  }

  method WriteSmall(parts: Parts, exponent: nat, buf: array<byte>)
    requires parts.IsFinite() && exponent == Abs(parts.exponent) && 4 <= exponent < 20 && buf.Length == MAX_LENGTH
    modifies buf
    ensures buf[..1] == Flip(HeadOf(parts.exponent, parts.significand).prefix, parts.negative)
  {
    var first := MarkedByte(0xE0, exponent - 4, 5, parts.exponent < 0, parts.negative);
    buf[0] := first;
  }

  method WriteMiddle(parts: Parts, exponent: nat, buf: array<byte>)
    requires parts.IsFinite() && exponent == Abs(parts.exponent) && 20 <= exponent < 148 && buf.Length == MAX_LENGTH
    modifies buf
    ensures buf[..2] == Flip(HeadOf(parts.exponent, parts.significand).prefix, parts.negative)
  {
    var e := exponent - 20;
    var first := MarkedByte(0xF0, e / 16, 4, parts.exponent < 0, parts.negative);
    var second := NibbleByte(e, parts.significand, parts.exponent < 0, parts.negative);
    buf[0] := first;
    buf[1] := second;
  }

  method WriteLarge(parts: Parts, exponent: nat, buf: array<byte>)
    requires parts.IsFinite() && exponent == Abs(parts.exponent) && 148 <= exponent && buf.Length == MAX_LENGTH
    modifies buf
    ensures buf[..2] == Flip(HeadOf(parts.exponent, parts.significand).prefix, parts.negative)
  {
    var e := exponent - 148;
    var first := MarkedByte(0xF8, e / 256, 3, parts.exponent < 0, parts.negative);
    var second := LowByte(e, parts.exponent < 0, parts.negative);
    buf[0] := first;
    buf[1] := second;
  }

  /** A marker with exponent bits or-ed in below it. */
  method MarkedByte(marker: byte, bits: nat, ghost k: nat, exponentNegative: bool, negative: bool) returns (b: byte)
    requires marker >= 0x80 && LowBitsClear(marker, k) && bits < Pow2(k) && marker + bits < 256
    ensures b == Inverted(if exponentNegative then 0x17F - (marker + bits) else marker + bits, negative)
  {
    OrDisjoint(marker, bits, k);
    FirstByteFlip(marker + bits, exponentNegative, negative);
    b := Xor(Or(marker, bits), Xor(And(0x7F, Mask(exponentNegative)), Mask(negative)));
  }

  /** The low exponent nibble with the fraction's first nibble below it. */
  method NibbleByte(e: nat, significand: u64, exponentNegative: bool, negative: bool) returns (b: byte)
    requires e < 128
    ensures b == Inverted((if exponentNegative then 16 * (15 - e % 16) else 16 * (e % 16)) + significand / TWO_60, negative)
  {
    NibbleBits(significand);
    MiddleSecondByte(e, Shr(significand, 60), exponentNegative, negative);
    var second := Or(And(16 * e, 0xF0), Shr(significand, 60));
    b := Xor(second, Xor(And(0xF0, Mask(exponentNegative)), Mask(negative)));
  }

  method LowByte(e: nat, exponentNegative: bool, negative: bool) returns (b: byte)
    ensures b == Inverted(if exponentNegative then 255 - e % 256 else e % 256, negative)
  {
    LargeSecondByte(e, exponentNegative, negative);
    b := Xor(And(e, 0xFF), Xor(And(0xFF, Mask(exponentNegative)), Mask(negative)));
  }

  /** Streams the remaining fraction into the buffer, seven bits per byte. */
  method StreamBytes(buf: array<byte>, start: nat, first: byte, fraction: u64, negative: bool) returns (out: seq<byte>)
    requires first % 2 == 0 && start + |Stream(first, fraction, 64)| <= buf.Length
    modifies buf
    ensures out == old(buf[..start]) + Flip(Stream(first, fraction, 64), negative)
  {
    var pos: nat, last, significand := start, first, fraction;
    ghost var width: nat := 64;
    ghost var whole := buf[..start] + Flip(Stream(first, fraction, 64), negative);
    while significand != 0
      invariant last % 2 == 0 && width <= 64 && LowBitsClear(significand, 64 - width)
      invariant pos + |Stream(last, significand, width)| <= buf.Length
      invariant buf[..pos] + Flip(Stream(last, significand, width), negative) == whole
      decreases width
    {
      PutStreamed(buf, pos, last, significand, width, negative);
      pos := pos + 1;
      last, significand := TakeGroup(significand);
      width := Narrower(width);
    }
    PutLast(buf, pos, last, width, negative);
    out := buf[..pos + 1];
  }

  /** One byte of the stream that is not its last. */
  method PutStreamed(buf: array<byte>, pos: nat, last: byte, significand: u64, ghost width: nat, negative: bool)
    requires last % 2 == 0 && width <= 64 && LowBitsClear(significand, 64 - width) && significand != 0
    requires pos + |Stream(last, significand, width)| <= buf.Length
    modifies buf
    ensures width > Narrower(width) && LowBitsClear(DropGroup(significand), 64 - Narrower(width))
    ensures
      var rest := Stream(TopGroup(significand), DropGroup(significand), Narrower(width));
      && pos + 1 + |rest| <= buf.Length
      && buf[..pos + 1] + Flip(rest, negative)
      == old(buf[..pos]) + Flip(Stream(last, significand, width), negative)
  {
    ghost var rest := StreamTail(last, significand, width);
    AppendStreamed(buf[..pos], last + 1, rest, negative);
    PutByte(buf, pos, last, true, negative);
  }

  method PutLast(buf: array<byte>, pos: nat, last: byte, ghost width: nat, negative: bool)
    requires last % 2 == 0 && width <= 64 && LowBitsClear(0, 64 - width) && pos < buf.Length
    modifies buf
    ensures buf[..pos + 1] == old(buf[..pos]) + Flip(Stream(last, 0, width), negative)
  {
    assert [last] + [] == Stream(last, 0, width);
    AppendStreamed(buf[..pos], last, [], negative);
    PutByte(buf, pos, last, false, negative);
  }

  /** Writes a byte of the stream, flagged when another follows. */
  method PutByte(buf: array<byte>, pos: nat, last: byte, more: bool, negative: bool)
    requires pos < buf.Length && last % 2 == 0
    modifies buf
    ensures buf[..pos + 1] == old(buf[..pos]) + [Inverted(if more then last + 1 else last, negative)]
  {
    StreamByte(last, more, negative);
    buf[pos] := And(Xor(if more then Or(last, 1) else last, Mask(negative)), 0xFF);
  }

  /** What follows the first byte of an unfinished stream. */
  ghost function StreamTail(last: byte, significand: u64, width: nat): (s: seq<byte>)
    requires last % 2 == 0 && width <= 64 && LowBitsClear(significand, 64 - width) && significand != 0
    ensures width > Narrower(width) && LowBitsClear(DropGroup(significand), 64 - Narrower(width))
    ensures s == Stream(TopGroup(significand), DropGroup(significand), Narrower(width))
    ensures Stream(last, significand, width) == [last + 1] + s
    ensures s[0] - s[0] % 2 == TopGroup(significand)
    ensures width < 7 ==> DropGroup(significand) == 0 ==> s == [TopGroup(significand)]
  {
    SomeWidth(significand, width);
    DropGroupClear(significand, width);
    Stream(TopGroup(significand), DropGroup(significand), Narrower(width))
  }

  /** Encodes into a fixed eleven-byte buffer, the inverters applied byte by
      byte as they are written. */
  method EncodeBytes(parts: Parts) returns (out: seq<byte>)
    requires parts.Canonical()
    ensures out == Encode(parts)
    ensures |out| <= MAX_LENGTH
  {
    EncodeLength(parts);
    if parts.IsZero() {
      return [0x80];
    }
    if parts.IsNaN() {
      return [0x00, 0x60];
    }
    if parts.IsInfinite() {
      return if parts.negative then [0x00, 0x80] else [0xFF];
    }
    var buf := new byte[MAX_LENGTH](_ => 0);
    var pos, last, significand := WriteHead(parts, buf);
    ghost var head := HeadOf(parts.exponent, parts.significand);
    FlipConcat(head.prefix, Stream(head.last, head.rest, 64), parts.negative);
    out := StreamBytes(buf, pos, last, significand, parts.negative);
  }

  /** Writing one inverted byte moves it from the stream to the buffer. */
  lemma AppendStreamed(written: seq<byte>, x: byte, rest: seq<byte>, negative: bool)
    ensures written + Flip([x] + rest, negative) == (written + [Inverted(x, negative)]) + Flip(rest, negative)
  {
    FlipCons(x, rest, negative);
  }
}
