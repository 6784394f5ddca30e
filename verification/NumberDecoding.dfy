/** Reading a number back from the front of a byte string. */
module NumberDecoding {
  import opened Bytes
  import opened Bits
  import opened Numbers
  import opened NumberParts
  import opened NumberEncoding
  import opened NumberCoder
  import opened Results

  datatype DecodeError =
    | EmptyInput
    | NegativeZeroExponent
    | TruncatedInput
    | InvalidSentinel
    | InvalidMarker
    | TruncatedContinuation
    | OverlongSequence
    /** A shift by -1, possible only on bytes no encoder writes. */
    | ShiftOverflow

  /** What the bytes up to the first fraction byte say. */
  datatype HeadRead =
    | Special(parts: Parts, consumed: nat)
    | Finite(negative: bool, exponent: int, significand: u64, writeBit: int, current: byte, pos: nat)

  /** The bucket a first byte announces, once sign and exponent sign have been
      inverted away: the distance of the highest bit below bit 5 that differs
      from bit 5, negative when bit 5 is clear. */
  function DecodeMarker(b: byte): int {
    var leadingOne := (b / 32) % 2 == 1;
    var value := (if leadingOne then 255 - b else b) % 64;
    var leader := 5 - HighestBit(value);
    if leadingOne then leader else -leader
  }

  /** Index of the highest set bit of a six-bit value, -1 for zero. */
  function HighestBit(value: nat): int
    requires value < 64
  {
    if value >= 32 then 5 else if value >= 16 then 4 else if value >= 8 then 3
    else if value >= 4 then 2 else if value >= 2 then 1 else value - 1
  }

  /** A fraction byte without its flag, moved to just below `position`. */
  function TrailingBits(value: byte, position: nat): u64
    requires 1 <= position
  {
    Shl64(value - value % 2, position - 1)
  }

  function DecodeHead(bytes: seq<byte>): Result<HeadRead, DecodeError> {
    if bytes == [] then Err(EmptyInput)
    else
      var negative := bytes[0] < 0x80;
      var b0 := Inverted(bytes[0], negative);
      var exponentNegative := (b0 / 64) % 2 == 0;
      ReadByMarker(DecodeMarker(Inverted(b0, exponentNegative)), bytes, negative, exponentNegative, b0)
  }

  function ReadByMarker(marker: int, bytes: seq<byte>, negative: bool, exponentNegative: bool, b0: byte)
    : Result<HeadRead, DecodeError>
  {
    if marker == -4 then
      if exponentNegative then Err(NegativeZeroExponent)
      else Ok(Finite(negative, 0, 0, 64, b0, 1))
    else if -3 <= marker <= -1 then Ok(ReadShort(negative, exponentNegative, 4 + marker, b0))
    else if marker == 1 then ReadSmall(bytes, negative, exponentNegative, b0)
    else if marker == 2 then ReadMiddle(bytes, negative, exponentNegative, b0)
    else if marker == 3 then ReadLarge(bytes, negative, exponentNegative, b0)
    else if marker == 6 then ReadSentinel(bytes, negative, exponentNegative)
    else Err(InvalidMarker)
  }

  /** Exponents 1 to 3: the byte's fraction bits sit under the marker. */
  function ReadShort(negative: bool, exponentNegative: bool, exponent: nat, b0: byte): HeadRead
    requires 1 <= exponent <= 3
  {
    var bits := if exponent == 1 then b0 % 4 else if exponent == 2 then b0 % 8 else b0 % 16;
    Finite(negative, Signed(exponent, exponentNegative), TrailingBits(bits, 64 - exponent), 64 - exponent, b0, 1)
  }

  function ReadSmall(bytes: seq<byte>, negative: bool, exponentNegative: bool, b0: byte): Result<HeadRead, DecodeError> {
    if |bytes| < 2 then Err(TruncatedInput)
    else
      var exponent := Inverted(b0, exponentNegative) % 16 + 4;
      var current := Inverted(bytes[1], negative);
      Ok(Finite(negative, Signed(exponent, exponentNegative), TrailingBits(current, 57), 57, current, 2))
  }

  function ReadMiddle(bytes: seq<byte>, negative: bool, exponentNegative: bool, b0: byte): Result<HeadRead, DecodeError> {
    if |bytes| < 3 then Err(TruncatedInput)
    else
      var b1 := Inverted(bytes[1], negative);
      var exponent := 16 * (Inverted(b0, exponentNegative) % 8) + Inverted(b1, exponentNegative) / 16 + 20;
      var current := Inverted(bytes[2], negative);
      var significand := Or64(TWO_60 * (b1 % 16), TrailingBits(current, 53));
      Ok(Finite(negative, Signed(exponent, exponentNegative), significand, 53, current, 3))
  }

  function ReadLarge(bytes: seq<byte>, negative: bool, exponentNegative: bool, b0: byte): Result<HeadRead, DecodeError> {
    if |bytes| < 3 then Err(TruncatedInput)
    else
      var b1 := Inverted(bytes[1], negative);
      var exponent := 256 * (Inverted(b0, exponentNegative) % 4) + Inverted(b1, exponentNegative) + 148;
      var current := Inverted(bytes[2], negative);
      Ok(Finite(negative, Signed(exponent, exponentNegative), TrailingBits(current, 57), 57, current, 3))
  }

  /** Zero, the infinities and NaN. */
  function ReadSentinel(bytes: seq<byte>, negative: bool, exponentNegative: bool): Result<HeadRead, DecodeError> {
    if exponentNegative then Ok(Special(ZERO, 1))
    else if !negative then Ok(Special(Parts(false, I32_MAX, 0), 1))
    else if |bytes| < 2 then Err(InvalidSentinel)
    else if bytes[1] == 0x80 then Ok(Special(Parts(true, I32_MAX, 0), 2))
    else if bytes[1] == 0x60 then Ok(Special(NAN, 2))
    else Err(InvalidSentinel)
  }

  function Signed(magnitude: nat, negative: bool): int {
    if negative then 0 - magnitude else magnitude
  }

  /** Adding one more group of fraction bits; `None` on a shift by -1. */
  function AddGroup(significand: u64, current: byte, writeBit: int): Option<u64> {
    if writeBit == 0 then None
    else if writeBit > 0 then Some(Or64(significand, TrailingBits(current, writeBit)))
    else Some(Or64(significand, Shr(current - current % 2, 1 - writeBit)))
  }

  /** The groups that follow, as long as bit 0 announces another. */
  function DecodeTail(bytes: seq<byte>, pos: nat, current: byte, writeBit: int, significand: u64, negative: bool)
    : Result<(u64, nat), DecodeError>
    requires 0 <= writeBit
    decreases |bytes| - pos
  {
    if current % 2 == 0 then Ok((significand, pos))
    else if pos >= |bytes| then Err(TruncatedContinuation)
    else
      var next := Inverted(bytes[pos], negative);
      var w := writeBit - 7;
      match AddGroup(significand, next, w)
      case None => Err(ShiftOverflow)
      case Some(s) =>
        if w > 0 then DecodeTail(bytes, pos + 1, next, w, s, negative)
        else if next % 2 == 1 then Err(OverlongSequence)
        else Ok((s, pos + 1))
  }

  function Decode(bytes: seq<byte>): Result<(Parts, nat), DecodeError> {
    match DecodeHead(bytes)
    case Err(e) => Err(e)
    case Ok(Special(parts, consumed)) => Ok((parts, consumed))
    case Ok(Finite(negative, exponent, significand, writeBit, current, pos)) =>
      match DecodeTail(bytes, pos, current, writeBit, significand, negative)
      case Err(e) => Err(e)
      case Ok((s, consumed)) => Ok((Parts(negative, exponent, s), consumed))
  }

  /** The same reading, one byte at a time. */
  method DecodeBytes(bytes: seq<byte>) returns (result: Result<(Parts, nat), DecodeError>)
    ensures result == Decode(bytes)
  {
    var head := DecodeHead(bytes);
    if head.Err? {
      return Err(head.error);
    }
    if head.value.Special? {
      return Ok((head.value.parts, head.value.consumed));
    }
    var negative, pos, current := head.value.negative, head.value.pos, head.value.current;
    var writeBit, significand := head.value.writeBit, head.value.significand;
    while current % 2 == 1
      invariant 0 <= pos && 0 <= writeBit
      invariant
        DecodeTail(bytes, head.value.pos, head.value.current, head.value.writeBit, head.value.significand, negative)
        == DecodeTail(bytes, pos, current, writeBit, significand, negative)
      decreases |bytes| - pos, current % 2
    {
      if pos >= |bytes| {
        return Err(TruncatedContinuation);
      }
      current := Inverted(bytes[pos], negative);
      pos := pos + 1;
      writeBit := writeBit - 7;
      var added := AddGroup(significand, current, writeBit);
      if added.None? {
        return Err(ShiftOverflow);
      }
      significand := added.value;
      if writeBit < 0 {
        writeBit := 0;
        if current % 2 == 1 {
          return Err(OverlongSequence);
        }
      }
    }
    return Ok((Parts(negative, head.value.exponent, significand), pos));
  }

  // ---- decoding inverts encoding ----

  /** The tail being read: the byte in hand announces exactly the rest of the
      stream, of which `significand` already holds the part above `writeBit`. */
  ghost predicate TailReady(significand: u64, rest: u64, writeBit: nat, width: nat) {
    && writeBit <= 64 && width <= writeBit
    && LowBitsClear(significand, writeBit)
    && LowBitsClear(rest, 64 - width)
    && (writeBit % 7 != 0 || width + 7 <= writeBit)
  }

  lemma {:induction false} ShrOfScaled(high: nat, low: nat, k: nat, n: nat)
    requires n <= k
    ensures Scale(high, k) >= 0 && Scale(high, k - n) >= 0
    ensures Shr(Scale(high, k) + low, n) == Scale(high, k - n) + Shr(low, n)
    decreases n
  {
    ShiftBack(high, k);
    if n > 0 {
      ShrOfScaled(high, low / 2, k - 1, n - 1);
    } else {
      ShiftBack(high, k);
    }
  }

  lemma GroupBound(high: nat, w: nat)
    requires high < 128 && w <= 57
    ensures 0 <= Scale(high, w) < Pow2(w + 7) <= U64_MODULUS
  {
    ScaleMonotone(0, high, w);
    ScaleZero(w);
    ScaleMonotone(high, 128, w);
    ScaleBy128(1);
    ScaleScale(1, 7, w);
    ScaleOne(w + 7);
    Pow2Monotone(w + 7, 64);
    Pow2Of64();
  }

  /** What one group contributes. */
  lemma GroupBits(high: nat, w: nat)
    requires high < 128 && 0 < w <= 57
    ensures Scale(high, w) >= 0 && LowBitsClear(Scale(high, w), w)
    ensures TrailingBits(2 * high, w) == Scale(high, w)
  {
    GroupBound(high, w);
    ShiftBack(high, w);
    ScaleTwice(high, w);
    ShlExact(2 * high, w - 1);
    assert (2 * high) - (2 * high) % 2 == 2 * high;
  }

  lemma ScaleTwice(x: int, w: nat)
    requires w > 0
    ensures Scale(2 * x, w - 1) == Scale(x, w)
  {
    ScaleScale(x, 1, w - 1);
  }

  /** What the rest holds is the next group and what the rest after it holds. */
  lemma RestSplit(rest: u64, writeBit: nat)
    requires 7 < writeBit <= 64
    ensures Scale(rest / TWO_57, writeBit - 7) >= 0
    ensures Shr(rest, 64 - writeBit) == Scale(rest / TWO_57, writeBit - 7) + Shr(DropGroup(rest), 71 - writeBit)
  {
    var high, low := rest / TWO_57, rest % TWO_57;
    ScaleBy57(high);
    ShrOfScaled(high, low, 57, 64 - writeBit);
    ScaleBy128(low);
    ShiftBack(low, 7);
    ShrTwice(DropGroup(rest), 7, 64 - writeBit);
  }

  /** The last, partial group: fewer than seven bits are still unwritten. */
  lemma PartialGroup(rest: u64, writeBit: nat)
    requires 0 < writeBit < 7 && LowBitsClear(rest, 64 - writeBit)
    ensures DropGroup(rest) == 0
    ensures Shr(TopGroup(rest), 8 - writeBit) == Shr(rest, 64 - writeBit)
  {
    DropGroupClear(rest, writeBit);
    ClearAll(DropGroup(rest));
    ShrBy57(rest);
    ShrTwice(rest, 57, 7 - writeBit);
    assert Shr(TopGroup(rest), 8 - writeBit) == Shr(rest / TWO_57, 7 - writeBit);
  }

  lemma ClearAll(x: u64)
    requires LowBitsClear(x, 64)
    ensures x == 0
  {
    Pow2Of64();
    ClearSmall(x, 64);
  }

  lemma {:induction false} ShrBound(x: nat, n: nat, k: nat)
    requires n <= k && x < Pow2(k)
    ensures Shr(x, n) < Pow2(k - n)
    decreases n
  {
    if n > 0 {
      ShrBound(x / 2, n - 1, k - 1);
    }
  }

  lemma {:induction false} ClearSum(a: nat, b: nat, k: nat)
    requires LowBitsClear(a, k) && LowBitsClear(b, k)
    ensures LowBitsClear(a + b, k)
    decreases k
  {
    if k > 0 {
      ClearSum(a / 2, b / 2, k - 1);
    }
  }

  /** A full group: the state stays ready, one group further on. */
  lemma FullGroup(significand: u64, rest: u64, writeBit: nat, width: nat) returns (next: u64)
    requires TailReady(significand, rest, writeBit, width) && rest != 0 && writeBit > 7
    ensures next == Or64(significand, TrailingBits(TopGroup(rest), writeBit - 7))
    ensures TailReady(next, DropGroup(rest), writeBit - 7, Narrower(width))
    ensures significand + Shr(rest, 64 - writeBit) == next + Shr(DropGroup(rest), 71 - writeBit)
  {
    var w := writeBit - 7;
    var group := Scale(rest / TWO_57, w);
    next := Or64(significand, TrailingBits(TopGroup(rest), w));
    GroupAdds(significand, rest / TWO_57, w);
    RestSplit(rest, writeBit);
    SomeWidth(rest, width);
    DropGroupClear(rest, width);
    WidthStep(writeBit, width);
    Ready(next, DropGroup(rest), w, Narrower(width));
  }

  lemma Ready(significand: u64, rest: u64, writeBit: nat, width: nat)
    requires writeBit <= 64 && width <= writeBit
    requires LowBitsClear(significand, writeBit) && LowBitsClear(rest, 64 - width)
    requires writeBit % 7 != 0 || width + 7 <= writeBit
    ensures TailReady(significand, rest, writeBit, width)
  {}

  /** Or-ing a group in below clear bits adds it. */
  lemma GroupAdds(significand: u64, high: nat, w: nat)
    requires high < 128 && 0 < w <= 57 && LowBitsClear(significand, w + 7)
    ensures 0 <= Scale(high, w)
    ensures Or64(significand, TrailingBits(2 * high, w)) == significand + Scale(high, w)
    ensures LowBitsClear(significand + Scale(high, w), w)
  {
    var group := Scale(high, w);
    GroupBits(high, w);
    GroupBound(high, w);
    OrDisjoint(significand, group, w + 7);
    LowBitsClearLess(significand, w, w + 7);
    ClearSum(significand, group, w);
  }

  lemma WidthStep(writeBit: nat, width: nat)
    requires 7 < writeBit <= 64 && 0 < width <= writeBit && (writeBit % 7 != 0 || width + 7 <= writeBit)
    ensures Narrower(width) <= writeBit - 7
    ensures (writeBit - 7) % 7 != 0 || Narrower(width) + 7 <= writeBit - 7
  {}

  /** A stream of groups: every byte but the last is flagged. */
  ghost predicate StreamShape(s: seq<byte>) {
    && s != []
    && if |s| == 1 then s[0] % 2 == 0 else s[0] % 2 == 1 && StreamShape(s[1..])
  }

  /** What the groups after the first add to `significand`; `None` if one of
      them does not fit. */
  ghost function FoldGroups(s: seq<byte>, writeBit: nat, significand: u64): Option<u64>
    requires s != []
  {
    if |s| == 1 then Some(significand)
    else if writeBit == 7 || (writeBit < 7 && |s| > 2) then None
    else
      var added := AddGroup(significand, s[1], writeBit - 7);
      FoldGroups(s[1..], if writeBit < 7 then 0 else writeBit - 7, added.value)
  }

  /** The reading loop over a stream folds its groups and stops at its end. */
  lemma {:induction false} TailReads(bytes: seq<byte>, pos: nat, s: seq<byte>, writeBit: nat, significand: u64,
                                     negative: bool, trailing: seq<byte>)
    requires StreamShape(s) && FoldGroups(s, writeBit, significand).Some?
    requires 1 <= pos <= |bytes| && bytes[pos - 1..] == Flip(s, negative) + trailing
    ensures
      DecodeTail(bytes, pos, s[0], writeBit, significand, negative)
      == Ok((FoldGroups(s, writeBit, significand).value, pos - 1 + |s|))
    decreases |s|
  {
    if |s| > 1 {
      NextByte(bytes, pos, s, negative, trailing);
      var added := AddGroup(significand, s[1], writeBit - 7);
      if writeBit > 7 {
        TailReads(bytes, pos + 1, s[1..], writeBit - 7, added.value, negative, trailing);
      }
    }
  }

  /** The next byte of a stream being read. */
  lemma NextByte(bytes: seq<byte>, pos: nat, s: seq<byte>, negative: bool, trailing: seq<byte>)
    requires |s| > 1 && 1 <= pos <= |bytes| && bytes[pos - 1..] == Flip(s, negative) + trailing
    ensures pos < |bytes| && Inverted(bytes[pos], negative) == s[1]
    ensures bytes[pos..] == Flip(s[1..], negative) + trailing
  {
    assert s == [s[0]] + s[1..];
    FlipCons(s[0], s[1..], negative);
    assert bytes[pos..] == bytes[pos - 1..][1..];
    assert bytes[pos] == bytes[pos - 1..][1];
  }

  lemma {:induction false} StreamHasShape(last: byte, rest: u64, width: nat)
    requires last % 2 == 0 && width <= 64 && LowBitsClear(rest, 64 - width)
    ensures StreamShape(Stream(last, rest, width))
    decreases width
  {
    if rest != 0 {
      SomeWidth(rest, width);
      ShapeCons(last + 1, StreamTail(last, rest, width)) by {
        DropGroupClear(rest, width);
        StreamHasShape(TopGroup(rest), DropGroup(rest), Narrower(width));
      }
    }
  }

  lemma ShapeCons(x: byte, tail: seq<byte>)
    requires x % 2 == 1 && StreamShape(tail)
    ensures StreamShape([x] + tail)
  {
    assert ([x] + tail)[1..] == tail;
  }

  lemma FoldMore(x: byte, tail: seq<byte>, writeBit: nat, significand: u64, group: byte, added: u64)
    requires tail != [] && group == tail[0] - tail[0] % 2 && writeBit > 7
    requires added == Or64(significand, TrailingBits(group, writeBit - 7))
    ensures FoldGroups([x] + tail, writeBit, significand) == FoldGroups(tail, writeBit - 7, added)
  {
    assert ([x] + tail)[1..] == tail;
  }

  lemma FoldLast(x: byte, group: byte, writeBit: nat, significand: u64)
    requires group % 2 == 0 && writeBit < 7
    ensures
      FoldGroups([x] + [group], writeBit, significand) == Some(Or64(significand, Shr(group, 8 - writeBit)))
  {
    assert ([x] + [group])[1..] == [group];
  }

  /** The groups of a stream add up to exactly the fraction bits they carry. */
  lemma {:induction false} FoldStream(last: byte, rest: u64, writeBit: nat, width: nat, significand: u64, total: u64)
    requires last % 2 == 0 && TailReady(significand, rest, writeBit, width)
    requires total == significand + Shr(rest, 64 - writeBit)
    ensures FoldGroups(Stream(last, rest, width), writeBit, significand) == Some(total)
    decreases width
  {
    if rest == 0 {
      ShrZero(64 - writeBit);
    } else {
      SomeWidth(rest, width);
      var tail := StreamTail(last, rest, width);
      if writeBit > 7 {
        var next := FullGroup(significand, rest, writeBit, width);
        FoldMore(last + 1, tail, writeBit, significand, TopGroup(rest), next);
        FoldStream(TopGroup(rest), DropGroup(rest), writeBit - 7, Narrower(width), next, total);
      } else {
        LastBits(last, rest, writeBit, width, significand);
      }
    }
  }

  lemma LastBits(last: byte, rest: u64, writeBit: nat, width: nat, significand: u64)
    requires last % 2 == 0 && TailReady(significand, rest, writeBit, width) && rest != 0 && writeBit < 7
    ensures
      FoldGroups(Stream(last, rest, width), writeBit, significand) == Some(significand + Shr(rest, 64 - writeBit))
  {
    SomeWidth(rest, width);
    var tail := StreamTail(last, rest, width);
    LowBitsClearLess(rest, 64 - writeBit, 64 - width);
    PartialGroup(rest, writeBit);
    LastGroup(significand, rest, writeBit);
    assert tail == [TopGroup(rest)];
    FoldLast(last + 1, TopGroup(rest), writeBit, significand);
  }

  lemma {:induction false} ShrZero(n: nat)
    ensures Shr(0, n) == 0
    decreases n
  {
    if n > 0 {
      ShrZero(n - 1);
    }
  }

  lemma LastGroup(significand: u64, rest: u64, writeBit: nat)
    requires writeBit < 7 && LowBitsClear(significand, writeBit)
    ensures Or64(significand, Shr(rest, 64 - writeBit)) == significand + Shr(rest, 64 - writeBit)
  {
    Pow2Of64();
    ShrBound(rest, 64 - writeBit, 64);
    OrDisjoint(significand, Shr(rest, 64 - writeBit), writeBit);
  }

  // ---- the head ----

  /** First bytes whose bit 5 is clear: the highest bit below it counts. */
  lemma MarkerClear(b: byte, k: nat)
    requires (b / 32) % 2 == 0 && k <= 4 && Pow2(k) <= b % 32 < 2 * Pow2(k)
    ensures DecodeMarker(b) == k - 5
  {
    ShortPowers();
    assert b % 64 == b % 32;
    assert k == 0 || k == 1 || k == 2 || k == 3 || k == 4;
  }

  /** First bytes whose bit 5 is set: the highest clear bit below it counts. */
  lemma MarkerSet(b: byte, k: nat)
    requires (b / 32) % 2 == 1 && k <= 4 && Pow2(k) <= 31 - b % 32 < 2 * Pow2(k)
    ensures DecodeMarker(b) == 5 - k
  {
    ShortPowers();
    assert (255 - b) % 64 == 31 - b % 32;
    assert k == 0 || k == 1 || k == 2 || k == 3 || k == 4;
  }

  lemma ShortPowers()
    ensures Pow2(0) == 1 && Pow2(1) == 2 && Pow2(2) == 4 && Pow2(3) == 8 && Pow2(4) == 16 && Pow2(5) == 32
  {}

  /** The bytes of an encoding as the reader sees them. */
  lemma EncodedBytes(p: Parts, trailing: seq<byte>)
    requires p.Canonical() && p.IsFinite()
    ensures
      var h := HeadOf(p.exponent, p.significand);
      var s := Stream(h.last, h.rest, 64);
      var bytes := Encode(p) + trailing;
      && |bytes| >= |h.prefix| + |s|
      && (forall i :: 0 <= i < |h.prefix| ==> bytes[i] == Inverted(h.prefix[i], p.negative))
      && bytes[|h.prefix|] == Inverted(s[0], p.negative)
      && bytes[|h.prefix|..] == Flip(s, p.negative) + trailing
  {
    var h := HeadOf(p.exponent, p.significand);
    var s := Stream(h.last, h.rest, 64);
    FlipConcat(h.prefix, s, p.negative);
    assert Encode(p) == Flip(h.prefix, p.negative) + Flip(s, p.negative);
    var bytes := Encode(p) + trailing;
    assert bytes[|h.prefix|..] == Flip(s, p.negative) + trailing;
    assert bytes[|h.prefix|] == bytes[|h.prefix|..][0];
  }

  /** How the first byte of a finite number is taken apart. */
  lemma HeadDispatch(bytes: seq<byte>, b0: byte, exponentNegative: bool, negative: bool, marker: int)
    requires bytes != [] && bytes[0] == Inverted(b0, negative) && b0 >= 0x80
    requires exponentNegative == (b0 < 0xC0) && DecodeMarker(Inverted(b0, exponentNegative)) == marker
    ensures DecodeHead(bytes) == ReadByMarker(marker, bytes, negative, exponentNegative, b0)
  {
    assert negative == (bytes[0] < 0x80);
    assert b0 == Inverted(bytes[0], negative);
    assert exponentNegative == ((b0 / 64) % 2 == 0);
  }

  lemma ReadSmallBytes(bytes: seq<byte>, m: nat, exponentNegative: bool, negative: bool, b0: byte, current: byte)
    requires 4 <= m < 20 && |bytes| >= 2 && b0 == (if exponentNegative then 0x9F - (m - 4) else 0xE0 + (m - 4))
    requires bytes[1] == Inverted(current, negative)
    ensures
      ReadSmall(bytes, negative, exponentNegative, b0)
      == Ok(Finite(negative, Signed(m, exponentNegative), TrailingBits(current, 57), 57, current, 2))
  {
    assert Inverted(b0, exponentNegative) % 16 + 4 == m;
    assert Inverted(bytes[1], negative) == current;
  }

  lemma MiddleFirst(bytes: seq<byte>, e: nat, exponentNegative: bool, negative: bool, b0: byte)
    requires bytes != [] && bytes[0] == Inverted(b0, negative)
    requires e < 128 && b0 == (if exponentNegative then 0x8F - e / 16 else 0xF0 + e / 16)
    ensures DecodeHead(bytes) == ReadMiddle(bytes, negative, exponentNegative, b0)
  {
    HeadDispatch(bytes, b0, exponentNegative, negative, 2) by {
      ShortPowers();
      MarkerSet(Inverted(b0, exponentNegative), 3);
    }
  }

  lemma ReadMiddleBytes(bytes: seq<byte>, e: nat, nibble: nat, exponentNegative: bool, negative: bool,
                        b0: byte, b1: byte, current: byte)
    requires e < 128 && nibble < 16 && |bytes| >= 3
    requires b0 == if exponentNegative then 0x8F - e / 16 else 0xF0 + e / 16
    requires b1 == (if exponentNegative then 16 * (15 - e % 16) else 16 * (e % 16)) + nibble
    requires bytes[1] == Inverted(b1, negative) && bytes[2] == Inverted(current, negative)
    ensures
      ReadMiddle(bytes, negative, exponentNegative, b0)
      == Ok(Finite(negative, Signed(e + 20, exponentNegative), Or64(TWO_60 * nibble, TrailingBits(current, 53)),
                   53, current, 3))
  {
    MiddleDigits(e, nibble, exponentNegative, b0, b1);
    assert Inverted(bytes[1], negative) == b1 && Inverted(bytes[2], negative) == current;
  }

  lemma MiddleDigits(e: nat, nibble: nat, exponentNegative: bool, b0: byte, b1: byte)
    requires e < 128 && nibble < 16
    requires b0 == if exponentNegative then 0x8F - e / 16 else 0xF0 + e / 16
    requires b1 == (if exponentNegative then 16 * (15 - e % 16) else 16 * (e % 16)) + nibble
    ensures Inverted(b0, exponentNegative) % 8 == e / 16
    ensures Inverted(b1, exponentNegative) / 16 == e % 16 && b1 % 16 == nibble
  {}

  lemma LargeFirst(bytes: seq<byte>, e: nat, exponentNegative: bool, negative: bool, b0: byte)
    requires bytes != [] && bytes[0] == Inverted(b0, negative)
    requires e < 1024 && b0 == (if exponentNegative then 0x87 - e / 256 else 0xF8 + e / 256)
    ensures DecodeHead(bytes) == ReadLarge(bytes, negative, exponentNegative, b0)
  {
    HeadDispatch(bytes, b0, exponentNegative, negative, 3) by {
      ShortPowers();
      MarkerSet(Inverted(b0, exponentNegative), 2);
    }
  }

  lemma ReadLargeBytes(bytes: seq<byte>, e: nat, exponentNegative: bool, negative: bool, b0: byte, current: byte)
    requires e < 1024 && |bytes| >= 3
    requires b0 == if exponentNegative then 0x87 - e / 256 else 0xF8 + e / 256
    requires bytes[1] == Inverted(if exponentNegative then 255 - e % 256 else e % 256, negative)
    requires bytes[2] == Inverted(current, negative)
    ensures
      ReadLarge(bytes, negative, exponentNegative, b0)
      == Ok(Finite(negative, Signed(e + 148, exponentNegative), TrailingBits(current, 57), 57, current, 3))
  {
    assert Inverted(b0, exponentNegative) % 4 == e / 256;
    assert Inverted(Inverted(bytes[1], negative), exponentNegative) == e % 256;
    assert Inverted(bytes[2], negative) == current;
  }

  /** Reading an exponent from 4 to 19. */
  lemma SmallHeadBytes(bytes: seq<byte>, m: nat, exponentNegative: bool, negative: bool, current: byte)
    requires 4 <= m < 20 && |bytes| >= 2
    requires bytes[0] == Inverted(if exponentNegative then 0x9F - (m - 4) else 0xE0 + (m - 4), negative)
    requires bytes[1] == Inverted(current, negative)
    ensures
      DecodeHead(bytes)
      == Ok(Finite(negative, Signed(m, exponentNegative), TrailingBits(current, 57), 57, current, 2))
  {
    var b0 := if exponentNegative then 0x9F - (m - 4) else 0xE0 + (m - 4);
    HeadDispatch(bytes, b0, exponentNegative, negative, 1) by {
      ShortPowers();
      MarkerSet(Inverted(b0, exponentNegative), 4);
    }
    ReadSmallBytes(bytes, m, exponentNegative, negative, b0, current);
  }

  /** Reading an exponent from 20 to 147. */
  lemma MiddleHeadBytes(bytes: seq<byte>, e: nat, nibble: nat, exponentNegative: bool, negative: bool, current: byte)
    requires e < 128 && nibble < 16 && |bytes| >= 3
    requires bytes[0] == Inverted(if exponentNegative then 0x8F - e / 16 else 0xF0 + e / 16, negative)
    requires bytes[1] == Inverted((if exponentNegative then 16 * (15 - e % 16) else 16 * (e % 16)) + nibble, negative)
    requires bytes[2] == Inverted(current, negative)
    ensures
      DecodeHead(bytes)
      == Ok(Finite(negative, Signed(e + 20, exponentNegative), Or64(TWO_60 * nibble, TrailingBits(current, 53)),
                   53, current, 3))
  {
    var b0 := if exponentNegative then 0x8F - e / 16 else 0xF0 + e / 16;
    MiddleFirst(bytes, e, exponentNegative, negative, b0);
    var b1 := (if exponentNegative then 16 * (15 - e % 16) else 16 * (e % 16)) + nibble;
    ReadMiddleBytes(bytes, e, nibble, exponentNegative, negative, b0, b1, current);
  }

  /** Reading an exponent from 148 up. */
  lemma LargeHeadBytes(bytes: seq<byte>, e: nat, exponentNegative: bool, negative: bool, current: byte)
    requires e < 1024 && |bytes| >= 3
    requires bytes[0] == Inverted(if exponentNegative then 0x87 - e / 256 else 0xF8 + e / 256, negative)
    requires bytes[1] == Inverted(if exponentNegative then 255 - e % 256 else e % 256, negative)
    requires bytes[2] == Inverted(current, negative)
    ensures
      DecodeHead(bytes)
      == Ok(Finite(negative, Signed(e + 148, exponentNegative), TrailingBits(current, 57), 57, current, 3))
  {
    var b0 := if exponentNegative then 0x87 - e / 256 else 0xF8 + e / 256;
    LargeFirst(bytes, e, exponentNegative, negative, b0);
    ReadLargeBytes(bytes, e, exponentNegative, negative, b0, current);
  }

  /** Reading an exponent from -3 to 3. */
  lemma ShortHeadBytes(bytes: seq<byte>, exponent: int, negative: bool, bits: nat, flag: nat)
    requires -3 <= exponent <= 3 && bytes != [] && bits < Pow2(Abs(exponent)) && flag < 2
    requires ShortMarker(exponent) + 2 * bits + flag < 256
    requires bytes[0] == Inverted(ShortMarker(exponent) + 2 * bits + flag, negative)
    ensures
      var m := Abs(exponent);
      DecodeHead(bytes)
      == Ok(Finite(negative, exponent, if m == 0 then 0 else TrailingBits(2 * bits, 64 - m), 64 - m,
                   ShortMarker(exponent) + 2 * bits + flag, 1))
  {
    var m: int := Abs(exponent);
    var b0 := ShortMarker(exponent) + 2 * bits + flag;
    ShortMarked(exponent, bits, flag, b0);
    HeadDispatch(bytes, b0, exponent < 0, negative, m - 4);
    if m > 0 {
      ReadShortBits(negative, exponent, b0, bits, flag);
    }
  }

  lemma ShortMarked(exponent: int, bits: nat, flag: nat, b0: byte)
    requires -3 <= exponent <= 3 && bits < Pow2(Abs(exponent)) && flag < 2
    requires b0 == ShortMarker(exponent) + 2 * bits + flag
    ensures b0 >= 0x80 && (exponent < 0) == (b0 < 0xC0)
    ensures DecodeMarker(Inverted(b0, exponent < 0)) == Abs(exponent) - 4
  {
    ShortPowers();
    MarkerClear(Inverted(b0, exponent < 0), Abs(exponent) + 1);
  }

  lemma ReadShortBits(negative: bool, exponent: int, b0: byte, bits: nat, flag: nat)
    requires -3 <= exponent <= 3 && exponent != 0 && bits < Pow2(Abs(exponent)) && flag < 2
    requires b0 == ShortMarker(exponent) + 2 * bits + flag
    ensures
      var m: int := Abs(exponent);
      ReadShort(negative, exponent < 0, m, b0) == Finite(negative, exponent, TrailingBits(2 * bits, 64 - m), 64 - m, b0, 1)
  {
    ShortLow(exponent, b0, bits, flag);
    TrailingFlag(bits, flag, 64 - Abs(exponent));
  }

  lemma ShortLow(exponent: int, b0: byte, bits: nat, flag: nat)
    requires -3 <= exponent <= 3 && exponent != 0 && bits < Pow2(Abs(exponent)) && flag < 2
    requires b0 == ShortMarker(exponent) + 2 * bits + flag
    ensures
      var m: int := Abs(exponent);
      2 * bits + flag == if m == 1 then b0 % 4 else if m == 2 then b0 % 8 else b0 % 16
  {
    ShortPowers();
  }

  /** The bit that says whether more bytes follow is not part of the value. */
  lemma TrailingFlag(bits: nat, flag: nat, position: nat)
    requires flag < 2 && 2 * bits + flag < 256 && 1 <= position
    ensures TrailingBits(2 * bits + flag, position) == TrailingBits(2 * bits, position)
  {
    assert (2 * bits + flag) - (2 * bits + flag) % 2 == 2 * bits;
    assert 2 * bits - (2 * bits) % 2 == 2 * bits;
  }

  /** The top seven bits, read into place. */
  lemma TopBitsRead(significand: u64)
    ensures TrailingBits(TopGroup(significand), 57) == TWO_57 * (significand / TWO_57)
    ensures significand == TWO_57 * (significand / TWO_57) + Shr(DropGroup(significand), 7)
    ensures LowBitsClear(TWO_57 * (significand / TWO_57), 57)
  {
    GroupBits(significand / TWO_57, 57);
    ScaleBy57(significand / TWO_57);
    ScaleBy128(significand % TWO_57);
    ShiftBack(significand % TWO_57, 7);
  }

  // ---- head and stream together ----

  lemma DropGroupLow(significand: u64)
    ensures LowBitsClear(DropGroup(significand), 7)
  {
    ScaleBy128(significand % TWO_57);
    ShiftBack(significand % TWO_57, 7);
  }

  /** The continuation flag does not change the fraction bits read. */
  lemma FlagDropped(last: byte, current: byte, position: nat)
    requires last % 2 == 0 && (current == last || current == last + 1) && position >= 1
    ensures TrailingBits(current, position) == TrailingBits(last, position)
  {
    assert current - current % 2 == last - last % 2;
  }

  /** What the head of an encoding reads as, by bucket. */
  ghost function HeadSignificand(p: Parts): u64
    requires p.IsFinite()
  {
    var m := Abs(p.exponent);
    if m == 0 then 0
    else if m < 4 then TrailingBits(2 * (p.significand / FirstUnit(m)), 64 - m)
    else if 20 <= m < 148 then
      Or64(TWO_60 * (p.significand / TWO_60), TrailingBits(HeadOf(p.exponent, p.significand).last, 53))
    else TrailingBits(TopGroup(p.significand), 57)
  }

  ghost function HeadWriteBit(exponent: int): nat {
    var m := Abs(exponent);
    if m < 4 then 64 - m else if 20 <= m < 148 then 53 else 57
  }

  lemma SmallHead(p: Parts, bytes: seq<byte>, current: byte)
    requires p.IsFinite() && 4 <= Abs(p.exponent) < 20 && |bytes| >= 2
    requires bytes[0] == Inverted(HeadOf(p.exponent, p.significand).prefix[0], p.negative)
    requires bytes[1] == Inverted(current, p.negative)
    requires current == TopGroup(p.significand) || current == TopGroup(p.significand) + 1
    ensures DecodeHead(bytes) == Ok(Finite(p.negative, p.exponent, HeadSignificand(p), 57, current, 2))
  {
    SmallHeadBytes(bytes, Abs(p.exponent), p.exponent < 0, p.negative, current);
    FlagDropped(TopGroup(p.significand), current, 57);
  }

  lemma MiddleHead(p: Parts, bytes: seq<byte>, current: byte)
    requires p.IsFinite() && 20 <= Abs(p.exponent) < 148 && |bytes| >= 3
    requires bytes[0] == Inverted(HeadOf(p.exponent, p.significand).prefix[0], p.negative)
    requires bytes[1] == Inverted(HeadOf(p.exponent, p.significand).prefix[1], p.negative)
    requires bytes[2] == Inverted(current, p.negative)
    requires var last := HeadOf(p.exponent, p.significand).last; current == last || current == last + 1
    ensures DecodeHead(bytes) == Ok(Finite(p.negative, p.exponent, HeadSignificand(p), 53, current, 3))
  {
    MiddleHeadBytes(bytes, Abs(p.exponent) - 20, p.significand / TWO_60, p.exponent < 0, p.negative, current);
    FlagDropped(HeadOf(p.exponent, p.significand).last, current, 53);
  }

  lemma LargeHead(p: Parts, bytes: seq<byte>, current: byte)
    requires p.IsFinite() && 148 <= Abs(p.exponent) && |bytes| >= 3
    requires bytes[0] == Inverted(HeadOf(p.exponent, p.significand).prefix[0], p.negative)
    requires bytes[1] == Inverted(HeadOf(p.exponent, p.significand).prefix[1], p.negative)
    requires bytes[2] == Inverted(current, p.negative)
    requires current == TopGroup(p.significand) || current == TopGroup(p.significand) + 1
    ensures DecodeHead(bytes) == Ok(Finite(p.negative, p.exponent, HeadSignificand(p), 57, current, 3))
  {
    LargeHeadBytes(bytes, Abs(p.exponent) - 148, p.exponent < 0, p.negative, current);
    FlagDropped(TopGroup(p.significand), current, 57);
  }

  lemma ShortHeadRead(p: Parts, bytes: seq<byte>, current: byte)
    requires p.IsFinite() && Abs(p.exponent) < 4 && |bytes| >= 1
    requires bytes[0] == Inverted(current, p.negative)
    requires var last := ShortHead(p.exponent, p.significand).last; current == last || current == last + 1
    ensures DecodeHead(bytes) == Ok(Finite(p.negative, p.exponent, HeadSignificand(p), 64 - Abs(p.exponent), current, 1))
  {
    var m := Abs(p.exponent);
    DivideUnit(m, p.significand);
    ShortPowers();
    ShortHeadBytes(bytes, p.exponent, p.negative, p.significand / FirstUnit(m),
                   current - ShortHead(p.exponent, p.significand).last);
  }

  /** Reading the head of any encoding. */
  lemma HeadReads(p: Parts, trailing: seq<byte>)
    requires p.Canonical() && p.IsFinite()
    ensures
      var h := HeadOf(p.exponent, p.significand);
      DecodeHead(Encode(p) + trailing)
      == Ok(Finite(p.negative, p.exponent, HeadSignificand(p), HeadWriteBit(p.exponent),
                   Stream(h.last, h.rest, 64)[0], |h.prefix| + 1))
  {
    var h, bytes := HeadOf(p.exponent, p.significand), Encode(p) + trailing;
    var current := Stream(h.last, h.rest, 64)[0];
    EncodedBytes(p, trailing);
    var m := Abs(p.exponent);
    if m < 4 {
      ShortHeadRead(p, bytes, current);
    } else if m < 20 {
      SmallHead(p, bytes, current);
    } else if m < 148 {
      MiddleHead(p, bytes, current);
    } else {
      LargeHead(p, bytes, current);
    }
  }

  /** How many fraction bits the streamed rest of a head can still hold. */
  ghost function RestWidth(p: Parts): nat
    requires p.IsFinite()
  {
    if Abs(p.exponent) == 1 then 56 else HeadWriteBit(p.exponent)
  }

  /** Head and rest together hold the whole fraction. */
  lemma HeadValue(p: Parts)
    requires p.Canonical() && p.IsFinite()
    ensures TailReady(HeadSignificand(p), HeadOf(p.exponent, p.significand).rest, HeadWriteBit(p.exponent), RestWidth(p))
    ensures
      p.significand
      == HeadSignificand(p) + Shr(HeadOf(p.exponent, p.significand).rest, 64 - HeadWriteBit(p.exponent))
  {
    var m := Abs(p.exponent);
    if m < 4 {
      ShortValue(p);
    } else if 20 <= m < 148 {
      MiddleValue(p.significand);
    } else {
      TopBitsRead(p.significand);
      DropGroupLow(p.significand);
    }
  }

  lemma ScaleBy8(x: int)
    ensures Scale(x, 3) == 8 * x
  {
    assert Scale(x, 1) == 2 * x;
  }

  lemma NibbleBits60(nibble: nat)
    ensures LowBitsClear(TWO_60 * nibble, 60)
  {
    ScaleBy57(nibble);
    ScaleScale(nibble, 57, 3);
    ScaleBy8(Scale(nibble, 57));
    ShiftBack(nibble, 60);
  }

  lemma MiddleRest(low: nat)
    requires low < TWO_60
    ensures
      var rest := 16 * low;
      && LowBitsClear(DropGroup(rest), 11)
      && Scale(rest / TWO_57, 53) >= 0
      && low == Scale(rest / TWO_57, 53) + Shr(DropGroup(rest), 11)
  {
    var rest := 16 * low;
    ScaleBy16(low, 0);
    ShiftBack(low, 4);
    DropGroupClear(rest, 60);
    RestSplit(rest, 60);
  }

  lemma MiddleValue(significand: u64)
    ensures
      var rest := 16 * (significand % TWO_60);
      var head := Or64(TWO_60 * (significand / TWO_60), TrailingBits(TopGroup(rest), 53));
      && LowBitsClear(head, 53) && LowBitsClear(DropGroup(rest), 11)
      && significand == head + Shr(DropGroup(rest), 11)
  {
    var nibble, low := significand / TWO_60, significand % TWO_60;
    var rest := 16 * low;
    var high := TWO_60 * nibble;
    var group := Scale(rest / TWO_57, 53);
    MiddleRest(low);
    GroupBits(rest / TWO_57, 53);
    GroupBound(rest / TWO_57, 53);
    NibbleBits60(nibble);
    OrAdds(high, group);
  }

  lemma OrAdds(high: u64, group: u64)
    requires LowBitsClear(high, 60) && group < Pow2(60) && LowBitsClear(group, 53)
    ensures Or64(high, group) == high + group && LowBitsClear(high + group, 53)
  {
    OrDisjoint(high, group, 60);
    LowBitsClearLess(high, 53, 60);
    ClearSum(high, group, 53);
  }

  lemma ScaleToUnit(m: nat, x: int)
    requires 1 <= m < 4
    ensures Scale(x, 64 - m) == FirstUnit(m) * x
  {
    ScaleBy57(x);
    ScaleBy16(x, 57);
    assert Scale(x, 62) == 2 * Scale(x, 61);
    assert Scale(x, 63) == 2 * Scale(x, 62);
  }

  lemma ShortTopBits(m: nat, bits: nat)
    requires 1 <= m < 4 && FirstUnit(m) * bits < U64_MODULUS && 2 * bits < 256
    ensures TrailingBits(2 * bits, 64 - m) == FirstUnit(m) * bits
    ensures LowBitsClear(FirstUnit(m) * bits, 64 - m)
  {
    ScaleToUnit(m, bits);
    ShiftBack(bits, 64 - m);
    ScaleTwice(bits, 64 - m);
    ShlExact(2 * bits, 63 - m);
    assert 2 * bits - (2 * bits) % 2 == 2 * bits;
  }

  lemma ShortLowBits(m: nat, significand: u64)
    requires 1 <= m < 4
    ensures Shr(ShortRest(m, significand), m) == significand % FirstUnit(m)
    ensures LowBitsClear(ShortRest(m, significand), m)
  {
    var low := significand % FirstUnit(m);
    ShiftBack(low, m);
    assert Scale(low, 1) == 2 * low;
    assert Scale(low, 2) == 4 * low;
  }

  lemma UnitSplit(m: nat, s: u64)
    requires 1 <= m < 4
    ensures s == FirstUnit(m) * (s / FirstUnit(m)) + s % FirstUnit(m)
    ensures 2 * (s / FirstUnit(m)) < 256
  {}

  lemma ShortValue(p: Parts)
    requires p.Canonical() && p.IsFinite() && Abs(p.exponent) < 4
    ensures
      var m := Abs(p.exponent);
      && TailReady(HeadSignificand(p), ShortRest(m, p.significand), 64 - m, if m == 1 then 56 else 64 - m)
      && p.significand == HeadSignificand(p) + Shr(ShortRest(m, p.significand), m)
  {
    var m := Abs(p.exponent);
    if m == 0 {
      ClearZero(64);
    } else {
      UnitSplit(m, p.significand);
      ShortTopBits(m, p.significand / FirstUnit(m));
      ShortLowBits(m, p.significand);
      if m == 1 {
        ExponentOneRest(p);
      }
    }
  }

  /** With exponent 1 or -1, canonical numbers stop well short of the 63 bits
      that would make the reader shift by -1. */
  lemma ExponentOneRest(p: Parts)
    requires p.Canonical() && p.IsFinite() && Abs(p.exponent) == 1
    ensures LowBitsClear(ShortRest(1, p.significand), 8)
  {
    if p.FitsDouble() {
      ClearShortRest(1, p.significand, 12);
      LowBitsClearLess(ShortRest(1, p.significand), 8, 13);
    } else {
      ClearShortRest(1, p.significand, 63);
      ClearZero(8);
    }
  }

  /** Decoding inverts encoding and consumes exactly the encoded bytes,
      whatever follows them. */
  lemma RoundTrip(p: Parts, trailing: seq<byte>)
    requires p.Canonical()
    ensures Decode(Encode(p) + trailing) == Ok((p, |Encode(p)|))
  {
    if p.IsFinite() {
      var h := HeadOf(p.exponent, p.significand);
      var stream := Stream(h.last, h.rest, 64);
      HeadReads(p, trailing);
      EncodedBytes(p, trailing);
      CodeLength(p, h);
      FiniteReads(p, Encode(p) + trailing, trailing, h, stream);
    } else {
      SentinelRoundTrip(p, trailing);
    }
  }

  lemma CodeLength(p: Parts, h: Head)
    requires p.Canonical() && p.IsFinite() && h == HeadOf(p.exponent, p.significand)
    ensures |Encode(p)| == |h.prefix| + |Stream(h.last, h.rest, 64)|
  {}

  /** The stream after a head folds into the whole fraction. */
  lemma FractionFolds(h: Head, significand: u64, total: u64, writeBit: nat, width: nat)
    requires h.last % 2 == 0 && TailReady(significand, h.rest, writeBit, width)
    requires total == significand + Shr(h.rest, 64 - writeBit)
    requires LowBitsClear(h.rest, 0)
    ensures
      var stream := Stream(h.last, h.rest, 64);
      StreamShape(stream) && FoldGroups(stream, writeBit, significand) == Some(total)
  {
    StreamWidth(h.last, h.rest, 64, width);
    FoldStream(h.last, h.rest, writeBit, width, significand, total);
    StreamHasShape(h.last, h.rest, width);
  }

  /** Head and tail together. */
  lemma Assembled(bytes: seq<byte>, p: Parts, significand: u64, writeBit: nat, stream: seq<byte>, pos: nat,
                  trailing: seq<byte>)
    requires StreamShape(stream) && FoldGroups(stream, writeBit, significand) == Some(p.significand)
    requires 1 <= pos <= |bytes| && bytes[pos - 1..] == Flip(stream, p.negative) + trailing
    requires DecodeHead(bytes) == Ok(Finite(p.negative, p.exponent, significand, writeBit, stream[0], pos))
    ensures Decode(bytes) == Ok((p, pos - 1 + |stream|))
  {
    TailReads(bytes, pos, stream, writeBit, significand, p.negative, trailing);
  }

  lemma FiniteReads(p: Parts, bytes: seq<byte>, trailing: seq<byte>, h: Head, stream: seq<byte>)
    requires p.Canonical() && p.IsFinite() && h == HeadOf(p.exponent, p.significand)
    requires stream == Stream(h.last, h.rest, 64) && |bytes| >= |h.prefix| + |stream|
    requires bytes[|h.prefix|..] == Flip(stream, p.negative) + trailing
    requires DecodeHead(bytes) == Ok(Finite(p.negative, p.exponent, HeadSignificand(p), HeadWriteBit(p.exponent),
                                            stream[0], |h.prefix| + 1))
    ensures Decode(bytes) == Ok((p, |h.prefix| + |stream|))
  {
    HeadValue(p);
    FractionFolds(h, HeadSignificand(p), p.significand, HeadWriteBit(p.exponent), RestWidth(p));
    Assembled(bytes, p, HeadSignificand(p), HeadWriteBit(p.exponent), stream, |h.prefix| + 1, trailing);
  }

  lemma SentinelRoundTrip(p: Parts, trailing: seq<byte>)
    requires p == ZERO || p == NAN || p.IsInfinite()
    ensures Decode(Encode(p) + trailing) == Ok((p, |Encode(p)|))
  {
    var bytes := Encode(p) + trailing;
    assert bytes[0] == Encode(p)[0];
    assert |Encode(p)| == 2 ==> bytes[1] == Encode(p)[1];
  }

  /** Every int64 survives encoding and decoding. */
  lemma I64Survives(value: i64, trailing: seq<byte>)
    ensures
      var code := EncodeNumber(Int(value));
      && Decode(code + trailing).Ok?
      && AsI64(Decode(code + trailing).value.0) == Some(value)
      && Decode(code + trailing).value.1 == |code| <= 11
  {
    FromNumberCanonical(Int(value));
    RoundTrip(FromI64(value), trailing);
    EncodeLength(FromI64(value));
    I64RoundTrip(value);
  }

  /** So does every double, up to NaN payload and zero sign. */
  lemma F64Survives(value: F64, trailing: seq<byte>)
    ensures
      var code := EncodeNumber(Double(value));
      && Decode(code + trailing).Ok?
      && AsF64(Decode(code + trailing).value.0) == Some(Normalized(value))
      && Decode(code + trailing).value.1 == |code| <= 11
  {
    FromNumberCanonical(Double(value));
    RoundTrip(FromF64(value), trailing);
    EncodeLength(FromF64(value));
    F64RoundTrip(value);
  }

  /** No code is a proper prefix of another. */
  lemma PrefixFree(p: Parts, q: Parts)
    requires p.Canonical() && q.Canonical() && Encode(p) <= Encode(q)
    ensures p == q
  {
    RoundTrip(p, Encode(q)[|Encode(p)|..]);
    RoundTrip(q, []);
    assert Encode(p) + Encode(q)[|Encode(p)|..] == Encode(q) == Encode(q) + [];
  }
}
