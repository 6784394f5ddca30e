/** Whole values as index keys: byte strings whose unsigned lexicographic
    order is the order of the values. */
module IndexKey {
  import opened Orderings
  import opened Bytes
  import opened Bits
  import opened Numbers
  import opened NumberEncoding
  import opened Results
  import opened Values
  import opened Order

  const TAG_ABSENT: byte := 0x04
  const TAG_NULL: byte := 0x08
  const TAG_BOOLEAN: byte := 0x10
  const TAG_NUMBER: byte := 0x18
  const TAG_TIMESTAMP: byte := 0x20
  const TAG_STRING: byte := 0x28
  const TAG_BYTES: byte := 0x30
  const TAG_REFERENCE: byte := 0x38
  const TAG_GEO_POINT: byte := 0x40
  const TAG_ARRAY: byte := 0x48
  const TAG_VECTOR: byte := 0x50
  const TAG_MAP: byte := 0x58
  const TAG_MAX: byte := 0xF8

  const END: byte := 0x00
  const ITEM: byte := 0x01

  /** Fixed-width big-endian bytes. */
  function BigEndian(n: nat, width: nat): (s: seq<byte>)
    ensures |s| == width
    decreases width
  {
    if width == 0 then [] else BigEndian(n / 256, width - 1) + [n % 256]
  }

  /** Content with 0x00 escaped as 0x00 0xFF, ended by a bare 0x00. */
  function Escaped(content: seq<byte>): (s: seq<byte>)
    ensures s != []
  {
    if content == [] then [0x00]
    else if content[0] == 0x00 then [0x00, 0xFF] + Escaped(content[1..])
    else [content[0]] + Escaped(content[1..])
  }

  function Segments(segments: seq<Utf8>): (s: seq<byte>)
    ensures Gentle(s)
  {
    if segments == [] then [END] else [ITEM] + Escaped(segments[0]) + Segments(segments[1..])
  }

  /** Flipping the sign bit of an int64 adds 2^63. */
  function TimestampBytes(seconds: i64, nanos: Nanos): seq<byte> {
    BigEndian(seconds + 0x8000_0000_0000_0000, 8) + BigEndian(nanos, 4)
  }

  function Tag(v: Value): (t: byte)
    ensures TAG_ABSENT < t < TAG_MAX
  {
    match v
    case Null => TAG_NULL
    case Boolean(_) => TAG_BOOLEAN
    case Num(_) => TAG_NUMBER
    case Timestamp(_, _) => TAG_TIMESTAMP
    case Text(_) => TAG_STRING
    case Blob(_) => TAG_BYTES
    case Reference(_) => TAG_REFERENCE
    case GeoPoint(_, _) => TAG_GEO_POINT
    case Array(_) => TAG_ARRAY
    case Map(fields) => if VectorValues(fields).Some? then TAG_VECTOR else TAG_MAP
  }

  function Payload(v: Value): seq<byte>
    decreases v, 1
  {
    match v
    case Null => []
    case Boolean(b) => [if b then 1 else 0]
    case Num(x) => EncodeNumber(x)
    case Timestamp(seconds, nanos) => TimestampBytes(seconds, nanos)
    case Text(s) => Escaped(s)
    case Blob(b) => Escaped(b)
    case Reference(r) => Segments(Split(r, SLASH))
    case GeoPoint(latitude, longitude) => EncodeNumber(Double(latitude)) + EncodeNumber(Double(longitude))
    case Array(values) => Items(values)
    case Map(fields) =>
      var elements := VectorValues(fields);
      // The count leads, so shorter vectors are smaller.
      if elements.Some? then EncodeNumber(Int(|elements.value|)) + Elements(elements.value)
      else Fields(v, SortedKeys(fields.Keys))
  }

  /** The index key of a value: its type's tag, then a type-specific payload. */
  function Key(v: Value): (k: seq<byte>)
    decreases v, 2
  {
    [Tag(v)] + Payload(v)
  }

  function Items(values: seq<Value>): seq<byte>
    decreases values, 0
  {
    if values == [] then [END] else [ITEM] + Key(values[0]) + Items(values[1..])
  }

  function Elements(values: seq<Value>): seq<byte>
    decreases values, 0
  {
    if values == [] then [] else Key(values[0]) + Elements(values[1..])
  }

  function Fields(v: Value, keys: seq<Utf8>): seq<byte>
    requires v.Map? && forall k :: k in keys ==> k in v.fields
    decreases v, 0, |keys|
  {
    if keys == [] then [END]
    else [ITEM] + Escaped(keys[0]) + Key(v.fields[keys[0]]) + Fields(v, keys[1..])
  }

  // ---- the parts keep order ----

  /** Separated or equal, as the comparison says. */
  ghost predicate Keeps(c: Ordering, x: seq<byte>, y: seq<byte>) {
    && (c == Less ==> Separates(x, y))
    && (c == Equal ==> x == y)
  }

  lemma {:induction false} BigEndianOrder(n: nat, m: nat, width: nat)
    requires n < m < Pow256(width)
    ensures Before(BigEndian(n, width), BigEndian(m, width))
    decreases width
  {
    if n / 256 < m / 256 {
      BigEndianOrder(n / 256, m / 256, width - 1);
      BeforeAppend(BigEndian(n / 256, width - 1), BigEndian(m / 256, width - 1), [n % 256], [m % 256]);
    } else {
      BeforePrepend(BigEndian(n / 256, width - 1), [n % 256], [m % 256]);
    }
  }

  function Pow256(width: nat): nat {
    if width == 0 then 1 else 256 * Pow256(width - 1)
  }

  lemma {:induction false} EscapedOrder(x: seq<byte>, y: seq<byte>)
    requires LexCompare(x, y) == Less
    ensures Separates(Escaped(x), Escaped(y))
  {
    if x == [] {
      if y[0] == 0x00 {
        assert Escaped(y)[1..] == [0xFF] + Escaped(y[1..]);
      }
    } else if x[0] == y[0] {
      EscapedOrder(x[1..], y[1..]);
      var p := if x[0] == 0x00 then [0x00, 0xFF] else [x[0]];
      SeparatesPrepend(p, Escaped(x[1..]), Escaped(y[1..]));
    }
  }

  /** Comparing head before tail is comparing head bytes before tail bytes. */
  lemma ThenOrder(c: Ordering, x: seq<byte>, y: seq<byte>, d: Ordering, s: seq<byte>, t: seq<byte>)
    requires c == Less ==> Separates(x, y)
    requires c == Equal ==> x == y
    requires d == Less ==> Separates(s, t)
    requires d == Equal ==> s == t
    requires Gentle(s)
    ensures c.Then(d) == Less ==> Separates(x + s, y + t)
    ensures c.Then(d) == Equal ==> x + s == y + t
  {
    if c == Less {
      SeparatesAppend(x, y, s, t);
    } else if c == Equal && d == Less {
      SeparatesPrepend(x, s, t);
    }
  }

  /** The same behind an ITEM marker. */
  lemma ItemThenOrder(c: Ordering, x: seq<byte>, y: seq<byte>, d: Ordering, s: seq<byte>, t: seq<byte>)
    requires c == Less ==> Separates(x, y)
    requires c == Equal ==> x == y
    requires d == Less ==> Separates(s, t)
    requires d == Equal ==> s == t
    requires Gentle(s)
    ensures c.Then(d) == Less ==> Separates([ITEM] + x + s, [ITEM] + y + t)
    ensures c.Then(d) == Equal ==> [ITEM] + x + s == [ITEM] + y + t
  {
    ThenOrder(c, x, y, d, s, t);
    if c.Then(d) == Less {
      SeparatesPrepend([ITEM], x + s, y + t);
      assert [ITEM] + (x + s) == [ITEM] + x + s && [ITEM] + (y + t) == [ITEM] + y + t;
    }
  }

  lemma EscapedCompare(x: seq<byte>, y: seq<byte>)
    ensures LexCompare(x, y) == Less ==> Separates(Escaped(x), Escaped(y))
    ensures LexCompare(x, y) == Equal ==> Escaped(x) == Escaped(y)
    ensures LexCompare(y, x) == LexCompare(x, y).Reverse()
  {
    LexEqual(x, y);
    LexReverse(x, y);
    if LexCompare(x, y) == Less {
      EscapedOrder(x, y);
    }
  }

  lemma {:induction false} SegmentsOrder(xs: seq<Utf8>, ys: seq<Utf8>)
    ensures CompareSegments(xs, ys) == Less ==> Separates(Segments(xs), Segments(ys))
    ensures CompareSegments(xs, ys) == Equal ==> Segments(xs) == Segments(ys)
    ensures CompareSegments(ys, xs) == CompareSegments(xs, ys).Reverse()
  {
    if xs != [] && ys != [] {
      EscapedCompare(xs[0], ys[0]);
      SegmentsOrder(xs[1..], ys[1..]);
      ItemThenOrder(LexCompare(xs[0], ys[0]), Escaped(xs[0]), Escaped(ys[0]),
                    CompareSegments(xs[1..], ys[1..]), Segments(xs[1..]), Segments(ys[1..]));
    }
  }

  lemma NumbersOrder(x: Number, y: Number)
    ensures CompareNumbers(x, y) == Less ==> Separates(EncodeNumber(x), EncodeNumber(y))
    ensures CompareNumbers(x, y) == Equal ==> EncodeNumber(x) == EncodeNumber(y)
    ensures CompareNumbers(y, x) == CompareNumbers(x, y).Reverse()
  {
    NumberOrder(x, y);
    CompareNumbersExact(x, y);
    CompareNumbersExact(y, x);
    if CompareNumbers(x, y) == Less {
      BeforeSeparates(EncodeNumber(x), EncodeNumber(y));
    }
  }

  /** Nothing about a second part can disturb a number before it: number codes
      differ at a byte both have. */
  lemma NumberThen(x: Number, y: Number, d: Ordering, s: seq<byte>, t: seq<byte>)
    requires d == Less ==> Separates(s, t)
    requires d == Equal ==> s == t
    ensures CompareNumbers(x, y).Then(d) == Less ==> Separates(EncodeNumber(x) + s, EncodeNumber(y) + t)
    ensures CompareNumbers(x, y).Then(d) == Equal ==> EncodeNumber(x) + s == EncodeNumber(y) + t
    ensures CompareNumbers(y, x) == CompareNumbers(x, y).Reverse()
  {
    NumbersOrder(x, y);
    NumberOrder(x, y);
    if CompareNumbers(x, y) == Less {
      BeforeAppend(EncodeNumber(x), EncodeNumber(y), s, t);
      BeforeSeparates(EncodeNumber(x) + s, EncodeNumber(y) + t);
    } else if CompareNumbers(x, y) == Equal && d == Less {
      SeparatesPrepend(EncodeNumber(x), s, t);
    }
  }

  lemma FixedWidthOrder(n: nat, m: nat, width: nat)
    requires n < Pow256(width) && m < Pow256(width)
    ensures n < m ==> Separates(BigEndian(n, width), BigEndian(m, width))
  {
    if n < m {
      BigEndianOrder(n, m, width);
      BeforeSeparates(BigEndian(n, width), BigEndian(m, width));
    }
  }

  lemma {:induction false} BigEndianThen(n: nat, m: nat, width: nat, d: Ordering, s: seq<byte>, t: seq<byte>)
    requires n < Pow256(width) && m < Pow256(width)
    requires d == Less ==> Separates(s, t)
    requires d == Equal ==> s == t
    ensures
      var c := CompareInts(n, m);
      && (c.Then(d) == Less ==> Separates(BigEndian(n, width) + s, BigEndian(m, width) + t))
      && (c.Then(d) == Equal ==> BigEndian(n, width) + s == BigEndian(m, width) + t)
  {
    if n < m {
      BigEndianOrder(n, m, width);
      BeforeAppend(BigEndian(n, width), BigEndian(m, width), s, t);
      BeforeSeparates(BigEndian(n, width) + s, BigEndian(m, width) + t);
    } else if n == m && d == Less {
      SeparatesPrepend(BigEndian(n, width), s, t);
    }
  }

  lemma Pow256Values()
    ensures Pow256(4) == 0x1_0000_0000
    ensures Pow256(8) == 0x1_0000_0000_0000_0000
  {
    assert Pow256(6) == 0x1_0000_0000_0000 by {
      assert Pow256(4) == 0x1_0000_0000 by {
        assert Pow256(2) == 0x1_0000;
      }
    }
  }

  lemma TimestampOrder(s: i64, n: Nanos, t: i64, m: Nanos)
    ensures Keeps(CompareInts(s, t).Then(CompareInts(n, m)), TimestampBytes(s, n), TimestampBytes(t, m))
  {
    Pow256Values();
    FixedWidthOrder(n, m, 4);
    BigEndianThen(s + 0x8000_0000_0000_0000, t + 0x8000_0000_0000_0000, 8,
                  CompareInts(n, m), BigEndian(n, 4), BigEndian(m, 4));
  }

  // ---- the order theorem ----

  /** A vector's elements, as `Key` and `CompareValues` see them. */
  function VectorOf(v: Value): seq<Value>
    requires IsVector(v)
  {
    VectorValues(v.fields).value
  }

  lemma TagRank(a: Value, b: Value)
    ensures Rank(a) < Rank(b) <==> Tag(a) < Tag(b)
    ensures Rank(a) == Rank(b) <==> Tag(a) == Tag(b)
  {}

  /** The keys of two values keep the order of the values. */
  lemma {:induction false} KeyOrder(a: Value, b: Value)
    ensures Keeps(CompareValues(a, b), Key(a), Key(b))
    ensures CompareValues(b, a) == CompareValues(a, b).Reverse()
    decreases a, 2
  {
    if Rank(a) == Rank(b) {
      PayloadOrder(a, b);
    }
    TagRank(a, b);
    KeyOfPayload(a, b, CompareValues(a, b));
  }

  lemma KeyOfPayload(a: Value, b: Value, c: Ordering)
    requires Tag(a) != Tag(b) ==> c == CompareInts(Tag(a), Tag(b))
    requires Tag(a) == Tag(b) ==> Keeps(c, Payload(a), Payload(b))
    ensures Keeps(c, Key(a), Key(b))
  {
    SeparatesTag(Tag(a), Payload(a), Payload(b));
  }

  lemma SeparatesTag(tag: byte, x: seq<byte>, y: seq<byte>)
    ensures Separates(x, y) ==> Separates([tag] + x, [tag] + y)
  {
    if Separates(x, y) {
      SeparatesPrepend([tag], x, y);
    }
  }

  lemma {:induction false} PayloadOrder(a: Value, b: Value)
    requires Rank(a) == Rank(b)
    ensures Ordered(a, b)
    decreases a, 1
  {
    match a
    case Array(_) => ArrayOrder(a, b);
    case Map(_) => if IsVector(a) { VectorOrder(a, b); } else { MapOrder(a, b); }
    case _ => ScalarOrder(a, b);
  }

  ghost predicate Ordered(a: Value, b: Value) {
    && Keeps(CompareValues(a, b), Payload(a), Payload(b))
    && CompareValues(b, a) == CompareValues(a, b).Reverse()
  }

  lemma GeoPointOrder(a: Value, b: Value)
    requires a.GeoPoint? && b.GeoPoint?
    ensures Ordered(a, b)
  {
    var s, t := a.longitude, b.longitude;
    NumbersOrder(Double(s), Double(t));
    NumberThen(Double(a.latitude), Double(b.latitude), CompareDoubles(s, t),
               EncodeNumber(Double(s)), EncodeNumber(Double(t)));
  }

  lemma StampOrder(a: Value, b: Value)
    requires a.Timestamp? && b.Timestamp?
    ensures Ordered(a, b)
  {
    TimestampOrder(a.seconds, a.nanos, b.seconds, b.nanos);
  }

  lemma ScalarOrder(a: Value, b: Value)
    requires Rank(a) == Rank(b) && !a.Array? && !a.Map?
    ensures Ordered(a, b)
  {
    match a
    case Null =>
    case Boolean(_) =>
    case Num(x) => NumbersOrder(x, b.number);
    case Timestamp(_, _) => StampOrder(a, b);
    case Text(x) => EscapedCompare(x, b.text);
    case Blob(x) => EscapedCompare(x, b.blob);
    case Reference(x) => SegmentsOrder(Split(x, SLASH), Split(b.path, SLASH));
    case GeoPoint(_, _) => GeoPointOrder(a, b);
  }

  lemma {:induction false} ArrayOrder(a: Value, b: Value)
    requires a.Array? && b.Array?
    ensures Ordered(a, b)
    decreases a, 0
  {
    ItemsOrder(a.values, b.values);
  }

  lemma {:induction false} MapOrder(a: Value, b: Value)
    requires a.Map? && b.Map? && !IsVector(a) && !IsVector(b)
    ensures Ordered(a, b)
    decreases a, 0, |a.fields.Keys| + 1
  {
    FieldsOrder(a, b, SortedKeys(a.fields.Keys), SortedKeys(b.fields.Keys));
  }

  lemma {:induction false} VectorOrder(a: Value, b: Value)
    requires IsVector(a) && IsVector(b)
    ensures Ordered(a, b)
    decreases a, 0
  {
    var x, y := VectorOf(a), VectorOf(b);
    if |x| == |y| {
      ElementsOrder(x, y);
      NumberThen(Int(|x|), Int(|y|), CompareSlices(x, y), Elements(x), Elements(y));
    } else {
      NumberThen(Int(|x|), Int(|y|), Greater, Elements(x), Elements(y));
    }
  }

  lemma {:induction false} ItemsOrder(x: seq<Value>, y: seq<Value>)
    ensures CompareSlices(x, y) == Less ==> Separates(Items(x), Items(y))
    ensures CompareSlices(x, y) == Equal ==> Items(x) == Items(y)
    ensures CompareSlices(y, x) == CompareSlices(x, y).Reverse()
    decreases x, 0
  {
    if x != [] && y != [] {
      KeyOrder(x[0], y[0]);
      ItemsOrder(x[1..], y[1..]);
      ItemsStep(x, y, CompareValues(x[0], y[0]), CompareSlices(x[1..], y[1..]));
    }
  }

  lemma ItemsStep(x: seq<Value>, y: seq<Value>, c: Ordering, d: Ordering)
    requires x != [] && y != []
    requires c == Less ==> Separates(Key(x[0]), Key(y[0]))
    requires c == Equal ==> Key(x[0]) == Key(y[0])
    requires d == Less ==> Separates(Items(x[1..]), Items(y[1..]))
    requires d == Equal ==> Items(x[1..]) == Items(y[1..])
    ensures c.Then(d) == Less ==> Separates(Items(x), Items(y))
    ensures c.Then(d) == Equal ==> Items(x) == Items(y)
  {
    ItemThenOrder(c, Key(x[0]), Key(y[0]), d, Items(x[1..]), Items(y[1..]));
  }

  lemma {:induction false} ElementsOrder(x: seq<Value>, y: seq<Value>)
    requires |x| == |y|
    ensures CompareSlices(x, y) == Less ==> Separates(Elements(x), Elements(y))
    ensures CompareSlices(x, y) == Equal ==> Elements(x) == Elements(y)
    ensures CompareSlices(y, x) == CompareSlices(x, y).Reverse()
    decreases x, 0
  {
    if x != [] {
      KeyOrder(x[0], y[0]);
      ElementsOrder(x[1..], y[1..]);
      ThenOrder(CompareValues(x[0], y[0]), Key(x[0]), Key(y[0]),
                CompareSlices(x[1..], y[1..]), Elements(x[1..]), Elements(y[1..]));
    }
  }

  lemma {:induction false} FieldsOrder(a: Value, b: Value, xs: seq<Utf8>, ys: seq<Utf8>)
    requires a.Map? && b.Map?
    requires forall k :: k in xs ==> k in a.fields
    requires forall k :: k in ys ==> k in b.fields
    ensures CompareFields(a, b, xs, ys) == Less ==> Separates(Fields(a, xs), Fields(b, ys))
    ensures CompareFields(a, b, xs, ys) == Equal ==> Fields(a, xs) == Fields(b, ys)
    ensures CompareFields(b, a, ys, xs) == CompareFields(a, b, xs, ys).Reverse()
    decreases a, 0, |xs|
  {
    if xs != [] && ys != [] {
      var u, v := a.fields[xs[0]], b.fields[ys[0]];
      EscapedCompare(xs[0], ys[0]);
      KeyOrder(u, v);
      FieldsOrder(a, b, xs[1..], ys[1..]);
      FieldsStep(a, b, xs, ys, LexCompare(xs[0], ys[0]), CompareValues(u, v), CompareFields(a, b, xs[1..], ys[1..]));
    }
  }

  lemma FieldsStep(a: Value, b: Value, xs: seq<Utf8>, ys: seq<Utf8>, c: Ordering, d: Ordering, e: Ordering)
    requires a.Map? && b.Map? && xs != [] && ys != []
    requires forall k :: k in xs ==> k in a.fields
    requires forall k :: k in ys ==> k in b.fields
    requires c == Less ==> Separates(Escaped(xs[0]), Escaped(ys[0]))
    requires c == Equal ==> Escaped(xs[0]) == Escaped(ys[0])
    requires d == Less ==> Separates(Key(a.fields[xs[0]]), Key(b.fields[ys[0]]))
    requires d == Equal ==> Key(a.fields[xs[0]]) == Key(b.fields[ys[0]])
    requires e == Less ==> Separates(Fields(a, xs[1..]), Fields(b, ys[1..]))
    requires e == Equal ==> Fields(a, xs[1..]) == Fields(b, ys[1..])
    ensures c.Then(d).Then(e) == Less ==> Separates(Fields(a, xs), Fields(b, ys))
    ensures c.Then(d).Then(e) == Equal ==> Fields(a, xs) == Fields(b, ys)
  {
    var k, l := Key(a.fields[xs[0]]), Key(b.fields[ys[0]]);
    var s, t := Fields(a, xs[1..]), Fields(b, ys[1..]);
    FieldsGentle(a, xs[1..]);
    ThenOrder(d, k, l, e, s, t);
    ItemThenOrder(c, Escaped(xs[0]), Escaped(ys[0]), d.Then(e), k + s, l + t);
    assert [ITEM] + Escaped(xs[0]) + (k + s) == [ITEM] + Escaped(xs[0]) + k + s;
    assert [ITEM] + Escaped(ys[0]) + (l + t) == [ITEM] + Escaped(ys[0]) + l + t;
  }

  lemma FieldsGentle(v: Value, keys: seq<Utf8>)
    requires v.Map? && forall k :: k in keys ==> k in v.fields
    ensures Gentle(Fields(v, keys))
  {}
}
