/** Exactly when one value's key is a proper prefix of another's. */
module KeyPrefixes {
  import opened Orderings
  import opened Bytes
  import opened Bits
  import opened Numbers
  import opened NumberEncoding
  import opened Results
  import opened Values
  import opened Order
  import opened IndexKey
  import opened KeyOrdering

  /** Strings and byte strings where the longer goes on with a zero byte, and
      vectors that are equal up to a last element of that kind. */
  predicate Opens(a: Value, b: Value)
    decreases a
  {
    match (a, b)
    case (Text(x), Text(y)) => x + [0x00] <= y
    case (Blob(x), Blob(y)) => x + [0x00] <= y
    case (Map(_), Map(_)) => IsVector(a) && IsVector(b) && OpensLast(VectorOf(a), VectorOf(b))
    case _ => false
  }

  predicate OpensLast(x: seq<Value>, y: seq<Value>)
    decreases x
  {
    && |x| == |y| != 0
    && (if |x| == 1 then Opens(x[0], y[0]) else CompareValues(x[0], y[0]) == Equal && OpensLast(x[1..], y[1..]))
  }

  // ---- bytes ----

  lemma {:induction false} BeforeNoPrefix(a: seq<byte>, b: seq<byte>)
    requires Before(a, b)
    ensures !(a <= b) && !(b <= a)
  {
    if a[0] == b[0] {
      BeforeNoPrefix(a[1..], b[1..]);
      PrefixTail(a, b);
      PrefixTail(b, a);
    }
  }

  lemma PrefixTail(a: seq<byte>, b: seq<byte>)
    requires a != [] && b != []
    ensures a <= b <==> a[0] == b[0] && a[1..] <= b[1..]
  {
    PrefixPrepend([a[0]], a[1..], b[1..]);
    assert a == [a[0]] + a[1..] && b == [b[0]] + b[1..];
  }

  /** Separated keys differ at a byte once the smaller is followed by a byte
      below 0xFF. */
  lemma {:induction false} SeparatesBefore(a: seq<byte>, b: seq<byte>, s: seq<byte>, t: seq<byte>)
    requires Separates(a, b) && Gentle(s) && s != []
    ensures Before(a + s, b + t)
  {
    assert (b + t)[1..] == b[1..] + t;
    if a == [] {
      assert a + s == s;
    } else {
      assert (a + s)[1..] == a[1..] + s;
      if a[0] == b[0] {
        SeparatesBefore(a[1..], b[1..], s, t);
      }
    }
  }

  lemma PrefixPrepend(p: seq<byte>, a: seq<byte>, b: seq<byte>)
    ensures p + a <= p + b <==> a <= b
  {
    assert (p + a)[|p|..] == a && (p + b)[|p|..] == b;
    if p + a <= p + b {
      assert a == (p + b)[|p|..][..|a|];
    }
  }

  /** Two keys, each with something behind it that cannot carry it on: a
      prefix only of the same key. */
  lemma PartsPrefix(c: Ordering, x: seq<byte>, y: seq<byte>, s: seq<byte>, t: seq<byte>)
    requires Keeps(c, x, y) && Keeps(c.Reverse(), y, x)
    requires Gentle(s) && s != [] && Gentle(t) && t != []
    ensures x + s <= y + t <==> c == Equal && s <= t
  {
    match c
    case Less =>
      SeparatesBefore(x, y, s, t);
      BeforeNoPrefix(x + s, y + t);
    case Equal => PrefixPrepend(x, s, t);
    case Greater =>
      SeparatesBefore(y, x, t, s);
      BeforeNoPrefix(y + t, x + s);
  }

  lemma NumberParts(x: Number, y: Number, s: seq<byte>, t: seq<byte>)
    ensures EncodeNumber(x) + s <= EncodeNumber(y) + t <==> CompareNumbers(x, y) == Equal && s <= t
  {
    NumberOrder(x, y);
    match CompareNumbers(x, y)
    case Less =>
      BeforeAppend(EncodeNumber(x), EncodeNumber(y), s, t);
      BeforeNoPrefix(EncodeNumber(x) + s, EncodeNumber(y) + t);
    case Equal => PrefixPrepend(EncodeNumber(x), s, t);
    case Greater =>
      BeforeAppend(EncodeNumber(y), EncodeNumber(x), t, s);
      BeforeNoPrefix(EncodeNumber(y) + t, EncodeNumber(x) + s);
  }

  /** Escaped content goes on only where the content goes on with a zero. */
  lemma {:induction false} EscapedPrefix(x: seq<byte>, y: seq<byte>)
    ensures Escaped(x) <= Escaped(y) <==> x == y || x + [0x00] <= y
    ensures Escaped(x) == Escaped(y) <==> x == y
  {
    if x == [] {
      assert x + [0x00] == [0x00];
      if y != [] {
        PrefixTail([0x00], Escaped(y));
        PrefixTail([0x00], y);
      }
    } else if y != [] {
      EscapedPrefix(x[1..], y[1..]);
      assert x == [x[0]] + x[1..] && y == [y[0]] + y[1..];
      assert x + [0x00] == [x[0]] + (x[1..] + [0x00]);
      if x[0] == y[0] {
        PrefixPrepend([x[0]], x[1..] + [0x00], y[1..]);
        PrefixPrepend(if x[0] == 0x00 then [0x00, 0xFF] else [x[0]], Escaped(x[1..]), Escaped(y[1..]));
      } else {
        PrefixTail(x + [0x00], y);
        PrefixTail(Escaped(x), Escaped(y));
      }
    }
  }

  // ---- parts ----

  lemma {:induction false} SegmentsPrefix(xs: seq<Utf8>, ys: seq<Utf8>)
    ensures Segments(xs) <= Segments(ys) ==> Segments(xs) == Segments(ys)
  {
    if xs != [] && ys != [] {
      SegmentsPrefix(xs[1..], ys[1..]);
      var c := LexCompare(xs[0], ys[0]);
      EscapedCompare(xs[0], ys[0]);
      EscapedCompare(ys[0], xs[0]);
      LexReverse(xs[0], ys[0]);
      SegmentsEnd(xs[1..]);
      SegmentsEnd(ys[1..]);
      PartsPrefix(c, Escaped(xs[0]), Escaped(ys[0]), Segments(xs[1..]), Segments(ys[1..]));
      Behind(Escaped(xs[0]), Segments(xs[1..]));
      Behind(Escaped(ys[0]), Segments(ys[1..]));
      PrefixPrepend([ITEM], Escaped(xs[0]) + Segments(xs[1..]), Escaped(ys[0]) + Segments(ys[1..]));
    }
  }

  lemma SegmentsEnd(xs: seq<Utf8>)
    ensures Segments(xs) != []
  {}

  lemma Behind(x: seq<byte>, s: seq<byte>)
    ensures [ITEM] + x + s == [ITEM] + (x + s)
  {}

  lemma KeepsBoth(a: Value, b: Value)
    ensures Keeps(CompareValues(a, b), Key(a), Key(b)) && Keeps(CompareValues(a, b).Reverse(), Key(b), Key(a))
  {
    KeyOrder(a, b);
    KeyOrder(b, a);
  }

  lemma {:induction false} ItemsPrefix(x: seq<Value>, y: seq<Value>)
    ensures Items(x) != [] && Gentle(Items(x)) && Items(y) != [] && Gentle(Items(y))
    ensures Items(x) <= Items(y) ==> Items(x) == Items(y)
    decreases x
  {
    if x != [] && y != [] {
      ItemsPrefix(x[1..], y[1..]);
      KeepsBoth(x[0], y[0]);
      PartsPrefix(CompareValues(x[0], y[0]), Key(x[0]), Key(y[0]), Items(x[1..]), Items(y[1..]));
      Behind(Key(x[0]), Items(x[1..]));
      Behind(Key(y[0]), Items(y[1..]));
      PrefixPrepend([ITEM], Key(x[0]) + Items(x[1..]), Key(y[0]) + Items(y[1..]));
    }
  }

  lemma {:induction false} FieldsPrefix(a: Value, b: Value, xs: seq<Utf8>, ys: seq<Utf8>)
    requires a.Map? && b.Map?
    requires (forall k :: k in xs ==> k in a.fields) && forall k :: k in ys ==> k in b.fields
    ensures Fields(a, xs) != [] && Gentle(Fields(a, xs)) && Fields(b, ys) != [] && Gentle(Fields(b, ys))
    ensures Fields(a, xs) <= Fields(b, ys) ==> Fields(a, xs) == Fields(b, ys)
    decreases |xs|
  {
    if xs != [] && ys != [] {
      var u, v := a.fields[xs[0]], b.fields[ys[0]];
      var s, t := Fields(a, xs[1..]), Fields(b, ys[1..]);
      FieldsPrefix(a, b, xs[1..], ys[1..]);
      KeepsBoth(u, v);
      PartsPrefix(CompareValues(u, v), Key(u), Key(v), s, t);
      EscapedCompare(xs[0], ys[0]);
      EscapedCompare(ys[0], xs[0]);
      LexReverse(xs[0], ys[0]);
      PartsPrefix(LexCompare(xs[0], ys[0]), Escaped(xs[0]), Escaped(ys[0]), Key(u) + s, Key(v) + t);
      FieldShape(a, xs);
      FieldShape(b, ys);
      PrefixPrepend([ITEM], Escaped(xs[0]) + (Key(u) + s), Escaped(ys[0]) + (Key(v) + t));
    }
  }

  lemma FieldShape(v: Value, keys: seq<Utf8>)
    requires v.Map? && keys != [] && forall k :: k in keys ==> k in v.fields
    ensures Fields(v, keys) == [ITEM] + (Escaped(keys[0]) + (Key(v.fields[keys[0]]) + Fields(v, keys[1..])))
  {
    var e, k, s := Escaped(keys[0]), Key(v.fields[keys[0]]), Fields(v, keys[1..]);
    assert [ITEM] + e + k + s == [ITEM] + (e + (k + s));
  }

  // ---- the theorem ----

  lemma {:induction false} ElementsPrefix(x: seq<Value>, y: seq<Value>)
    requires |x| == |y|
    ensures Elements(x) < Elements(y) <==> OpensLast(x, y)
    decreases x, 0
  {
    if |x| == 1 {
      PrefixExactly(x[0], y[0]);
      ElementsOne(x);
      ElementsOne(y);
    } else if |x| > 1 {
      ElementsPrefix(x[1..], y[1..]);
      KeepsBoth(x[0], y[0]);
      PartsPrefix(CompareValues(x[0], y[0]), Key(x[0]), Key(y[0]), Elements(x[1..]), Elements(y[1..]));
    }
  }

  lemma ElementsOne(x: seq<Value>)
    requires |x| == 1
    ensures Elements(x) == Key(x[0])
  {
    assert Key(x[0]) + [] == Key(x[0]) && x[1..] == [];
  }

  lemma {:induction false} VectorPrefix(a: Value, b: Value)
    requires IsVector(a) && IsVector(b)
    ensures Payload(a) < Payload(b) <==> OpensLast(VectorOf(a), VectorOf(b))
    decreases a, 0
  {
    var x, y := VectorOf(a), VectorOf(b);
    NumberParts(Int(|x|), Int(|y|), Elements(x), Elements(y));
    if |x| == |y| {
      ElementsPrefix(x, y);
    }
  }

  /** Other payloads of one type are prefixes only of themselves. */
  lemma ScalarPrefix(a: Value, b: Value)
    requires Rank(a) == Rank(b) && !a.Text? && !a.Blob? && !a.Map?
    ensures Payload(a) <= Payload(b) ==> Payload(a) == Payload(b)
  {
    match a
    case Num(x) =>
      NumberParts(x, b.number, [], []);
      NumberOrder(x, b.number);
      assert EncodeNumber(x) + [] == EncodeNumber(x) && EncodeNumber(b.number) + [] == EncodeNumber(b.number);
    case Reference(x) => SegmentsPrefix(Split(x, SLASH), Split(b.path, SLASH));
    case GeoPoint(s, t) => PointPrefix(s, t, b.latitude, b.longitude);
    case Array(values) => ItemsPrefix(values, b.values);
    case _ =>
  }

  lemma PointPrefix(s: F64, t: F64, u: F64, v: F64)
    ensures
      var x, y := EncodeNumber(Double(s)) + EncodeNumber(Double(t)), EncodeNumber(Double(u)) + EncodeNumber(Double(v));
      x <= y ==> x == y
  {
    NumberParts(Double(s), Double(u), EncodeNumber(Double(t)), EncodeNumber(Double(v)));
    NumberParts(Double(t), Double(v), [], []);
    NumberOrder(Double(s), Double(u));
    NumberOrder(Double(t), Double(v));
    assert EncodeNumber(Double(t)) + [] == EncodeNumber(Double(t)) && EncodeNumber(Double(v)) + [] == EncodeNumber(Double(v));
  }

  lemma SameTagPrefix(a: Value, b: Value)
    ensures Key(a) < Key(b) <==> Rank(a) == Rank(b) && Payload(a) < Payload(b)
  {
    TagRank(a, b);
    PrefixTail(Key(a), Key(b));
    assert Key(a)[1..] == Payload(a) && Key(b)[1..] == Payload(b);
  }

  /** One value's key is a proper prefix of another's if and only if both are
      strings or both byte strings, the longer going on with a zero byte, or
      they are vectors ending in such a pair. */
  lemma {:induction false} PrefixExactly(a: Value, b: Value)
    ensures Key(a) < Key(b) <==> Opens(a, b)
    decreases a, 1
  {
    SameTagPrefix(a, b);
    if Rank(a) == Rank(b) {
      match a
      case Text(x) => EscapedPrefix(x, b.text);
      case Blob(x) => EscapedPrefix(x, b.blob);
      case Map(fields) =>
        if IsVector(a) {
          VectorPrefix(a, b);
        } else {
          FieldsPrefix(a, b, SortedKeys(fields.Keys), SortedKeys(b.fields.Keys));
        }
      case _ => ScalarPrefix(a, b);
    }
  }

  /** Such values exist: "a" against "a\0". */
  lemma NotPrefixFree(x: Utf8)
    ensures Key(Text(x)) < Key(Text(x + [0x00]))
  {
    PrefixExactly(Text(x), Text(x + [0x00]));
  }
}
