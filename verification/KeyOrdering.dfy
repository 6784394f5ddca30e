/** What the index relies on: comparing keys as bytes, as concatenated bytes
    and as hexadecimal strings is comparing values. */
module KeyOrdering {
  import opened Orderings
  import opened Bytes
  import opened Values
  import opened Order
  import opened IndexKey

  // ---- bytes ----

  /** Byte order is value order, in both directions. */
  lemma KeyCompare(a: Value, b: Value)
    ensures CompareValues(a, b) == LexCompare(Key(a), Key(b))
    ensures CompareValues(a, b) == Equal <==> Key(a) == Key(b)
  {
    KeyOrder(a, b);
    KeyOrder(b, a);
    LexEqual(Key(a), Key(b));
    LexReverse(Key(a), Key(b));
    match CompareValues(a, b)
    case Less => SeparatesLess(Key(a), Key(b));
    case Equal =>
    case Greater => SeparatesLess(Key(b), Key(a));
  }

  /** Order survives any suffixes of which the smaller key's is gentle. */
  lemma SuffixOrder(a: Value, b: Value, s: seq<byte>, t: seq<byte>)
    requires CompareValues(a, b) == Less && Gentle(s)
    ensures LexCompare(Key(a) + s, Key(b) + t) == Less
  {
    KeyOrder(a, b);
    SeparatesAppend(Key(a), Key(b), s, t);
    SeparatesLess(Key(a) + s, Key(b) + t);
  }

  /** Keys are not prefix-free, but a key is followed by 0xFF in any key extending
      it, so gentle continuations are told apart. */
  lemma SelfDelimiting(a: Value, b: Value, s: seq<byte>, t: seq<byte>)
    requires Gentle(s) && Gentle(t)
    requires Key(a) + s == Key(b) + t
    ensures Key(a) == Key(b) && s == t
  {
    KeyCompare(a, b);
    KeyOrder(a, b);
    LexEqual(Key(a) + s, Key(b) + t);
    match CompareValues(a, b)
    case Less => SuffixOrder(a, b, s, t);
    case Equal =>
      assert s == (Key(a) + s)[|Key(a)|..];
      assert t == (Key(b) + t)[|Key(b)|..];
    case Greater => SuffixOrder(b, a, t, s);
  }

  // ---- the value order ----

  lemma Reflexive(a: Value)
    ensures CompareValues(a, a) == Equal
  {
    KeyCompare(a, a);
  }

  lemma Transitive(a: Value, b: Value, c: Value)
    requires CompareValues(a, b) != Greater && CompareValues(b, c) != Greater
    ensures CompareValues(a, c) != Greater
    ensures CompareValues(a, c) == Equal ==> CompareValues(a, b) == Equal && CompareValues(b, c) == Equal
  {
    KeyCompare(a, b);
    KeyCompare(b, c);
    KeyCompare(a, c);
    LexTransitive(Key(a), Key(b), Key(c));
  }

  /** Equivalent values compare alike with everything. */
  lemma Congruent(a: Value, b: Value, c: Value)
    requires CompareValues(a, b) == Equal
    ensures CompareValues(a, c) == CompareValues(b, c) && CompareValues(c, a) == CompareValues(c, b)
  {
    KeyCompare(a, b);
    KeyCompare(a, c);
    KeyCompare(b, c);
    KeyCompare(c, a);
    KeyCompare(c, b);
  }

  // ---- composite keys ----

  /** Concatenated keys compare component by component. */
  lemma {:induction false} CompositeOrder(x: seq<Value>, y: seq<Value>)
    ensures CompareSlices(x, y) == LexCompare(Elements(x), Elements(y))
  {
    if x != [] && y != [] {
      var a, b, s, t := x[0], y[0], Elements(x[1..]), Elements(y[1..]);
      CompositeOrder(x[1..], y[1..]);
      KeyOrder(a, b);
      match CompareValues(a, b)
      case Less => SuffixOrder(a, b, s, t);
      case Equal => LexPrepend(Key(a), s, t);
      case Greater =>
        SuffixOrder(b, a, t, s);
        LexReverse(Key(b) + t, Key(a) + s);
    }
  }

  // ---- scan bounds ----

  lemma ScanBounds(v: Value, s: seq<byte>, t: seq<byte>)
    ensures LexCompare([TAG_ABSENT] + s, Key(v)) == Less
    ensures LexCompare(Key(v), [TAG_MAX] + t) == Less
  {}

  // ---- hexadecimal ----

  function HexDigit(n: nat): (d: byte)
    requires n < 16
  {
    if n < 10 then 0x30 + n else 0x57 + n
  }

  /** Two lowercase digits a byte. */
  function Hex(key: seq<byte>): (s: Utf8)
    ensures |s| == 2 * |key|
  {
    if key == [] then [] else [HexDigit(key[0] / 16), HexDigit(key[0] % 16)] + Hex(key[1..])
  }

  lemma {:induction false} HexCompare(x: seq<byte>, y: seq<byte>)
    ensures LexCompare(Hex(x), Hex(y)) == LexCompare(x, y)
  {
    if x != [] && y != [] {
      HexCompare(x[1..], y[1..]);
      var p, q := [HexDigit(x[0] % 16)], [HexDigit(y[0] % 16)];
      assert Hex(x)[1..] == p + Hex(x[1..]) && Hex(y)[1..] == q + Hex(y[1..]);
      assert (p + Hex(x[1..]))[1..] == Hex(x[1..]) && (q + Hex(y[1..]))[1..] == Hex(y[1..]);
    }
  }

  /** The stored string of a value. */
  function IndexString(v: Value): Utf8 {
    Hex(Key(v))
  }

  lemma IndexStringCompare(a: Value, b: Value)
    ensures CompareValues(a, b) == LexCompare(IndexString(a), IndexString(b))
    ensures CompareValues(a, b) == Equal <==> IndexString(a) == IndexString(b)
  {
    KeyCompare(a, b);
    HexCompare(Key(a), Key(b));
    LexEqual(IndexString(a), IndexString(b));
  }
}
