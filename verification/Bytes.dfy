/** Byte strings, their unsigned lexicographic order, and the two strict
    relations the index-key proofs are carried out in. */
module Bytes {
  import opened Orderings

  type byte = x: int | 0 <= x < 256

  /** Unsigned lexicographic comparison, a proper prefix sorting first. */
  function LexCompare(a: seq<byte>, b: seq<byte>): Ordering {
    if a == [] then
      if b == [] then Equal else Less
    else if b == [] then Greater
    else if a[0] != b[0] then CompareInts(a[0], b[0])
    else LexCompare(a[1..], b[1..])
  }

  /** `a` sorts below `b` at a byte both of them have. Appending anything to
      either side leaves this true. */
  ghost predicate Before(a: seq<byte>, b: seq<byte>) {
    && a != [] && b != []
    && (a[0] < b[0] || (a[0] == b[0] && Before(a[1..], b[1..])))
  }

  /** `a` sorts below `b` at a byte both of them have, or `a` ends where `b`
      continues with 0xFF. */
  ghost predicate Separates(a: seq<byte>, b: seq<byte>) {
    && b != []
    && if a == [] then b[0] == 0xFF
       else a[0] < b[0] || (a[0] == b[0] && Separates(a[1..], b[1..]))
  }

  /** What may follow a key: nothing, or something starting below 0xFF. */
  predicate Gentle(s: seq<byte>) {
    s == [] || s[0] < 0xFF
  }

  function Complement(a: seq<byte>): (c: seq<byte>)
    ensures |c| == |a|
    ensures forall i :: 0 <= i < |a| ==> c[i] == 255 - a[i]
  {
    seq(|a|, i requires 0 <= i < |a| => 255 - a[i])
  }

  // ---- LexCompare is a total order whose equality is identity ----

  lemma {:induction false} LexEqual(a: seq<byte>, b: seq<byte>)
    ensures LexCompare(a, b) == Equal <==> a == b
  {
    if a != [] && b != [] && a[0] == b[0] {
      LexEqual(a[1..], b[1..]);
      assert a == [a[0]] + a[1..] && b == [b[0]] + b[1..];
    }
  }

  lemma {:induction false} LexReverse(a: seq<byte>, b: seq<byte>)
    ensures LexCompare(b, a) == LexCompare(a, b).Reverse()
  {
    if a != [] && b != [] && a[0] == b[0] {
      LexReverse(a[1..], b[1..]);
    }
  }

  lemma {:induction false} LexTransitive(a: seq<byte>, b: seq<byte>, c: seq<byte>)
    requires LexCompare(a, b) != Greater && LexCompare(b, c) != Greater
    ensures LexCompare(a, c) != Greater
    ensures LexCompare(a, c) == Equal ==> LexCompare(a, b) == Equal && LexCompare(b, c) == Equal
  {
    if a != [] && b != [] && c != [] && a[0] == b[0] == c[0] {
      LexTransitive(a[1..], b[1..], c[1..]);
    }
  }

  lemma {:induction false} LexPrepend(p: seq<byte>, a: seq<byte>, b: seq<byte>)
    ensures LexCompare(p + a, p + b) == LexCompare(a, b)
  {
    if p == [] {
      assert p + a == a && p + b == b;
    } else {
      assert (p + a)[1..] == p[1..] + a && (p + b)[1..] == p[1..] + b;
      LexPrepend(p[1..], a, b);
    }
  }

  // ---- Before ----

  lemma {:induction false} BeforeAppend(a: seq<byte>, b: seq<byte>, s: seq<byte>, t: seq<byte>)
    requires Before(a, b)
    ensures Before(a + s, b + t)
  {
    assert (a + s)[1..] == a[1..] + s && (b + t)[1..] == b[1..] + t;
    if a[0] == b[0] {
      BeforeAppend(a[1..], b[1..], s, t);
    }
  }

  lemma {:induction false} BeforePrepend(p: seq<byte>, a: seq<byte>, b: seq<byte>)
    requires Before(a, b)
    ensures Before(p + a, p + b)
  {
    if p == [] {
      assert p + a == a && p + b == b;
    } else {
      assert (p + a)[1..] == p[1..] + a && (p + b)[1..] == p[1..] + b;
      BeforePrepend(p[1..], a, b);
    }
  }

  lemma {:induction false} BeforeComplement(a: seq<byte>, b: seq<byte>)
    requires Before(a, b)
    ensures Before(Complement(b), Complement(a))
  {
    assert Complement(a)[1..] == Complement(a[1..]);
    assert Complement(b)[1..] == Complement(b[1..]);
    if a[0] == b[0] {
      BeforeComplement(a[1..], b[1..]);
    }
  }

  lemma {:induction false} BeforeSeparates(a: seq<byte>, b: seq<byte>)
    requires Before(a, b)
    ensures Separates(a, b)
  {
    if a[0] == b[0] {
      BeforeSeparates(a[1..], b[1..]);
    }
  }

  // ---- Separates ----

  /** The heart of composing keys: once separated, two keys stay separated
      whatever gentle bytes follow the smaller and whatever follows the larger. */
  lemma {:induction false} SeparatesAppend(a: seq<byte>, b: seq<byte>, s: seq<byte>, t: seq<byte>)
    requires Separates(a, b) && Gentle(s)
    ensures Separates(a + s, b + t)
  {
    assert (b + t)[1..] == b[1..] + t;
    if a == [] {
      assert a + s == s;
    } else {
      assert (a + s)[1..] == a[1..] + s;
      if a[0] == b[0] {
        SeparatesAppend(a[1..], b[1..], s, t);
      }
    }
  }

  lemma {:induction false} SeparatesPrepend(p: seq<byte>, a: seq<byte>, b: seq<byte>)
    requires Separates(a, b)
    ensures Separates(p + a, p + b)
  {
    if p == [] {
      assert p + a == a && p + b == b;
    } else {
      assert (p + a)[1..] == p[1..] + a && (p + b)[1..] == p[1..] + b;
      SeparatesPrepend(p[1..], a, b);
    }
  }

  lemma {:induction false} SeparatesLess(a: seq<byte>, b: seq<byte>)
    requires Separates(a, b)
    ensures LexCompare(a, b) == Less
  {
    if a != [] && a[0] == b[0] {
      SeparatesLess(a[1..], b[1..]);
    }
  }
}
