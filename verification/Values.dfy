/** Stored values, and the two library operations their order rests on:
    splitting a path at its separator and sorting keys bytewise. */
module Values {
  import opened Orderings
  import opened Bytes
  import opened Bits
  import opened Numbers
  import opened Results

  /** Strings are their UTF-8 bytes: that is what Rust's `str` compares. */
  type Utf8 = seq<byte>

  type Nanos = x: int | 0 <= x < 1_000_000_000

  datatype Value =
    | Null
    | Boolean(b: bool)
    | Num(number: Number)
    | Timestamp(seconds: i64, nanos: Nanos)
    | Text(text: Utf8)
    | Blob(blob: seq<byte>)
    | Reference(path: Utf8)
    | GeoPoint(latitude: F64, longitude: F64)
    | Array(values: seq<Value>)
    | Map(fields: map<Utf8, Value>)

  const SLASH: byte := 0x2F

  /** "__type__", "__vector__" and "value". */
  const TYPE_FIELD: Utf8 := [0x5F, 0x5F, 0x74, 0x79, 0x70, 0x65, 0x5F, 0x5F]
  const VECTOR_TYPE: Utf8 := [0x5F, 0x5F, 0x76, 0x65, 0x63, 0x74, 0x6F, 0x72, 0x5F, 0x5F]
  const VALUE_FIELD: Utf8 := [0x76, 0x61, 0x6C, 0x75, 0x65]

  /** The elements of a map that has the shape of a vector. The bound on the
      dimension holds of every Rust `Vec`; it makes the cast to int64 exact. */
  function VectorValues(fields: map<Utf8, Value>): (elements: Option<seq<Value>>)
    ensures elements.Some? ==> |elements.value| < 0x8000_0000_0000_0000
  {
    if TYPE_FIELD in fields && fields[TYPE_FIELD] == Text(VECTOR_TYPE)
       && VALUE_FIELD in fields && fields[VALUE_FIELD].Array?
       && |fields[VALUE_FIELD].values| < 0x8000_0000_0000_0000
    then Some(fields[VALUE_FIELD].values)
    else None
  }

  predicate IsVector(v: Value) {
    v.Map? && VectorValues(v.fields).Some?
  }

  // ---- splitting ----

  /** `str::split` on one byte: always at least one segment. */
  function Split(s: Utf8, separator: byte): (segments: seq<Utf8>)
    ensures segments != []
  {
    if s == [] then [[]]
    else if s[0] == separator then [[]] + Split(s[1..], separator)
    else
      var rest := Split(s[1..], separator);
      [[s[0]] + rest[0]] + rest[1..]
  }

  function Join(segments: seq<Utf8>, separator: byte): Utf8
    requires segments != []
  {
    if |segments| == 1 then segments[0] else segments[0] + [separator] + Join(segments[1..], separator)
  }

  lemma {:induction false} JoinSplit(s: Utf8, separator: byte)
    ensures Join(Split(s, separator), separator) == s
  {
    if s != [] {
      JoinSplit(s[1..], separator);
      var rest := Split(s[1..], separator);
      if s[0] == separator {
        assert ([[]] + rest)[1..] == rest;
        assert s == [] + [separator] + s[1..];
      } else {
        var segments := [[s[0]] + rest[0]] + rest[1..];
        assert segments[1..] == rest[1..];
        assert s == [s[0]] + s[1..];
        if |rest| > 1 {
          var tail := Join(rest[1..], separator);
          assert ([s[0]] + rest[0]) + [separator] + tail == [s[0]] + (rest[0] + [separator] + tail);
        }
      }
    }
  }

  /** Splitting takes apart exactly what joining separator-free segments made. */
  lemma {:induction false} SplitJoin(segments: seq<Utf8>, separator: byte)
    requires segments != [] && forall s :: s in segments ==> separator !in s
    ensures Split(Join(segments, separator), separator) == segments
    decreases |segments|, |segments[0]|
  {
    var first, rest := segments[0], segments[1..];
    if first == [] {
      if rest == [] {
        assert segments == [[]];
      } else {
        SplitJoin(rest, separator);
        assert Join(segments, separator)[1..] == Join(rest, separator);
        assert segments == [[]] + rest;
      }
    } else {
      var shorter := [first[1..]] + rest;
      assert shorter[1..] == rest;
      assert first[0] in first;
      assert forall s :: s in shorter ==> separator !in s by {
        assert forall b :: b in first[1..] ==> b in first;
      }
      SplitJoin(shorter, separator);
      assert Join(segments, separator) == [first[0]] + Join(shorter, separator);
      assert first == [first[0]] + first[1..];
      assert segments == [first] + rest;
    }
  }

  // ---- sorting keys ----

  predicate StrictlySorted(keys: seq<Utf8>) {
    forall i, j :: 0 <= i < j < |keys| ==> LexCompare(keys[i], keys[j]) == Less
  }

  predicate IsLeast(k: Utf8, keys: set<Utf8>) {
    k in keys && forall x :: x in keys ==> LexCompare(k, x) != Greater
  }

  lemma {:induction false} LeastExists(keys: set<Utf8>)
    requires keys != {}
    ensures exists k :: IsLeast(k, keys)
    decreases |keys|
  {
    var k :| k in keys;
    if keys == {k} {
      LexEqual(k, k);
      assert IsLeast(k, keys);
    } else {
      LeastExists(keys - {k});
      var m :| IsLeast(m, keys - {k});
      var least := if LexCompare(k, m) == Greater then m else k;
      forall x | x in keys
        ensures LexCompare(least, x) != Greater
      {
        LexEqual(k, k);
        LexReverse(k, m);
        if x != k && least == k {
          LexTransitive(k, m, x);
        }
      }
      assert IsLeast(least, keys);
    }
  }

  lemma LeastUnique(keys: set<Utf8>)
    ensures forall j, k :: IsLeast(j, keys) && IsLeast(k, keys) ==> j == k
  {
    forall j, k | IsLeast(j, keys) && IsLeast(k, keys)
      ensures j == k
    {
      LexReverse(j, k);
      LexEqual(j, k);
    }
  }

  function Least(keys: set<Utf8>): (k: Utf8)
    requires keys != {}
    ensures IsLeast(k, keys)
  {
    LeastExists(keys);
    LeastUnique(keys);
    var k :| k in keys && IsLeast(k, keys);
    k
  }

  /** The keys of a map in the order `sort_unstable` puts them. */
  function SortedKeys(keys: set<Utf8>): (sorted: seq<Utf8>)
    ensures forall k :: k in sorted <==> k in keys
    ensures |sorted| == |keys|
    decreases |keys|
  {
    if keys == {} then []
    else
      var k := Least(keys);
      [k] + SortedKeys(keys - {k})
  }

  lemma {:induction false} SortedKeysStrict(keys: set<Utf8>)
    ensures StrictlySorted(SortedKeys(keys))
    decreases |keys|
  {
    if keys != {} {
      var k := Least(keys);
      var rest := SortedKeys(keys - {k});
      SortedKeysStrict(keys - {k});
      forall i, j | 0 <= i < j < |rest| + 1
        ensures LexCompare(([k] + rest)[i], ([k] + rest)[j]) == Less
      {
        var x := rest[j - 1];
        assert x in rest;
        LexEqual(k, x);
      }
    }
  }
}
