/** Firestore's total order over values: type rank first, then a comparison
    within the type. */
module Order {
  import opened Orderings
  import opened Bytes
  import opened Numbers
  import opened Results
  import opened Values

  /** Cross-type rank; the gaps are types the engine does not support. */
  function Rank(v: Value): nat {
    match v
    case Null => 0
    case Boolean(_) => 2
    case Num(_) => 3
    case Timestamp(_, _) => 4
    case Text(_) => 6
    case Blob(_) => 7
    case Reference(_) => 9
    case GeoPoint(_, _) => 11
    case Array(_) => 13
    case Map(fields) => if VectorValues(fields).Some? then 14 else 15
  }

  predicate SameTypeRank(a: Value, b: Value) {
    Rank(a) == Rank(b)
  }

  function CompareBools(a: bool, b: bool): Ordering {
    if a == b then Equal else if b then Less else Greater
  }

  /** Paths compare segment by segment, not as flat strings. */
  function CompareSegments(xs: seq<Utf8>, ys: seq<Utf8>): Ordering {
    if xs == [] then (if ys == [] then Equal else Less)
    else if ys == [] then Greater
    else LexCompare(xs[0], ys[0]).Then(CompareSegments(xs[1..], ys[1..]))
  }

  function CompareReferences(x: Utf8, y: Utf8): Ordering {
    CompareSegments(Split(x, SLASH), Split(y, SLASH))
  }

  function CompareValues(a: Value, b: Value): Ordering
    decreases a, 2
  {
    if Rank(a) != Rank(b) then CompareInts(Rank(a), Rank(b))
    else
      match (a, b)
      case (Null, _) => Equal
      case (Boolean(x), Boolean(y)) => CompareBools(x, y)
      case (Num(x), Num(y)) => CompareNumbers(x, y)
      case (Timestamp(s, n), Timestamp(t, m)) => CompareInts(s, t).Then(CompareInts(n, m))
      case (Text(x), Text(y)) => LexCompare(x, y)
      case (Blob(x), Blob(y)) => LexCompare(x, y)
      case (Reference(x), Reference(y)) => CompareReferences(x, y)
      case (GeoPoint(s, t), GeoPoint(u, v)) => CompareDoubles(s, u).Then(CompareDoubles(t, v))
      case (Array(x), Array(y)) => CompareSlices(x, y)
      case (Map(x), Map(y)) =>
        if VectorValues(x).Some? && VectorValues(y).Some? then
          // Vectors: dimension first, then element by element.
          var (u, v) := (VectorValues(x).value, VectorValues(y).value);
          CompareInts(|u|, |v|).Then(CompareSlices(u, v))
        else CompareFields(a, b, SortedKeys(x.Keys), SortedKeys(y.Keys))
      case _ => Equal
  }

  function CompareSlices(x: seq<Value>, y: seq<Value>): Ordering
    decreases x, 1
  {
    if x == [] then (if y == [] then Equal else Less)
    else if y == [] then Greater
    else CompareValues(x[0], y[0]).Then(CompareSlices(x[1..], y[1..]))
  }

  /** Maps compare pairwise in key order: key, then value, then size. */
  function CompareFields(a: Value, b: Value, xs: seq<Utf8>, ys: seq<Utf8>): Ordering
    requires a.Map? && b.Map?
    requires forall k :: k in xs ==> k in a.fields
    requires forall k :: k in ys ==> k in b.fields
    decreases a, 1, |xs|
  {
    if xs == [] then (if ys == [] then Equal else Less)
    else if ys == [] then Greater
    else
      LexCompare(xs[0], ys[0])
      .Then(CompareValues(a.fields[xs[0]], b.fields[ys[0]]))
      .Then(CompareFields(a, b, xs[1..], ys[1..]))
  }
}
