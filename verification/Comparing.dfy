/** The comparison loops, which stop at the first difference, compute the
    value order. */
module Comparing {
  import opened Orderings
  import opened Bytes
  import opened Numbers
  import opened Results
  import opened Values
  import opened Order

  method ReferenceOrder(x: Utf8, y: Utf8) returns (c: Ordering)
    ensures c == CompareReferences(x, y)
  {
    var xs, ys := Split(x, SLASH), Split(y, SLASH);
    var i := 0;
    while i < |xs| && i < |ys|
      invariant 0 <= i <= |xs| && i <= |ys|
      invariant CompareSegments(xs, ys) == CompareSegments(xs[i..], ys[i..])
    {
      assert xs[i..][1..] == xs[i + 1..] && ys[i..][1..] == ys[i + 1..];
      c := LexCompare(xs[i], ys[i]);
      if c != Equal {
        return;
      }
      i := i + 1;
    }
    if i < |ys| {
      return Less;
    }
    return if i < |xs| then Greater else Equal;
  }

  method SliceOrder(x: seq<Value>, y: seq<Value>) returns (c: Ordering)
    ensures c == CompareSlices(x, y)
    decreases x, 1
  {
    var i := 0;
    while i < |x| && i < |y|
      invariant 0 <= i <= |x| && i <= |y|
      invariant CompareSlices(x, y) == CompareSlices(x[i..], y[i..])
    {
      assert x[i..][1..] == x[i + 1..] && y[i..][1..] == y[i + 1..];
      c := ValueOrder(x[i], y[i]);
      if c != Equal {
        return;
      }
      i := i + 1;
    }
    return CompareInts(|x|, |y|);
  }

  method MapOrder(a: Value, b: Value) returns (c: Ordering)
    requires a.Map? && b.Map?
    ensures c == CompareFields(a, b, SortedKeys(a.fields.Keys), SortedKeys(b.fields.Keys))
    decreases a, 1
  {
    var xk, yk := SortedKeys(a.fields.Keys), SortedKeys(b.fields.Keys);
    var i := 0;
    while i < |xk| && i < |yk|
      invariant 0 <= i <= |xk| && i <= |yk|
      invariant forall k :: k in xk[i..] ==> k in a.fields
      invariant forall k :: k in yk[i..] ==> k in b.fields
      invariant CompareFields(a, b, xk, yk) == CompareFields(a, b, xk[i..], yk[i..])
    {
      assert xk[i..][1..] == xk[i + 1..] && yk[i..][1..] == yk[i + 1..];
      assert xk[i] in xk && yk[i] in yk;
      c := LexCompare(xk[i], yk[i]);
      if c != Equal {
        return;
      }
      c := ValueOrder(a.fields[xk[i]], b.fields[yk[i]]);
      if c != Equal {
        return;
      }
      i := i + 1;
    }
    return CompareInts(|xk|, |yk|);
  }

  method ValueOrder(a: Value, b: Value) returns (c: Ordering)
    ensures c == CompareValues(a, b)
    decreases a, 2
  {
    if Rank(a) != Rank(b) {
      return CompareInts(Rank(a), Rank(b));
    }
    if a.Array? {
      c := SliceOrder(a.values, b.values);
    } else if a.Map? {
      var x, y := VectorValues(a.fields), VectorValues(b.fields);
      if x.Some? && y.Some? {
        c := CompareInts(|x.value|, |y.value|);
        if c == Equal {
          c := SliceOrder(x.value, y.value);
        }
      } else {
        c := MapOrder(a, b);
      }
    } else if a.Reference? {
      c := ReferenceOrder(a.path, b.path);
    } else {
      c := CompareValues(a, b);
    }
  }
}
