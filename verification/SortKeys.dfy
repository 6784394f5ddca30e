/** Sort keys: the order of documents, read off their stored columns. */
module SortKeys {
  import opened Orderings
  import opened Bytes
  import opened Results
  import opened Values
  import opened Order
  import opened KeyOrdering
  import opened Fields
  import opened Mirror
  import opened Queries
  import opened Predicates
  import opened Planner
  import opened PlanExactness

  predicate IsSortable(root: Utf8, doc: Document, orders: seq<SortOrder>) {
    Passes(root, doc, Sortable(orders))
  }

  /** The stored strings a document is sorted by. */
  function SortKey(root: Utf8, doc: Document, orders: seq<SortOrder>): (key: seq<Utf8>)
    requires IsSortable(root, doc, orders)
    ensures |key| == |orders|
  {
    if orders == [] then []
    else
      assert orders[0] in orders;
      [IndexString(FieldValue(root, doc, orders[0].path).value)] + SortKey(root, doc, orders[1..])
  }

  lemma {:induction false} SortKeyAt(root: Utf8, doc: Document, orders: seq<SortOrder>, i: nat)
    requires IsSortable(root, doc, orders) && i < |orders|
    ensures FieldValue(root, doc, orders[i].path).Some?
    ensures SortKey(root, doc, orders)[i] == IndexString(FieldValue(root, doc, orders[i].path).value)
  {
    assert orders[i] in orders;
    if i > 0 {
      SortKeyAt(root, doc, orders[1..], i - 1);
    }
  }

  function KeysOf(values: seq<Value>): (keys: seq<Utf8>)
    ensures |keys| == |values|
    ensures forall i :: 0 <= i < |values| ==> keys[i] == IndexString(values[i])
  {
    if values == [] then [] else [IndexString(values[0])] + KeysOf(values[1..])
  }

  /** First difference decides, in its column's direction. */
  function CompareKeys(x: seq<Utf8>, y: seq<Utf8>, orders: seq<SortOrder>): Ordering {
    if x == [] || y == [] || orders == [] then Equal
    else Directed(LexCompare(x[0], y[0]), orders[0].direction).Then(CompareKeys(x[1..], y[1..], orders[1..]))
  }

  lemma {:induction false} CompareDocsByKey(root: Utf8, a: Document, b: Document, orders: seq<SortOrder>)
    requires IsSortable(root, a, orders) && IsSortable(root, b, orders)
    ensures CompareDocs(root, a, b, orders) == CompareKeys(SortKey(root, a, orders), SortKey(root, b, orders), orders)
  {
    if orders != [] {
      assert orders[0] in orders;
      var u, v := FieldValue(root, a, orders[0].path).value, FieldValue(root, b, orders[0].path).value;
      IndexStringCompare(u, v);
      CompareDocsByKey(root, a, b, orders[1..]);
    }
  }

  lemma {:induction false} CompareToCursorByKey(root: Utf8, doc: Document, values: seq<Value>, orders: seq<SortOrder>)
    requires IsSortable(root, doc, orders)
    ensures CompareToCursor(root, doc, values, orders) == CompareKeys(SortKey(root, doc, orders), KeysOf(values), orders)
  {
    if values != [] && orders != [] {
      assert orders[0] in orders;
      IndexStringCompare(FieldValue(root, doc, orders[0].path).value, values[0]);
      CompareToCursorByKey(root, doc, values[1..], orders[1..]);
    }
  }

  // ---- a total order ----

  lemma {:induction false} CompareKeysReverse(x: seq<Utf8>, y: seq<Utf8>, orders: seq<SortOrder>)
    ensures CompareKeys(y, x, orders) == CompareKeys(x, y, orders).Reverse()
  {
    if x != [] && y != [] && orders != [] {
      LexReverse(x[0], y[0]);
      CompareKeysReverse(x[1..], y[1..], orders[1..]);
    }
  }

  lemma {:induction false} CompareKeysEqual(x: seq<Utf8>, y: seq<Utf8>, orders: seq<SortOrder>)
    requires |x| == |y| == |orders|
    ensures CompareKeys(x, y, orders) == Equal <==> x == y
  {
    if x != [] {
      LexEqual(x[0], y[0]);
      CompareKeysEqual(x[1..], y[1..], orders[1..]);
      assert x == [x[0]] + x[1..] && y == [y[0]] + y[1..];
    }
  }

  lemma {:induction false} CompareKeysTransitive(x: seq<Utf8>, y: seq<Utf8>, z: seq<Utf8>, orders: seq<SortOrder>)
    requires |x| == |y| == |z| == |orders|
    requires CompareKeys(x, y, orders) == Less && CompareKeys(y, z, orders) == Less
    ensures CompareKeys(x, z, orders) == Less
  {
    FirstTransitive(x[0], y[0], z[0], orders[0].direction);
    if x[0] == y[0] == z[0] {
      LexEqual(x[0], x[0]);
      CompareKeysTransitive(x[1..], y[1..], z[1..], orders[1..]);
    }
  }

  lemma FirstTransitive(x: Utf8, y: Utf8, z: Utf8, direction: Direction)
    requires Directed(LexCompare(x, y), direction) != Greater && Directed(LexCompare(y, z), direction) != Greater
    ensures Directed(LexCompare(x, z), direction) != Greater
    ensures Directed(LexCompare(x, z), direction) == Equal ==> x == y == z
  {
    LexEqual(x, y);
    LexEqual(y, z);
    if direction.Descending? {
      LexReverse(x, y);
      LexReverse(y, z);
      LexReverse(x, z);
      LexTransitive(z, y, x);
    } else {
      LexTransitive(x, y, z);
    }
  }

  /** Names tell documents apart. */
  lemma NamesDiffer(root: Utf8, p: Utf8, q: Utf8)
    requires p != q
    ensures IndexString(NameOf(root, p)) != IndexString(NameOf(root, q))
  {
    var a, b := root + [SLASH] + p, root + [SLASH] + q;
    assert p == a[|root| + 1..] && q == b[|root| + 1..];
    IndexStringCompare(NameOf(root, p), NameOf(root, q));
    JoinSplit(a, SLASH);
    JoinSplit(b, SLASH);
    SegmentsEqual(Split(a, SLASH), Split(b, SLASH));
  }

  lemma {:induction false} SegmentsEqual(xs: seq<Utf8>, ys: seq<Utf8>)
    ensures CompareSegments(xs, ys) == Equal <==> xs == ys
  {
    if xs != [] && ys != [] {
      LexEqual(xs[0], ys[0]);
      SegmentsEqual(xs[1..], ys[1..]);
      assert xs == [xs[0]] + xs[1..] && ys == [ys[0]] + ys[1..];
    }
  }

  predicate HasName(orders: seq<SortOrder>) {
    exists i :: 0 <= i < |orders| && orders[i].path == NAME
  }

  lemma DocsDiffer(root: Utf8, a: Document, b: Document, orders: seq<SortOrder>)
    requires IsSortable(root, a, orders) && IsSortable(root, b, orders)
    requires HasName(orders) && a.path != b.path
    ensures CompareDocs(root, a, b, orders) != Equal
  {
    var i :| 0 <= i < |orders| && orders[i].path == NAME;
    SortKeyAt(root, a, orders, i);
    SortKeyAt(root, b, orders, i);
    NamesDiffer(root, a.path, b.path);
    CompareDocsByKey(root, a, b, orders);
    CompareKeysEqual(SortKey(root, a, orders), SortKey(root, b, orders), orders);
  }

  lemma DocsReverse(root: Utf8, a: Document, b: Document, orders: seq<SortOrder>)
    requires IsSortable(root, a, orders) && IsSortable(root, b, orders)
    ensures CompareDocs(root, b, a, orders) == CompareDocs(root, a, b, orders).Reverse()
  {
    CompareDocsByKey(root, a, b, orders);
    CompareDocsByKey(root, b, a, orders);
    CompareKeysReverse(SortKey(root, a, orders), SortKey(root, b, orders), orders);
  }

  lemma DocsTransitive(root: Utf8, a: Document, b: Document, c: Document, orders: seq<SortOrder>)
    requires IsSortable(root, a, orders) && IsSortable(root, b, orders) && IsSortable(root, c, orders)
    requires CompareDocs(root, a, b, orders) == Less && CompareDocs(root, b, c, orders) == Less
    ensures CompareDocs(root, a, c, orders) == Less
  {
    CompareDocsByKey(root, a, b, orders);
    CompareDocsByKey(root, b, c, orders);
    CompareDocsByKey(root, a, c, orders);
    CompareKeysTransitive(SortKey(root, a, orders), SortKey(root, b, orders), SortKey(root, c, orders), orders);
  }

  // ---- normalized orders ----

  lemma {:induction false} AppendedKeeps(orders: seq<SortOrder>, paths: seq<Utf8>, present: set<Utf8>, direction: Direction)
    ensures orders <= Appended(orders, paths, present, direction)
    ensures forall o :: o in Appended(orders, paths, present, direction) ==>
      o in orders || (o.path in paths && o.path !in present && o.path != NAME && o.direction == direction)
    ensures forall p :: p in paths && p !in present && p != NAME ==>
      p in Paths(Appended(orders, paths, present, direction))
    decreases |paths|
  {
    if paths != [] {
      var more := if paths[0] !in present && paths[0] != NAME then [SortOrder(paths[0], direction)] else [];
      AppendedKeeps(orders + more, paths[1..], present, direction);
      var all := Appended(orders + more, paths[1..], present, direction);
      if more != [] {
        assert all[|orders|] == more[0];
      }
      assert forall p :: p in paths <==> p == paths[0] || p in paths[1..];
    }
  }

  predicate DistinctPaths(orders: seq<SortOrder>) {
    forall i, j :: 0 <= i < j < |orders| ==> orders[i].path != orders[j].path
  }

  lemma {:induction false} AppendedDistinct(orders: seq<SortOrder>, paths: seq<Utf8>, present: set<Utf8>, direction: Direction)
    requires DistinctPaths(orders) && StrictlySorted(paths)
    requires forall p, o :: p in paths && p !in present && o in orders ==> o.path != p
    ensures DistinctPaths(Appended(orders, paths, present, direction))
    decreases |paths|
  {
    if paths != [] {
      var more := if paths[0] !in present && paths[0] != NAME then [SortOrder(paths[0], direction)] else [];
      forall p | p in paths[1..]
        ensures p != paths[0]
      {
        var i :| 0 < i < |paths| && paths[i] == p;
        LexEqual(p, p);
      }
      AppendedDistinct(orders + more, paths[1..], present, direction);
    }
  }

  /** Explicit orders first, every inequality field ordered by, the name
      always among them, and no path twice unless the query itself did. */
  lemma NormalizedOrdersShape(query: Query, filters: seq<Filter>)
    ensures
      var orders := NormalizedOrders(query, filters);
      && query.orderBy <= orders
      && HasName(orders)
      && InequalityPaths(filters) <= Paths(orders)
      && (forall i :: |query.orderBy| <= i < |orders| ==> orders[i].direction == LastDirection(query.orderBy))
      && (DistinctPaths(query.orderBy) ==> DistinctPaths(orders))
  {
    var last, present := LastDirection(query.orderBy), Paths(query.orderBy);
    var paths := SortedKeys(InequalityPaths(filters));
    var appended := Appended(query.orderBy, paths, present, last);
    AppendedKeeps(query.orderBy, paths, present, last);
    NormalizedShape(query, filters);
    if DistinctPaths(query.orderBy) {
      SortedKeysStrict(InequalityPaths(filters));
      AppendedDistinct(query.orderBy, paths, present, last);
    }
  }

  lemma NormalizedShape(query: Query, filters: seq<Filter>)
    ensures
      var orders := NormalizedOrders(query, filters);
      && HasName(orders)
      && InequalityPaths(filters) <= Paths(orders)
      && (forall i :: |query.orderBy| <= i < |orders| ==> orders[i].direction == LastDirection(query.orderBy))
  {
    var last, present := LastDirection(query.orderBy), Paths(query.orderBy);
    var paths := SortedKeys(InequalityPaths(filters));
    var appended := Appended(query.orderBy, paths, present, last);
    AppendedKeeps(query.orderBy, paths, present, last);
    AppendedDirections(query.orderBy, paths, present, last);
    var orders := NormalizedOrders(query, filters);
    if NAME in Paths(appended) {
      var o :| o in appended && o.path == NAME;
      var i :| 0 <= i < |appended| && appended[i] == o;
      assert orders[i].path == NAME;
    } else {
      assert orders[|appended|].path == NAME;
    }
    forall p | p in InequalityPaths(filters)
      ensures p in Paths(orders)
    {
      assert p in Paths(appended) || p == NAME;
      PathsGrow(appended, orders);
    }
  }

  lemma PathsGrow(a: seq<SortOrder>, b: seq<SortOrder>)
    requires a <= b
    ensures Paths(a) <= Paths(b)
  {
    forall p | p in Paths(a)
      ensures p in Paths(b)
    {
      var o :| o in a && o.path == p;
      assert o in b;
    }
  }

  lemma {:induction false} AppendedDirections(orders: seq<SortOrder>, paths: seq<Utf8>, present: set<Utf8>, direction: Direction)
    ensures
      var all := Appended(orders, paths, present, direction);
      |orders| <= |all| && forall i :: |orders| <= i < |all| ==> all[i].direction == direction
    decreases |paths|
  {
    if paths != [] {
      var more := if paths[0] !in present && paths[0] != NAME then [SortOrder(paths[0], direction)] else [];
      AppendedDirections(orders + more, paths[1..], present, direction);
      AppendedKeeps(orders + more, paths[1..], present, direction);
    }
  }
}
