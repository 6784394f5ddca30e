/** What a fetch from the store means, and sequences of documents in order. */
module Fetching {
  import opened Orderings
  import opened Bytes
  import opened Results
  import opened Values
  import opened KeyOrdering
  import opened Mirror
  import opened Queries
  import opened Predicates
  import opened Planner
  import opened PlanExactness
  import opened SortKeys
  import opened CursorBranches

  // ---- distinct documents, strictly in order ----

  predicate DistinctDocs(docs: seq<Document>) {
    forall i, j :: 0 <= i < j < |docs| ==> docs[i].path != docs[j].path
  }

  predicate AllSortable(root: Utf8, docs: seq<Document>, orders: seq<SortOrder>) {
    forall d :: d in docs ==> IsSortable(root, d, orders)
  }

  predicate Ordered(root: Utf8, docs: seq<Document>, orders: seq<SortOrder>) {
    forall i, j :: 0 <= i < j < |docs| ==> CompareDocs(root, docs[i], docs[j], orders) == Less
  }

  ghost predicate SameDocs(a: seq<Document>, b: seq<Document>) {
    forall d :: d in a <==> d in b
  }

  lemma {:induction false} InsertOrdered(root: Utf8, doc: Document, docs: seq<Document>, orders: seq<SortOrder>)
    requires AllSortable(root, docs, orders) && IsSortable(root, doc, orders)
    requires Ordered(root, docs, orders) && HasName(orders)
    requires forall d :: d in docs ==> d.path != doc.path
    ensures Ordered(root, Insert(root, doc, docs, orders), orders)
  {
    var all := Insert(root, doc, docs, orders);
    if docs != [] {
      DocsDiffer(root, doc, docs[0], orders);
      if CompareDocs(root, doc, docs[0], orders) == Less {
        forall j | 0 <= j < |docs|
          ensures CompareDocs(root, doc, docs[j], orders) == Less
        {
          if j > 0 {
            DocsTransitive(root, doc, docs[0], docs[j], orders);
          }
        }
      } else {
        var rest := Insert(root, doc, docs[1..], orders);
        InsertOrdered(root, doc, docs[1..], orders);
        DocsReverse(root, doc, docs[0], orders);
        forall d | d in rest
          ensures CompareDocs(root, docs[0], d, orders) == Less
        {
          assert d in multiset(rest);
        }
      }
    }
  }

  /** Sorting puts distinct documents strictly in order. */
  lemma {:induction false} SortOrdered(root: Utf8, docs: seq<Document>, orders: seq<SortOrder>)
    requires AllSortable(root, docs, orders) && DistinctDocs(docs) && HasName(orders)
    ensures Ordered(root, Sort(root, docs, orders), orders)
    ensures SameDocs(Sort(root, docs, orders), docs)
  {
    SortSame(root, docs, orders);
    if docs != [] {
      SortOrdered(root, docs[1..], orders);
      InsertOrdered(root, docs[0], Sort(root, docs[1..], orders), orders);
    }
  }

  lemma SortSame(root: Utf8, docs: seq<Document>, orders: seq<SortOrder>)
    ensures SameDocs(Sort(root, docs, orders), docs)
  {
    var sorted := Sort(root, docs, orders);
    forall d
      ensures d in sorted <==> d in docs
    {
      assert d in multiset(sorted) <==> d in multiset(docs);
    }
  }

  lemma FirstIsLeast(root: Utf8, a: seq<Document>, b: seq<Document>, orders: seq<SortOrder>)
    requires a != [] && b != [] && SameDocs(a, b)
    requires Ordered(root, a, orders) && Ordered(root, b, orders) && AllSortable(root, a, orders)
    ensures a[0] == b[0]
  {
    assert a[0] in b && b[0] in a;
    var i :| 0 <= i < |b| && b[i] == a[0];
    var j :| 0 <= j < |a| && a[j] == b[0];
    if i > 0 && j > 0 {
      DocsReverse(root, a[0], b[0], orders);
    }
  }

  /** There is only one way to put a set of documents in order. */
  lemma {:induction false} OrderedUnique(root: Utf8, a: seq<Document>, b: seq<Document>, orders: seq<SortOrder>)
    requires SameDocs(a, b) && AllSortable(root, a, orders)
    requires Ordered(root, a, orders) && Ordered(root, b, orders)
    ensures a == b
  {
    EmptyTogether(a, b);
    if a != [] {
      FirstIsLeast(root, a, b, orders);
      DropFirst(root, a, orders);
      DropFirst(root, b, orders);
      OrderedUnique(root, a[1..], b[1..], orders);
      assert a == [a[0]] + a[1..] && b == [b[0]] + b[1..];
    }
  }

  lemma EmptyTogether(a: seq<Document>, b: seq<Document>)
    requires SameDocs(a, b)
    ensures a == [] <==> b == []
  {
    if a != [] {
      assert a[0] in b;
    }
    if b != [] {
      assert b[0] in a;
    }
  }

  lemma DropFirst(root: Utf8, docs: seq<Document>, orders: seq<SortOrder>)
    requires docs != [] && Ordered(root, docs, orders) && AllSortable(root, docs, orders)
    ensures Ordered(root, docs[1..], orders)
    ensures forall d :: d in docs[1..] <==> d in docs && d != docs[0]
  {
    forall d | d in docs[1..]
      ensures d != docs[0]
    {
      var i :| 0 < i < |docs| && docs[i] == d;
      DocsReverse(root, docs[0], docs[i], orders);
    }
  }

  // ---- keeping keeps order ----

  lemma {:induction false} KeepOrdered(root: Utf8, docs: seq<Document>, test: Test, orders: seq<SortOrder>)
    requires Ordered(root, docs, orders)
    ensures Ordered(root, Keep(root, docs, test), orders)
  {
    if docs != [] {
      KeepOrdered(root, docs[1..], test, orders);
      forall d | d in Keep(root, docs[1..], test)
        ensures CompareDocs(root, docs[0], d, orders) == Less
      {
        assert d in docs[1..];
      }
    }
  }

  lemma {:induction false} KeepDistinct(root: Utf8, docs: seq<Document>, test: Test)
    requires DistinctDocs(docs)
    ensures DistinctDocs(Keep(root, docs, test))
  {
    if docs != [] {
      KeepDistinct(root, docs[1..], test);
      forall d | d in Keep(root, docs[1..], test)
        ensures docs[0].path != d.path
      {
        assert d in docs[1..];
      }
    }
  }

  lemma {:induction false} MembersDistinct(docs: seq<Document>, scope: Scope)
    requires DistinctDocs(docs)
    ensures DistinctDocs(Members(docs, scope))
  {
    if docs != [] {
      MembersDistinct(docs[1..], scope);
      forall d | d in Members(docs[1..], scope)
        ensures docs[0].path != d.path
      {
        assert d in docs[1..];
      }
    }
  }

  // ---- fetching ----

  /** Sorting by columns, a missing one first. */
  function CompareColumns(a: Row, b: Row, columns: seq<SortColumn>): Ordering {
    if columns == [] then Equal
    else
      var u, v := Column(a, columns[0].0), Column(b, columns[0].0);
      var c :=
        if u.None? then (if v.None? then Equal else Less)
        else if v.None? then Greater
        else LexCompare(u.value, v.value);
      (if columns[0].1 then c else c.Reverse()).Then(CompareColumns(a, b, columns[1..]))
  }

  /** A sort document: a column inserted again keeps its place and takes the
      new direction. */
  function SortInsert(spec: seq<SortColumn>, column: SortColumn): seq<SortColumn> {
    if spec == [] then [column]
    else if spec[0].0 == column.0 then [column] + spec[1..]
    else [spec[0]] + SortInsert(spec[1..], column)
  }

  function SortDocument(columns: seq<SortColumn>): seq<SortColumn> {
    if columns == [] then []
    else SortInsert(SortDocument(columns[..|columns| - 1]), columns[|columns| - 1])
  }

  ghost predicate Listing(root: Utf8, members: seq<Document>, clause: Option<Clause>, docs: seq<Document>) {
    && DistinctDocs(docs)
    && forall d :: d in docs <==> d in members && MatchesAll(RowOf(root, d), clause)
  }

  ghost predicate SortedBy(root: Utf8, docs: seq<Document>, columns: seq<SortColumn>) {
    forall i, j :: 0 <= i < j < |docs| ==> CompareColumns(RowOf(root, docs[i]), RowOf(root, docs[j]), columns) != Greater
  }

  /** The matching rows in any order; with a window, a page of them sorted. */
  ghost predicate Fetched(root: Utf8, members: seq<Document>, fetching: FetchRequest, docs: seq<Document>) {
    match fetching.window
    case None => Listing(root, members, fetching.clause, docs)
    case Some(w) =>
      exists all :: Listing(root, members, fetching.clause, all)
        && SortedBy(root, all, SortDocument(w.orderBy)) && docs == Page(all, w.skip, w.limit)
  }

  // ---- sorting by columns is sorting documents ----

  /** The direction rows are compared in by a column: that of its first place. */
  function FirstWay(columns: seq<SortColumn>, name: Utf8): Option<bool> {
    if columns == [] then None
    else
      var front, last := columns[..|columns| - 1], columns[|columns| - 1];
      if FirstWay(front, name).Some? then FirstWay(front, name) else if last.0 == name then Some(last.1) else None
  }

  /** The direction a sort document gives a column: that of its last place. */
  function LastWay(columns: seq<SortColumn>, name: Utf8): Option<bool> {
    if columns == [] then None
    else
      var front, last := columns[..|columns| - 1], columns[|columns| - 1];
      if last.0 == name then Some(last.1) else LastWay(front, name)
  }

  /** The columns that decide a comparison: each at its first place. */
  function Deciding(columns: seq<SortColumn>): seq<SortColumn> {
    if columns == [] then []
    else
      var front, last := columns[..|columns| - 1], columns[|columns| - 1];
      Deciding(front) + if FirstWay(front, last.0).Some? then [] else [last]
  }

  predicate DistinctColumns(columns: seq<SortColumn>) {
    forall i, j :: 0 <= i < j < |columns| ==> columns[i].0 != columns[j].0
  }

  lemma {:induction false} SortInsertIs(spec: seq<SortColumn>, column: SortColumn, k: nat)
    requires DistinctColumns(spec) && k <= |spec| && (k < |spec| ==> spec[k].0 == column.0)
    requires k == |spec| ==> forall c :: c in spec ==> c.0 != column.0
    ensures SortInsert(spec, column) == if k < |spec| then spec[k := column] else spec + [column]
  {
    if spec != [] && k > 0 {
      assert spec[0].0 != column.0;
      SortInsertIs(spec[1..], column, k - 1);
    }
  }

  lemma {:induction false} WaysAgree(columns: seq<SortColumn>, name: Utf8)
    ensures FirstWay(columns, name).Some? <==> exists c :: c in columns && c.0 == name
    ensures LastWay(columns, name).Some? <==> FirstWay(columns, name).Some?
  {
    if columns != [] {
      var front, last := columns[..|columns| - 1], columns[|columns| - 1];
      WaysAgree(front, name);
      assert columns == front + [last];
    }
  }

  /** Deciding columns are in their first directions. */
  lemma {:induction false} DecidingShape(columns: seq<SortColumn>)
    ensures DistinctColumns(Deciding(columns))
    ensures forall c :: c in Deciding(columns) ==> FirstWay(columns, c.0) == Some(c.1)
    ensures forall name :: FirstWay(columns, name).Some? ==> exists c :: c in Deciding(columns) && c.0 == name
  {
    if columns != [] {
      var front, last := columns[..|columns| - 1], columns[|columns| - 1];
      DecidingShape(front);
      assert last in Deciding(columns) || FirstWay(front, last.0).Some?;
      forall name | FirstWay(columns, name).Some?
        ensures exists c :: c in Deciding(columns) && c.0 == name
      {
        if FirstWay(front, name).Some? {
          var c :| c in Deciding(front) && c.0 == name;
          assert c in Deciding(columns);
        }
      }
    }
  }

  /** A sort document has the deciding columns, in their last directions. */
  ghost predicate LastWays(spec: seq<SortColumn>, columns: seq<SortColumn>) {
    && |spec| == |Deciding(columns)|
    && forall k :: 0 <= k < |spec| ==>
         spec[k].0 == Deciding(columns)[k].0 && LastWay(columns, spec[k].0) == Some(spec[k].1)
  }

  lemma {:induction false} SortDocumentShape(columns: seq<SortColumn>)
    ensures LastWays(SortDocument(columns), columns)
  {
    if columns != [] {
      var front, last := columns[..|columns| - 1], columns[|columns| - 1];
      SortDocumentShape(front);
      DecidingShape(front);
      var spec := SortDocument(front);
      if FirstWay(front, last.0).Some? {
        var c :| c in Deciding(front) && c.0 == last.0;
        var k :| 0 <= k < |spec| && Deciding(front)[k] == c;
        SortInsertIs(spec, last, k);
      } else {
        SortInsertIs(spec, last, |spec|);
      }
    }
  }

  /** No column is first ordered one way and last the other. */
  predicate Steady(columns: seq<SortColumn>) {
    forall c :: c in columns ==> FirstWay(columns, c.0) == LastWay(columns, c.0)
  }

  /** The sort document compares by the deciding columns in their own directions
      if and only if every column is first and last ordered the same way. */
  lemma SortDocumentExactly(columns: seq<SortColumn>)
    ensures SortDocument(columns) == Deciding(columns) <==> Steady(columns)
  {
    SortDocumentShape(columns);
    DecidingShape(columns);
    var spec, deciding := SortDocument(columns), Deciding(columns);
    if Steady(columns) {
      forall k | 0 <= k < |spec|
        ensures spec[k] == deciding[k]
      {
        WaysAgree(columns, spec[k].0);
      }
    }
    if spec == deciding {
      forall c | c in columns
        ensures FirstWay(columns, c.0) == LastWay(columns, c.0)
      {
        WaysAgree(columns, c.0);
        var d :| d in deciding && d.0 == c.0;
      }
    }
  }

  lemma {:induction false} DistinctWays(columns: seq<SortColumn>, c: SortColumn)
    requires DistinctColumns(columns) && c in columns
    ensures FirstWay(columns, c.0) == LastWay(columns, c.0) == Some(c.1)
  {
    var front, last := columns[..|columns| - 1], columns[|columns| - 1];
    assert columns == front + [last];
    WaysAgree(front, c.0);
    if c in front {
      DistinctWays(front, c);
    } else {
      assert forall d :: d in front ==> d.0 != c.0;
    }
  }

  lemma DistinctIsSteady(columns: seq<SortColumn>)
    requires DistinctColumns(columns)
    ensures Steady(columns)
  {
    forall c | c in columns
      ensures FirstWay(columns, c.0) == LastWay(columns, c.0)
    {
      DistinctWays(columns, c);
    }
  }

  lemma ColumnsDistinct(orders: seq<SortOrder>)
    requires DistinctPaths(orders)
    ensures DistinctColumns(SortColumns(orders))
  {
    var columns := SortColumns(orders);
    forall i, j | 0 <= i < j < |columns|
      ensures columns[i].0 != columns[j].0
    {
      SortFieldInjective(orders[i].path, orders[j].path);
    }
  }

  lemma {:induction false} EqualColumns(a: Row, b: Row, columns: seq<SortColumn>, name: Utf8)
    requires CompareColumns(a, b, columns) == Equal && exists c :: c in columns && c.0 == name
    ensures Column(a, name) == Column(b, name)
  {
    var u, v := Column(a, columns[0].0), Column(b, columns[0].0);
    if u.Some? && v.Some? {
      LexEqual(u.value, v.value);
    }
    if columns[0].0 != name {
      EqualColumns(a, b, columns[1..], name);
    }
  }

  lemma {:induction false} CompareColumnsPlus(a: Row, b: Row, columns: seq<SortColumn>, last: SortColumn)
    ensures CompareColumns(a, b, columns + [last]) == CompareColumns(a, b, columns).Then(CompareColumns(a, b, [last]))
  {
    if columns == [] {
      assert columns + [last] == [last];
    } else {
      assert (columns + [last])[1..] == columns[1..] + [last];
      CompareColumnsPlus(a, b, columns[1..], last);
    }
  }

  lemma SameColumnsEqual(a: Row, b: Row, last: SortColumn)
    requires Column(a, last.0) == Column(b, last.0)
    ensures CompareColumns(a, b, [last]) == Equal
  {
    var u := Column(a, last.0);
    if u.Some? {
      LexEqual(u.value, u.value);
    }
  }

  lemma {:induction false} DecidingDecides(a: Row, b: Row, columns: seq<SortColumn>)
    ensures CompareColumns(a, b, columns) == CompareColumns(a, b, Deciding(columns))
  {
    if columns != [] {
      var front, last := columns[..|columns| - 1], columns[|columns| - 1];
      assert columns == front + [last];
      DecidingDecides(a, b, front);
      CompareColumnsPlus(a, b, front, last);
      if FirstWay(front, last.0).Some? {
        WaysAgree(front, last.0);
        if CompareColumns(a, b, front) == Equal {
          EqualColumns(a, b, front, last.0);
          SameColumnsEqual(a, b, last);
        }
        assert Deciding(columns) == Deciding(front);
      } else {
        CompareColumnsPlus(a, b, Deciding(front), last);
      }
    }
  }

  lemma {:induction false} CompareColumnsIs(root: Utf8, a: Document, b: Document, orders: seq<SortOrder>)
    requires Indexable(a) && Indexable(b) && IsSortable(root, a, orders) && IsSortable(root, b, orders)
    ensures CompareColumns(RowOf(root, a), RowOf(root, b), SortColumns(orders)) == CompareDocs(root, a, b, orders)
  {
    if orders != [] {
      assert orders[0] in orders;
      var columns := SortColumns(orders);
      assert columns[1..] == SortColumns(orders[1..]);
      ColumnValue(root, a, orders[0].path);
      ColumnValue(root, b, orders[0].path);
      IndexStringCompare(FieldValue(root, a, orders[0].path).value, FieldValue(root, b, orders[0].path).value);
      CompareColumnsIs(root, a, b, orders[1..]);
    }
  }

  lemma SortedByOrdered(root: Utf8, docs: seq<Document>, orders: seq<SortOrder>)
    requires DistinctDocs(docs) && AllSortable(root, docs, orders) && forall d :: d in docs ==> Indexable(d)
    requires Steady(SortColumns(orders)) && HasName(orders)
    requires SortedBy(root, docs, SortDocument(SortColumns(orders)))
    ensures Ordered(root, docs, orders)
  {
    SortDocumentExactly(SortColumns(orders));
    forall i, j | 0 <= i < j < |docs|
      ensures CompareDocs(root, docs[i], docs[j], orders) == Less
    {
      DecidingDecides(RowOf(root, docs[i]), RowOf(root, docs[j]), SortColumns(orders));
      CompareColumnsIs(root, docs[i], docs[j], orders);
      DocsDiffer(root, docs[i], docs[j], orders);
    }
  }
}
