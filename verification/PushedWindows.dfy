/** Windows that may not be pushed into the store: runs in which the planned
    query answers otherwise than the scanning one. */
module PushedWindows {
  import opened Orderings
  import opened Bytes
  import opened Results
  import opened Errors
  import opened Values
  import opened Order
  import IndexKey
  import opened KeyOrdering
  import opened Fields
  import opened Mirror
  import opened Queries
  import opened Predicates
  import opened Planner
  import opened PlanExactness
  import opened SortKeys
  import opened CursorBranches
  import opened CursorExactness
  import opened Fetching
  import opened PlannedQueries

  /** A page of one, from the first document on. */
  predicate FirstOnly(f: FetchRequest) {
    f.window.Some? && f.window.value.skip == 0 && f.window.value.limit == Some(1)
  }

  /** The store finds both, and sorts the first before the second. */
  predicate Leads(root: Utf8, a: Document, b: Document, f: FetchRequest)
    requires f.window.Some?
  {
    && MatchesAll(RowOf(root, a), f.clause) && MatchesAll(RowOf(root, b), f.clause)
    && CompareColumns(RowOf(root, a), RowOf(root, b), SortDocument(f.window.value.orderBy)) != Greater
  }

  lemma PairSelected(root: Utf8, a: Document, b: Document, query: Query, filters: seq<Filter>, orders: seq<SortOrder>,
                     expected: seq<Document>)
    requires a.path != b.path && HasName(orders) && Ordered(root, expected, orders)
    requires forall d :: d in expected <==> d in [a, b] && Qualifies(root, d, query, filters, orders)
    ensures Selected(root, [a, b], query, filters, orders) == expected
  {
    SelectedShape(root, [a, b], query, filters, orders);
    OrderedUnique(root, Selected(root, [a, b], query, filters, orders), expected, orders);
  }

  lemma BothSelected(root: Utf8, a: Document, b: Document, query: Query, filters: seq<Filter>, orders: seq<SortOrder>)
    requires a.path != b.path && HasName(orders) && CompareDocs(root, a, b, orders) == Less
    requires Qualifies(root, a, query, filters, orders) && Qualifies(root, b, query, filters, orders)
    ensures Selected(root, [a, b], query, filters, orders) == [a, b]
  {
    assert Ordered(root, [a, b], orders);
    PairSelected(root, a, b, query, filters, orders, [a, b]);
  }

  lemma SingleSelected(root: Utf8, a: Document, query: Query, filters: seq<Filter>, orders: seq<SortOrder>)
    requires HasName(orders)
    ensures Selected(root, [a], query, filters, orders) == if Qualifies(root, a, query, filters, orders) then [a] else []
  {
    var expected := if Qualifies(root, a, query, filters, orders) then [a] else [];
    SelectedShape(root, [a], query, filters, orders);
    OrderedUnique(root, Selected(root, [a], query, filters, orders), expected, orders);
  }

  lemma PairResults(root: Utf8, a: Document, b: Document, query: Query, filters: seq<Filter>, orders: seq<SortOrder>,
                    expected: seq<Document>, f: FetchRequest)
    requires f == FetchFor(query, filters, orders, true) && FirstOnly(f)
    requires expected != [] && Selected(root, [a, b], query, filters, orders) == expected
    ensures ResultsOf(root, [a, b], query, filters, orders) == Ok([expected[0]])
  {
    WindowBounds(query, filters, orders);
    PageOfOne(expected, query.offset, query.limit);
  }

  lemma PageOfOne(all: seq<Document>, offset: int, limit: Option<int>)
    requires all != [] && offset <= 0 && limit == Some(1)
    ensures Page(all, offset, limit) == [all[0]]
  {}

  lemma FirstFetched(root: Utf8, a: Document, b: Document, f: FetchRequest)
    requires FirstOnly(f) && a.path != b.path && Leads(root, a, b, f)
    ensures Fetched(root, [a, b], f, [a])
    ensures Fetched(root, [b, a], f, [a])
  {
    var all := [a, b];
    assert Listing(root, [a, b], f.clause, all) && Listing(root, [b, a], f.clause, all);
    assert SortedBy(root, all, SortDocument(f.window.value.orderBy));
    assert Page(all, 0, Some(1)) == [a];
  }

  /** A stray before a qualifying document takes its place on the page, and is
      dropped afterwards: the result is lost. */
  lemma StrayTakesThePage(root: Utf8, stray: Document, doc: Document, query: Query, filters: seq<Filter>,
                          orders: seq<SortOrder>, f: FetchRequest)
    requires f == FetchFor(query, filters, orders, true) && HasName(orders) && FirstOnly(f)
    requires stray.path != doc.path && Leads(root, stray, doc, f)
    requires !Qualifies(root, stray, query, filters, orders) && Qualifies(root, doc, query, filters, orders)
    ensures Fetched(root, [stray, doc], f, [stray])
    ensures Evaluated(root, [stray], query, filters, orders, true) == Ok([])
    ensures ResultsOf(root, [stray, doc], query, filters, orders) == Ok([doc])
  {
    WindowBounds(query, filters, orders);
    FirstFetched(root, stray, doc, f);
    SingleSelected(root, stray, query, filters, orders);
    PairSelected(root, stray, doc, query, filters, orders, [doc]);
    PairResults(root, stray, doc, query, filters, orders, [doc], f);
  }

  /** Where the store sorts two qualifying documents the other way round, the
      page has the wrong one. */
  lemma WrongOneLeads(root: Utf8, first: Document, doc: Document, query: Query, filters: seq<Filter>,
                      orders: seq<SortOrder>, f: FetchRequest)
    requires f == FetchFor(query, filters, orders, true) && HasName(orders) && FirstOnly(f)
    requires first.path != doc.path && Leads(root, doc, first, f) && CompareDocs(root, first, doc, orders) == Less
    requires Qualifies(root, first, query, filters, orders) && Qualifies(root, doc, query, filters, orders)
    ensures Fetched(root, [first, doc], f, [doc])
    ensures Evaluated(root, [doc], query, filters, orders, true) == Ok([doc])
    ensures ResultsOf(root, [first, doc], query, filters, orders) == Ok([first])
  {
    WindowBounds(query, filters, orders);
    FirstFetched(root, doc, first, f);
    SingleSelected(root, doc, query, filters, orders);
    BothSelected(root, first, doc, query, filters, orders);
    PairResults(root, first, doc, query, filters, orders, [first, doc], f);
  }

  // ---- ordering twice by one path ----

  /** The pin of a cursor's last branch is lost: every document from the second
      value up to the first passes the keyset predicate, though it lies before
      the cursor. */
  lemma RepeatedOrderIsLost(root: Utf8, doc: Document, orders: seq<SortOrder>, path: Utf8, high: Value, low: Value)
    requires Indexable(doc) && FieldValue(root, doc, path).Some?
    requires |orders| >= 2 && orders[0] == orders[1] == SortOrder(path, Ascending)
    requires CompareValues(FieldValue(root, doc, path).value, high) == Less
    requires CompareValues(FieldValue(root, doc, path).value, low) != Less
    ensures
      var clause := CursorBound(SortColumns(orders), [high, low], true, After);
      && clause.Some? && Matches(RowOf(root, doc), clause.value)
      && !Kept(CompareToCursor(root, doc, [high, low], orders), true, After)
  {
    var values, columns := [high, low], SortColumns(orders);
    var wanted := Between(map[Ge := IndexString(low)]);
    LastPinLost(columns, values);
    var v := FieldValue(root, doc, path).value;
    IndexStringCompare(v, low);
    BoundedBy(IndexString(v), Ge, IndexString(low));
    ValueClauseMeans(root, doc, path, wanted);
    var branches := Branches(columns, values, 2, true, After);
    assert branches[1] == ValueClause(path, wanted);
    OrMatches(RowOf(root, doc), branches);
  }

  lemma LastPinLost(columns: seq<SortColumn>, values: seq<Value>)
    requires |columns| >= |values| == 2 && columns[0] == columns[1] && columns[0].1
    ensures Branch(columns, values, 1, true, After)
         == Where(map[columns[0].0 := Between(map[Ge := IndexString(values[1])])])
  {
    assert Pinned(columns, values, 0) == map[];
    assert Pinned(columns, values, 1) == map[columns[0].0 := Is(IndexString(values[0]))];
  }

  /** Two orders on one path, then the name in the last direction. */
  function TwiceBy(path: Utf8, second: Direction): seq<SortOrder> {
    [SortOrder(path, Ascending), SortOrder(path, second), SortOrder(NAME, second)]
  }

  lemma TwiceNormalized(query: Query, path: Utf8, second: Direction)
    requires path != NAME && query.orderBy == [SortOrder(path, Ascending), SortOrder(path, second)]
    ensures NormalizedOrders(query, []) == TwiceBy(path, second) && HasName(TwiceBy(path, second))
  {
    assert InequalityPaths([]) == {};
    assert SortedKeys({}) == [];
    assert Paths(query.orderBy) == {path};
    assert TwiceBy(path, second)[2].path == NAME;
  }

  /** What a run shows: the store's page under a limit of one, the planned
      answer from it, and the scanning answer. */
  ghost predicate Diverges(root: Utf8, members: seq<Document>, query: Query, orders: seq<SortOrder>, page: seq<Document>,
                           planned: seq<Document>, scanned: seq<Document>)
  {
    var f := FetchFor(query, [], orders, true);
    && f.window.Some? && Fetched(root, members, f, page)
    && Evaluated(root, page, query, [], orders, true) == Ok(planned)
    && ResultsOf(root, members, query, [], orders) == Ok(scanned)
    && planned != scanned
  }

  lemma TwicePlanned(query: Query, path: Utf8, second: Direction)
    requires IsPlainPath(path) && query.offset == 0 && query.limit == Some(1)
    requires CursorClauses(query, TwiceBy(path, second)).Some?
    ensures FirstOnly(FetchFor(query, [], TwiceBy(path, second), true))
    ensures FetchFor(query, [], TwiceBy(path, second), true).window.value.orderBy == SortColumns(TwiceBy(path, second))
  {}

  /** The store sorts by the path once, in the second direction. */
  lemma TwiceSorted(root: Utf8, a: Document, b: Document, path: Utf8, second: Direction)
    requires Indexable(a) && Indexable(b) && path != NAME
    requires FieldValue(root, a, path).Some? && FieldValue(root, b, path).Some?
    requires Directed(CompareValues(FieldValue(root, a, path).value, FieldValue(root, b, path).value), second) == Less
    ensures CompareColumns(RowOf(root, a), RowOf(root, b), SortDocument(SortColumns(TwiceBy(path, second)))) == Less
  {
    var columns, up := SortColumns(TwiceBy(path, second)), !second.Descending?;
    SortFieldInjective(path, NAME);
    TwiceInserted(columns, SortField(path), SortField(NAME), up);
    ColumnValue(root, a, path);
    ColumnValue(root, b, path);
    IndexStringCompare(FieldValue(root, a, path).value, FieldValue(root, b, path).value);
  }

  lemma TwiceInserted(columns: seq<SortColumn>, column: Utf8, name: Utf8, up: bool)
    requires column != name && columns == [(column, true), (column, up), (name, up)]
    ensures SortDocument(columns) == [(column, up), (name, up)]
  {
    var one, two := [(column, true)], [(column, true), (column, up)];
    assert one[..0] == [] && two[..1] == one && columns[..2] == two;
    assert SortDocument(one) == SortInsert(SortDocument([]), (column, true)) == one;
    assert SortDocument(two) == SortInsert(one, (column, up)) == [(column, up)];
    assert [(column, up)][1..] == [];
    assert SortInsert([], (name, up)) == [(name, up)];
    assert SortInsert([(column, up)], (name, up)) == [(column, up)] + SortInsert([(column, up)][1..], (name, up));
    assert SortDocument(columns) == SortInsert(SortDocument(columns[..2]), (name, up));
  }

  lemma TwiceSortable(root: Utf8, doc: Document, path: Utf8, second: Direction)
    requires FieldValue(root, doc, path).Some?
    ensures Admitted(root, doc, [], TwiceBy(path, second))
  {}

  lemma CompareReversed(a: Value, b: Value)
    ensures CompareValues(b, a) == CompareValues(a, b).Reverse()
  {
    KeyCompare(a, b);
    KeyCompare(b, a);
    LexReverse(IndexKey.Key(a), IndexKey.Key(b));
  }

  /** Ordered up and down by one path, with a limit of one: the store sorts down,
      and the planned query answers with the larger document. */
  lemma TwoWayOrderMisleads(root: Utf8, small: Document, large: Document, path: Utf8, query: Query)
    requires query == Query([], None, [SortOrder(path, Ascending), SortOrder(path, Descending)], None, None, 0, Some(1))
    requires Indexable(small) && Indexable(large) && small.path != large.path && IsPlainPath(path) && path != NAME
    requires FieldValue(root, small, path).Some? && FieldValue(root, large, path).Some?
    requires CompareValues(FieldValue(root, small, path).value, FieldValue(root, large, path).value) == Less
    ensures NormalizedOrders(query, []) == TwiceBy(path, Descending)
    ensures Diverges(root, [small, large], query, TwiceBy(path, Descending), [large], [large], [small])
  {
    var orders := TwiceBy(path, Descending);
    TwiceNormalized(query, path, Descending);
    TwicePlanned(query, path, Descending);
    CompareReversed(FieldValue(root, small, path).value, FieldValue(root, large, path).value);
    TwiceSorted(root, large, small, path, Descending);
    TwiceSortable(root, small, path, Descending);
    TwiceSortable(root, large, path, Descending);
    FetchFaithful(root, small, query, [], orders, true);
    FetchFaithful(root, large, query, [], orders, true);
    WrongOneLeads(root, small, large, query, [], orders, FetchFor(query, [], orders, true));
  }

  /** Ordered twice upwards by one path, from a cursor whose second value is the
      lower: a document between the two takes the page, and the planned query
      finds nothing where the scanning one finds the document beyond. */
  lemma RepeatedOrderLosesResult(root: Utf8, stray: Document, doc: Document, path: Utf8, high: Value, low: Value, query: Query)
    requires query == Query([], None, [SortOrder(path, Ascending), SortOrder(path, Ascending)],
                            Some(Cursor([high, low], true)), None, 0, Some(1))
    requires Indexable(stray) && Indexable(doc) && stray.path != doc.path && IsPlainPath(path) && path != NAME
    requires FieldValue(root, stray, path).Some? && FieldValue(root, doc, path).Some?
    requires CompareValues(FieldValue(root, stray, path).value, low) != Less
    requires CompareValues(FieldValue(root, stray, path).value, high) == Less
    requires CompareValues(FieldValue(root, doc, path).value, high) == Greater
    ensures NormalizedOrders(query, []) == TwiceBy(path, Ascending)
    ensures Diverges(root, [stray, doc], query, TwiceBy(path, Ascending), [stray], [], [doc])
  {
    var orders := TwiceBy(path, Ascending);
    var f := FetchFor(query, [], orders, true);
    var u, v := FieldValue(root, stray, path).value, FieldValue(root, doc, path).value;
    TwiceNormalized(query, path, Ascending);
    CompareReversed(v, high);
    Transitive(u, high, v);
    TwiceSorted(root, stray, doc, path, Ascending);
    BeyondQualifies(root, doc, path, high, low, query);
    StrayMatches(root, stray, path, high, low, query);
    FetchFaithful(root, doc, query, [], orders, true);
    StrayTakesThePage(root, stray, doc, query, [], orders, f);
  }

  lemma BeyondQualifies(root: Utf8, doc: Document, path: Utf8, high: Value, low: Value, query: Query)
    requires query.startAt == Some(Cursor([high, low], true)) && query.endAt == None
    requires FieldValue(root, doc, path).Some? && CompareValues(FieldValue(root, doc, path).value, high) == Greater
    ensures Qualifies(root, doc, query, [], TwiceBy(path, Ascending))
  {
    TwiceSortable(root, doc, path, Ascending);
  }

  predicate AllPlain(orders: seq<SortOrder>) {
    forall o :: o in orders ==> IsPlainPath(o.path)
  }

  lemma TwicePlain(path: Utf8, second: Direction)
    requires IsPlainPath(path)
    ensures AllPlain(TwiceBy(path, second))
  {}

  lemma StartClauses(query: Query, orders: seq<SortOrder>, cursor: Cursor, clause: Clause)
    requires query.startAt == Some(cursor) && query.endAt == None && AllPlain(orders)
    requires CursorBound(SortColumns(orders), cursor.values, cursor.before, After) == Some(clause)
    ensures CursorClauses(query, orders) == Some([clause])
  {
    assert CursorClause(query, SortColumns(orders), After) == Some([clause]);
    assert CursorClause(query, SortColumns(orders), Before) == Some([]);
    assert [clause] + [] == [clause];
  }

  lemma FetchedClause(root: Utf8, doc: Document, query: Query, orders: seq<SortOrder>, clause: Clause)
    requires Indexable(doc) && Admitted(root, doc, [], orders)
    requires CursorClauses(query, orders) == Some([clause]) && Matches(RowOf(root, doc), clause)
    ensures MatchesAll(RowOf(root, doc), FetchFor(query, [], orders, true).clause)
  {
    PlanFaithful(root, doc, [], orders);
    OneClause(RowOf(root, doc), clause);
    ConjoinMeans(RowOf(root, doc), PlanFor([], OrderPaths(orders)).clause, [clause]);
  }

  lemma StrayPasses(root: Utf8, stray: Document, orders: seq<SortOrder>, path: Utf8, high: Value, low: Value)
    returns (clause: Clause)
    requires Indexable(stray) && FieldValue(root, stray, path).Some?
    requires |orders| >= 2 && orders[0] == orders[1] == SortOrder(path, Ascending)
    requires CompareValues(FieldValue(root, stray, path).value, low) != Less
    requires CompareValues(FieldValue(root, stray, path).value, high) == Less
    ensures CursorBound(SortColumns(orders), [high, low], true, After) == Some(clause)
    ensures Matches(RowOf(root, stray), clause) && !Passes(root, stray, From(Cursor([high, low], true), orders))
  {
    RepeatedOrderIsLost(root, stray, orders, path, high, low);
    KeptMeans(root, stray, Cursor([high, low], true), orders, After);
    clause := CursorBound(SortColumns(orders), [high, low], true, After).value;
  }

  /** The document between the two values passes all that is sent to the store. */
  lemma StrayMatches(root: Utf8, stray: Document, path: Utf8, high: Value, low: Value, query: Query)
    requires query.startAt == Some(Cursor([high, low], true)) && query.endAt == None
    requires query.offset == 0 && query.limit == Some(1)
    requires Indexable(stray) && IsPlainPath(path) && FieldValue(root, stray, path).Some?
    requires CompareValues(FieldValue(root, stray, path).value, low) != Less
    requires CompareValues(FieldValue(root, stray, path).value, high) == Less
    ensures
      var orders := TwiceBy(path, Ascending);
      var f := FetchFor(query, [], orders, true);
      && FirstOnly(f) && f.window.value.orderBy == SortColumns(orders)
      && MatchesAll(RowOf(root, stray), f.clause) && !Qualifies(root, stray, query, [], orders)
  {
    var orders := TwiceBy(path, Ascending);
    var clause := StrayPasses(root, stray, orders, path, high, low);
    TwicePlain(path, Ascending);
    StartClauses(query, orders, query.startAt.value, clause);
    TwicePlanned(query, path, Ascending);
    TwiceSortable(root, stray, path, Ascending);
    FetchedClause(root, stray, query, orders, clause);
  }
}
