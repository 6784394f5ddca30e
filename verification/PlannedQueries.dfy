/** A planned query answers as the scanning one: whatever the store returns
    first, and with sorting and paging pushed into it or not. */
module PlannedQueries {
  import opened Orderings
  import opened Bytes
  import opened Results
  import opened Errors
  import opened Values
  import opened Mirror
  import opened Queries
  import opened Predicates
  import opened Planner
  import opened PlanExactness
  import opened SortKeys
  import opened CursorBranches
  import opened CursorExactness
  import opened Fetching

  /** What `evaluate` makes of the rows it was given. */
  function Evaluated(root: Utf8, docs: seq<Document>, query: Query, filters: seq<Filter>, orders: seq<SortOrder>, paged: bool)
    : Result<seq<Document>, EngineError>
  {
    if !ValidCursor(query.startAt, orders) || !ValidCursor(query.endAt, orders) then Err(InvalidArgument)
    else
      var selected := Selected(root, docs, query, filters, orders);
      Ok(if paged then selected else Page(selected, query.offset, query.limit))
  }

  predicate WithinCursors(root: Utf8, doc: Document, query: Query, orders: seq<SortOrder>) {
    && (query.startAt.Some? ==> Passes(root, doc, From(query.startAt.value, orders)))
    && (query.endAt.Some? ==> Passes(root, doc, Until(query.endAt.value, orders)))
  }

  predicate Qualifies(root: Utf8, doc: Document, query: Query, filters: seq<Filter>, orders: seq<SortOrder>) {
    Admitted(root, doc, filters, orders) && WithinCursors(root, doc, query, orders)
  }

  /** Selection: exactly the qualifying documents, in order. */
  lemma SelectedShape(root: Utf8, docs: seq<Document>, query: Query, filters: seq<Filter>, orders: seq<SortOrder>)
    requires DistinctDocs(docs) && HasName(orders)
    ensures
      var selected := Selected(root, docs, query, filters, orders);
      && Ordered(root, selected, orders)
      && forall d :: d in selected <==> d in docs && Qualifies(root, d, query, filters, orders)
  {
    var matching := Keep(root, docs, Filters(filters));
    var kept := Keep(root, matching, Sortable(orders));
    KeepDistinct(root, docs, Filters(filters));
    KeepDistinct(root, matching, Sortable(orders));
    SortOrdered(root, kept, orders);
    var sorted := Sort(root, kept, orders);
    var started := KeepFrom(root, sorted, query.startAt, orders);
    if query.startAt.Some? {
      KeepOrdered(root, sorted, From(query.startAt.value, orders), orders);
    }
    if query.endAt.Some? {
      KeepOrdered(root, started, Until(query.endAt.value, orders), orders);
    }
  }

  /** Candidates beyond or short of each other do not matter, as long as they
      agree on who qualifies. */
  lemma SelectedAgree(root: Utf8, a: seq<Document>, b: seq<Document>, query: Query, filters: seq<Filter>, orders: seq<SortOrder>)
    requires DistinctDocs(a) && DistinctDocs(b) && HasName(orders)
    requires forall d :: Qualifies(root, d, query, filters, orders) ==> (d in a <==> d in b)
    ensures Selected(root, a, query, filters, orders) == Selected(root, b, query, filters, orders)
  {
    SelectedShape(root, a, query, filters, orders);
    SelectedShape(root, b, query, filters, orders);
    OrderedUnique(root, Selected(root, a, query, filters, orders), Selected(root, b, query, filters, orders), orders);
  }

  lemma ConjoinMeans(row: Row, clause: Option<Clause>, extra: seq<Clause>)
    ensures MatchesAll(row, Conjoin(clause, extra)) <==> MatchesAll(row, clause) && Matches(row, And(extra))
  {
    if extra != [] && clause.Some? {
      MatchesBoth(row, if clause.value.And? then clause.value.clauses else [clause.value], extra);
      assert Matches(row, And([clause.value])) <==> Matches(row, clause.value) by {
        assert clause.value in [clause.value];
      }
    }
  }

  /** The orders and one of the query's cursors leave no strays. */
  ghost predicate HarmlessCursor(query: Query, orders: seq<SortOrder>, bound: Bound) {
    var cursor := if bound.After? then query.startAt else query.endAt;
    cursor.Some? && |cursor.value.values| <= |orders| ==>
      NoStrays(orders, cursor.value.values, if bound.After? then cursor.value.before else !cursor.value.before, bound)
  }

  /** A window may rely on the store: no cursor lets strays in, and no path is
      first ordered one way and last the other. */
  ghost predicate Reliable(query: Query, orders: seq<SortOrder>) {
    HarmlessCursor(query, orders, After) && HarmlessCursor(query, orders, Before) && Steady(SortColumns(orders))
  }

  predicate WithinCursor(root: Utf8, doc: Document, query: Query, orders: seq<SortOrder>, bound: Bound) {
    var cursor := if bound.After? then query.startAt else query.endAt;
    cursor.Some? ==> Passes(root, doc, if bound.After? then From(cursor.value, orders) else Until(cursor.value, orders))
  }

  lemma CursorClauseMeans(root: Utf8, doc: Document, query: Query, orders: seq<SortOrder>, bound: Bound)
    requires Indexable(doc) && IsSortable(root, doc, orders)
    requires CursorClause(query, SortColumns(orders), bound).Some?
    ensures
      var clauses := And(CursorClause(query, SortColumns(orders), bound).value);
      && (WithinCursor(root, doc, query, orders, bound) ==> Matches(RowOf(root, doc), clauses))
      && (HarmlessCursor(query, orders, bound) && Matches(RowOf(root, doc), clauses) ==>
            WithinCursor(root, doc, query, orders, bound))
  {
    var cursor := if bound.After? then query.startAt else query.endAt;
    if cursor.Some? {
      var inclusive := if bound.After? then cursor.value.before else !cursor.value.before;
      KeptMeans(root, doc, cursor.value, orders, bound);
      KeysetMeans(root, doc, orders, cursor.value.values, inclusive, bound);
    }
  }

  lemma KeysetMeans(root: Utf8, doc: Document, orders: seq<SortOrder>, values: seq<Value>, inclusive: bool, bound: Bound)
    requires Indexable(doc) && IsSortable(root, doc, orders) && CursorBound(SortColumns(orders), values, inclusive, bound).Some?
    ensures
      var clauses := And([CursorBound(SortColumns(orders), values, inclusive, bound).value]);
      var kept := Kept(CompareToCursor(root, doc, values, orders), inclusive, bound);
      && 0 < |values| <= |orders| && (kept ==> Matches(RowOf(root, doc), clauses))
      && (NoStrays(orders, values, inclusive, bound) && Matches(RowOf(root, doc), clauses) ==> kept)
  {
    OneClause(RowOf(root, doc), CursorBound(SortColumns(orders), values, inclusive, bound).value);
    KeysetExactly(root, doc, orders, values, inclusive, bound);
    if NoStrays(orders, values, inclusive, bound) {
      CursorExact(root, doc, orders, values, inclusive, bound);
    }
  }

  lemma KeptMeans(root: Utf8, doc: Document, cursor: Cursor, orders: seq<SortOrder>, bound: Bound)
    ensures Kept(CompareToCursor(root, doc, cursor.values, orders),
                 if bound.After? then cursor.before else !cursor.before, bound)
      <==> Passes(root, doc, if bound.After? then From(cursor, orders) else Until(cursor, orders))
  {}

  lemma OneClause(row: Row, clause: Clause)
    ensures Matches(row, And([clause])) <==> Matches(row, clause)
  {
    assert clause in [clause];
  }

  /** The cursor clauses keep every document within the cursors, and where they
      are harmless no other. */
  lemma CursorClausesMean(root: Utf8, doc: Document, query: Query, orders: seq<SortOrder>)
    requires Indexable(doc) && IsSortable(root, doc, orders)
    requires CursorClauses(query, orders).Some?
    ensures
      var clauses := And(CursorClauses(query, orders).value);
      && (WithinCursors(root, doc, query, orders) ==> Matches(RowOf(root, doc), clauses))
      && (Reliable(query, orders) && Matches(RowOf(root, doc), clauses) ==> WithinCursors(root, doc, query, orders))
  {
    if query.startAt.Some? || query.endAt.Some? {
      var columns := SortColumns(orders);
      BothClauses(query, orders);
      WithinBoth(root, doc, query, orders);
      CursorClauseMeans(root, doc, query, orders, After);
      CursorClauseMeans(root, doc, query, orders, Before);
      MatchesBoth(RowOf(root, doc), CursorClause(query, columns, After).value, CursorClause(query, columns, Before).value);
    } else {
      NoCursors(root, doc, query, orders);
    }
  }

  lemma BothClauses(query: Query, orders: seq<SortOrder>)
    requires CursorClauses(query, orders).Some? && (query.startAt.Some? || query.endAt.Some?)
    ensures CursorClause(query, SortColumns(orders), After).Some? && CursorClause(query, SortColumns(orders), Before).Some?
    ensures CursorClauses(query, orders).value
         == CursorClause(query, SortColumns(orders), After).value + CursorClause(query, SortColumns(orders), Before).value
  {}

  lemma WithinBoth(root: Utf8, doc: Document, query: Query, orders: seq<SortOrder>)
    ensures WithinCursors(root, doc, query, orders)
      <==> WithinCursor(root, doc, query, orders, After) && WithinCursor(root, doc, query, orders, Before)
  {}

  lemma NoCursors(root: Utf8, doc: Document, query: Query, orders: seq<SortOrder>)
    requires query.startAt.None? && query.endAt.None?
    ensures CursorClauses(query, orders) == Some([]) && Matches(RowOf(root, doc), And([]))
    ensures WithinCursors(root, doc, query, orders)
  {}

  /** The predicate sent to the store never excludes a qualifying document,
      and excludes all others when a window goes with it that may rely on the
      store. */
  lemma FetchFaithful(root: Utf8, doc: Document, query: Query, filters: seq<Filter>, orders: seq<SortOrder>, planned: bool)
    requires planned ==> Indexable(doc)
    ensures
      var f := FetchFor(query, filters, orders, planned);
      && (Qualifies(root, doc, query, filters, orders) ==> MatchesAll(RowOf(root, doc), f.clause))
      && (f.window.Some? && Reliable(query, orders) && MatchesAll(RowOf(root, doc), f.clause) ==>
            Qualifies(root, doc, query, filters, orders))
  {
    if planned {
      var plan, cursors := PlanFor(filters, OrderPaths(orders)), CursorClauses(query, orders);
      PlanFaithful(root, doc, filters, orders);
      ConjoinMeans(RowOf(root, doc), plan.clause, if cursors.Some? then cursors.value else []);
      if cursors.Some? && IsSortable(root, doc, orders) {
        CursorClausesMean(root, doc, query, orders);
      }
    }
  }

  /** Distinct paths are all a window needs. */
  lemma DistinctIsReliable(query: Query, orders: seq<SortOrder>)
    requires DistinctPaths(orders)
    ensures Reliable(query, orders)
  {
    if query.startAt.Some? && 0 < |query.startAt.value.values| <= |orders| {
      DistinctIsHarmless(orders, query.startAt.value.values, query.startAt.value.before, After);
    }
    if query.endAt.Some? && 0 < |query.endAt.value.values| <= |orders| {
      DistinctIsHarmless(orders, query.endAt.value.values, !query.endAt.value.before, Before);
    }
    ColumnsDistinct(orders);
    DistinctIsSteady(SortColumns(orders));
  }

  // ---- windows ----

  lemma PageOrdered(root: Utf8, all: seq<Document>, offset: int, limit: Option<int>, orders: seq<SortOrder>)
    requires Ordered(root, all, orders)
    ensures Ordered(root, Page(all, offset, limit), orders)
    ensures forall d :: d in Page(all, offset, limit) ==> d in all
  {}

  lemma PageDistinct(all: seq<Document>, offset: int, limit: Option<int>)
    requires DistinctDocs(all)
    ensures DistinctDocs(Page(all, offset, limit))
  {}

  /** Selecting from documents that qualify and are in order is no change. */
  lemma SelectedAlready(root: Utf8, docs: seq<Document>, query: Query, filters: seq<Filter>, orders: seq<SortOrder>)
    requires DistinctDocs(docs) && HasName(orders) && Ordered(root, docs, orders)
    requires forall d :: d in docs ==> Qualifies(root, d, query, filters, orders)
    ensures Selected(root, docs, query, filters, orders) == docs
  {
    SelectedShape(root, docs, query, filters, orders);
    OrderedUnique(root, Selected(root, docs, query, filters, orders), docs, orders);
  }

  lemma WindowedFetch(root: Utf8, members: seq<Document>, query: Query, filters: seq<Filter>, orders: seq<SortOrder>,
                      all: seq<Document>)
    requires DistinctDocs(members) && HasName(orders)
    requires forall d :: d in members ==> Indexable(d)
    requires Reliable(query, orders)
    requires
      var f := FetchFor(query, filters, orders, true);
      f.window.Some? && Listing(root, members, f.clause, all) && SortedBy(root, all, SortDocument(f.window.value.orderBy))
    ensures all == Selected(root, members, query, filters, orders)
    ensures forall d :: d in all ==> Qualifies(root, d, query, filters, orders)
    ensures Ordered(root, all, orders)
  {
    forall d | d in members
      ensures d in all <==> Qualifies(root, d, query, filters, orders)
    {
      FetchFaithful(root, d, query, filters, orders, true);
    }
    SortedByOrdered(root, all, orders);
    SelectedShape(root, members, query, filters, orders);
    OrderedUnique(root, all, Selected(root, members, query, filters, orders), orders);
  }

  lemma WindowBounds(query: Query, filters: seq<Filter>, orders: seq<SortOrder>)
    requires FetchFor(query, filters, orders, true).window.Some?
    ensures
      var w := FetchFor(query, filters, orders, true).window.value;
      w.orderBy == SortColumns(orders) && w.limit == query.limit && w.skip == if query.offset > 0 then query.offset else 0
    ensures ValidCursor(query.startAt, orders) && ValidCursor(query.endAt, orders)
  {}

  lemma UnwindowedFetch(root: Utf8, members: seq<Document>, query: Query, filters: seq<Filter>, orders: seq<SortOrder>,
                        planned: bool, docs: seq<Document>)
    requires DistinctDocs(members) && HasName(orders)
    requires planned ==> forall d :: d in members ==> Indexable(d)
    requires Listing(root, members, FetchFor(query, filters, orders, planned).clause, docs)
    ensures Selected(root, docs, query, filters, orders) == Selected(root, members, query, filters, orders)
  {
    forall d | Qualifies(root, d, query, filters, orders)
      ensures d in docs <==> d in members
    {
      if d in members {
        FetchFaithful(root, d, query, filters, orders, planned);
      }
    }
    SelectedAgree(root, docs, members, query, filters, orders);
  }

  /** The listing behind a page. */
  lemma WholeListing(root: Utf8, members: seq<Document>, f: FetchRequest, docs: seq<Document>) returns (all: seq<Document>)
    requires f.window.Some? && Fetched(root, members, f, docs)
    ensures Listing(root, members, f.clause, all) && SortedBy(root, all, SortDocument(f.window.value.orderBy))
    ensures docs == Page(all, f.window.value.skip, f.window.value.limit)
  {
    var w := f.window.value;
    all :| Listing(root, members, f.clause, all)
      && SortedBy(root, all, SortDocument(w.orderBy)) && docs == Page(all, w.skip, w.limit);
  }

  lemma WindowedResults(root: Utf8, members: seq<Document>, query: Query, filters: seq<Filter>, orders: seq<SortOrder>,
                        docs: seq<Document>)
    requires DistinctDocs(members) && HasName(orders) && Reliable(query, orders)
    requires forall d :: d in members ==> Indexable(d)
    requires FetchFor(query, filters, orders, true).window.Some?
    requires Fetched(root, members, FetchFor(query, filters, orders, true), docs)
    ensures Selected(root, docs, query, filters, orders)
         == Page(Selected(root, members, query, filters, orders), query.offset, query.limit)
  {
    var f := FetchFor(query, filters, orders, true);
    var w := f.window.value;
    var all := WholeListing(root, members, f, docs);
    WindowedFetch(root, members, query, filters, orders, all);
    WindowBounds(query, filters, orders);
    PageSelected(root, all, w.skip, w.limit, query, filters, orders);
  }

  lemma PageSelected(root: Utf8, all: seq<Document>, skip: nat, limit: Option<nat>, query: Query, filters: seq<Filter>,
                     orders: seq<SortOrder>)
    requires DistinctDocs(all) && HasName(orders) && Ordered(root, all, orders)
    requires forall d :: d in all ==> Qualifies(root, d, query, filters, orders)
    ensures Selected(root, Page(all, skip, limit), query, filters, orders) == Page(all, skip, limit)
  {
    PageOrdered(root, all, skip, limit, orders);
    PageDistinct(all, skip, limit);
    SelectedAlready(root, Page(all, skip, limit), query, filters, orders);
  }

  /** A window that is pushed into the store may rely on it. */
  ghost predicate SafeWindow(query: Query, filters: seq<Filter>) {
    var orders := NormalizedOrders(query, filters);
    FetchFor(query, filters, orders, true).window.Some? ==> Reliable(query, orders)
  }

  lemma DistinctIsSafe(query: Query, filters: seq<Filter>)
    requires DistinctPaths(query.orderBy)
    ensures SafeWindow(query, filters)
  {
    NormalizedOrdersShape(query, filters);
    DistinctIsReliable(query, NormalizedOrders(query, filters));
  }

  /** The equivalence: with or without the planner, whatever order rows come
      back in, the results are those of scanning every member. Only a window
      pushed into the store puts a condition on the query. */
  lemma PlannedEqualsScanned(root: Utf8, members: seq<Document>, query: Query, filters: seq<Filter>, planned: bool,
                             docs: seq<Document>)
    requires DistinctDocs(members)
    requires planned ==> (forall d :: d in members ==> Indexable(d)) && SafeWindow(query, filters)
    requires Fetched(root, members, FetchFor(query, filters, NormalizedOrders(query, filters), planned), docs)
    ensures
      var orders := NormalizedOrders(query, filters);
      Evaluated(root, docs, query, filters, orders, FetchFor(query, filters, orders, planned).window.Some?)
      == ResultsOf(root, members, query, filters, orders)
  {
    var orders := NormalizedOrders(query, filters);
    NormalizedOrdersShape(query, filters);
    if FetchFor(query, filters, orders, planned).window.None? {
      UnwindowedFetch(root, members, query, filters, orders, planned, docs);
    } else {
      WindowedResults(root, members, query, filters, orders, docs);
      WindowBounds(query, filters, orders);
    }
  }
}
