/** Running a query: flattening, planning, fetching, and the in-memory pass. */
module QueryEngine {
  import opened Orderings
  import opened Bytes
  import opened Results
  import opened Errors
  import opened Values
  import opened KeyOrdering
  import opened Mirror
  import opened Queries
  import opened Predicates
  import opened Planner
  import opened PlanExactness
  import opened SortKeys
  import opened CursorBranches
  import opened Fetching
  import opened PlannedQueries

  /** What was pushed so far, before what is still to come. */
  function Onto(first: seq<Filter>, rest: Result<seq<Filter>, EngineError>): Result<seq<Filter>, EngineError> {
    match rest
    case Err(e) => Err(e)
    case Ok(filters) => Ok(first + filters)
  }

  lemma OntoNext(first: seq<Filter>, filters: seq<Filter>)
    requires filters != []
    ensures
      match Flatten(filters[0])
      case Err(e) => Onto(first, FlattenAll(filters)) == Err(e)
      case Ok(next) => Onto(first, FlattenAll(filters)) == Onto(first + next, FlattenAll(filters[1..]))
  {
    if Flatten(filters[0]).Ok? && FlattenAll(filters[1..]).Ok? {
      var next, rest := Flatten(filters[0]).value, FlattenAll(filters[1..]).value;
      assert first + (next + rest) == first + next + rest;
    }
  }

  class FilterList {
    var out: seq<Filter>

    constructor ()
      ensures out == []
    {
      out := [];
    }

    /** Pushes the leaves of an AND tree; an OR stops it. */
    method FlattenAnd(filter: Filter) returns (error: Option<EngineError>)
      modifies this
      ensures match Flatten(filter)
        case Ok(leaves) => error == None && out == old(out) + leaves
        case Err(e) => error == Some(e)
      decreases filter, 0
    {
      match filter
      case NoFilter => return None;
      case Composite(conjunction, filters) =>
        if !conjunction {
          return Some(Unimplemented);
        }
        error := FlattenEach(filters);
      case _ =>
        out := out + [filter];
        return None;
    }

    method FlattenEach(filters: seq<Filter>) returns (error: Option<EngineError>)
      modifies this
      ensures match FlattenAll(filters)
        case Ok(leaves) => error == None && out == old(out) + leaves
        case Err(e) => error == Some(e)
      decreases filters, 0
    {
      var i := 0;
      while i < |filters|
        invariant 0 <= i <= |filters|
        invariant Onto(old(out), FlattenAll(filters)) == Onto(out, FlattenAll(filters[i..]))
      {
        OntoNext(out, filters[i..]);
        assert filters[i..][1..] == filters[i + 1..];
        error := FlattenAnd(filters[i]);
        if error.Some? {
          return;
        }
        i := i + 1;
      }
      return None;
    }
  }

  method FlattenWhere(query: Query) returns (filters: Result<seq<Filter>, EngineError>)
    ensures filters == FiltersOf(query)
  {
    var list := new FilterList();
    if query.where.Some? {
      var error := list.FlattenAnd(query.where.value);
      if error.Some? {
        return Err(error.value);
      }
      ghost var leaves := Flatten(query.where.value).value;
      assert [] + leaves == leaves;
    }
    return Ok(list.out);
  }

  method NormalizeOrders(query: Query, filters: seq<Filter>) returns (orders: seq<SortOrder>)
    ensures orders == NormalizedOrders(query, filters)
  {
    orders := query.orderBy;
    var last, present := LastDirection(orders), Paths(orders);
    var paths: set<Utf8> := {};
    var i := 0;
    while i < |filters|
      invariant 0 <= i <= |filters|
      invariant paths == InequalityPaths(filters[..i])
    {
      InequalityPathsNext(filters, i);
      var f := filters[i];
      if f.FieldFilter? && IsInequality(f.op) && f.field.Some? {
        paths := paths + {f.field.value};
      }
      i := i + 1;
    }
    assert filters[..i] == filters;
    var sorted := SortedKeys(paths);
    var j := 0;
    while j < |sorted|
      invariant 0 <= j <= |sorted|
      invariant Appended(orders, sorted[j..], present, last) == Appended(query.orderBy, sorted, present, last)
    {
      assert sorted[j..][1..] == sorted[j + 1..];
      var path := sorted[j];
      if path !in present && path != NAME {
        orders := orders + [SortOrder(path, last)];
      } else {
        assert orders + [] == orders;
      }
      j := j + 1;
    }
    if NAME !in present && NAME !in Paths(orders) {
      orders := orders + [SortOrder(NAME, last)];
    }
  }

  lemma InequalityPathsNext(filters: seq<Filter>, i: nat)
    requires i < |filters|
    ensures
      var f := filters[i];
      InequalityPaths(filters[..i + 1]) == InequalityPaths(filters[..i])
        + if f.FieldFilter? && IsInequality(f.op) && f.field.Some? then {f.field.value} else {}
  {
    assert filters[..i + 1] == filters[..i] + [filters[i]];
  }

  lemma FilterNext(clauses: seq<Clause>, filters: seq<Filter>, i: nat)
    requires i < |filters|
    ensures
      var t := ClauseFor(filters[i]);
      && clauses + FilterClauses(filters[i..])
         == (if t.Some? then clauses + [t.value.clause] else clauses) + FilterClauses(filters[i + 1..])
      && FiltersExact(filters[..i + 1]) == (FiltersExact(filters[..i]) && t.Some? && t.value.exact)
  {
    assert filters[i..][1..] == filters[i + 1..];
    assert filters[..i + 1] == filters[..i] + [filters[i]];
    var t, rest := ClauseFor(filters[i]), FilterClauses(filters[i + 1..]);
    if t.Some? {
      assert clauses + ([t.value.clause] + rest) == clauses + [t.value.clause] + rest;
    } else {
      assert [] + rest == rest;
    }
  }

  method FilterPart(filters: seq<Filter>) returns (clauses: seq<Clause>, exact: bool)
    ensures clauses == FilterClauses(filters)
    ensures exact == FiltersExact(filters)
  {
    clauses, exact := [], true;
    var i := 0;
    while i < |filters|
      invariant 0 <= i <= |filters|
      invariant clauses + FilterClauses(filters[i..]) == FilterClauses(filters)
      invariant exact == FiltersExact(filters[..i])
    {
      FilterNext(clauses, filters, i);
      var t := ClauseFor(filters[i]);
      if t.Some? {
        clauses := clauses + [t.value.clause];
        exact := exact && t.value.exact;
      } else {
        exact := false;
      }
      i := i + 1;
    }
    assert filters[..i] == filters;
  }

  lemma OrderClausesFrom(clauses: seq<Clause>, paths: seq<Utf8>, i: nat)
    requires i < |paths|
    ensures
      var more := if paths[i] != NAME && IsPlainPath(paths[i]) then clauses + [Exists(paths[i])] else clauses;
      clauses + OrderClauses(paths[i..]) == more + OrderClauses(paths[i + 1..])
  {
    assert paths[i..][1..] == paths[i + 1..];
    var rest := OrderClauses(paths[i + 1..]);
    assert [] + rest == rest;
    assert clauses + ([Exists(paths[i])] + rest) == clauses + [Exists(paths[i])] + rest;
  }

  method OrderPart(paths: seq<Utf8>) returns (clauses: seq<Clause>, exact: bool)
    ensures clauses == OrderClauses(paths)
    ensures exact == OrdersExact(paths)
  {
    clauses, exact := [], true;
    var i := 0;
    while i < |paths|
      invariant 0 <= i <= |paths|
      invariant clauses + OrderClauses(paths[i..]) == OrderClauses(paths)
      invariant exact == OrdersExact(paths[..i])
    {
      OrderClausesFrom(clauses, paths, i);
      assert paths[..i + 1] == paths[..i] + [paths[i]];
      // A name every document has; other sort keys are required by a clause.
      if paths[i] != NAME && IsPlainPath(paths[i]) {
        clauses := clauses + [Exists(paths[i])];
      } else if paths[i] != NAME {
        exact := false;
      }
      i := i + 1;
    }
    assert paths[..i] == paths;
  }

  method BuildPlan(filters: seq<Filter>, paths: seq<Utf8>) returns (plan: Plan)
    ensures plan == PlanFor(filters, paths)
  {
    var clauses, filtersExact := FilterPart(filters);
    var required, ordersExact := OrderPart(paths);
    clauses := clauses + required;
    return Plan(if clauses == [] then None else Some(And(clauses)), filtersExact && ordersExact);
  }

  method BuildCursorBound(columns: seq<SortColumn>, values: seq<Value>, inclusive: bool, bound: Bound)
    returns (clause: Option<Clause>)
    ensures clause == CursorBound(columns, values, inclusive, bound)
  {
    if values == [] || |values| > |columns| {
      return None;
    }
    var branches: seq<Clause> := [];
    for i := 0 to |values|
      invariant branches == Branches(columns, values, i, inclusive, bound)
    {
      var op := BranchOp(bound.After?, columns[i].1, i + 1 == |values| && inclusive);
      var branch: map<Utf8, Condition> := map[];
      for j := 0 to i
        invariant branch == Pinned(columns, values, j)
      {
        branch := branch[columns[j].0 := Is(IndexString(values[j]))];
      }
      branch := branch[columns[i].0 := Between(map[op := IndexString(values[i])])];
      branches := branches + [Where(branch)];
    }
    return Some(if |branches| == 1 then branches[0] else Or(branches));
  }

  method BuildCursorClauses(query: Query, columns: seq<SortColumn>, orders: seq<SortOrder>)
    returns (clauses: Option<seq<Clause>>)
    requires columns == SortColumns(orders)
    ensures clauses == CursorClauses(query, orders)
  {
    if query.startAt.None? && query.endAt.None? {
      return Some([]);
    }
    // A backtick-escaped order path has no unambiguous column.
    if exists o :: o in orders && !IsPlainPath(o.path) {
      return None;
    }
    var start: seq<Clause>, end: seq<Clause> := [], [];
    if query.startAt.Some? {
      var cursor := query.startAt.value;
      // `before` includes the value for a start, and excludes it for an end.
      var clause := BuildCursorBound(columns, cursor.values, cursor.before, After);
      if clause.None? {
        return None;
      }
      start := [clause.value];
    }
    if query.endAt.Some? {
      var cursor := query.endAt.value;
      var clause := BuildCursorBound(columns, cursor.values, !cursor.before, Before);
      if clause.None? {
        return None;
      }
      end := [clause.value];
    }
    return Some(start + end);
  }

  method Request(query: Query, filters: seq<Filter>, orders: seq<SortOrder>, planned: bool) returns (request: FetchRequest)
    ensures request == FetchFor(query, filters, orders, planned)
  {
    if !planned {
      return FetchRequest(None, None);
    }
    var plan := BuildPlan(filters, OrderPaths(orders));
    var columns := SortColumns(orders);
    var cursors := BuildCursorClauses(query, columns, orders);
    var window := if cursors.Some? then PushdownWindow(query, columns, plan.exact) else None;
    return FetchRequest(Conjoin(plan.clause, if cursors.Some? then cursors.value else []), window);
  }

  lemma KeepNext(root: Utf8, kept: seq<Document>, docs: seq<Document>, test: Test)
    requires docs != []
    ensures kept + Keep(root, docs, test)
         == (if Passes(root, docs[0], test) then kept + [docs[0]] else kept) + Keep(root, docs[1..], test)
  {
    var rest := Keep(root, docs[1..], test);
    assert kept + ([docs[0]] + rest) == kept + [docs[0]] + rest;
    assert [] + rest == rest;
  }

  method Retain(root: Utf8, docs: seq<Document>, test: Test) returns (kept: seq<Document>)
    ensures kept == Keep(root, docs, test)
  {
    kept := [];
    var i := 0;
    while i < |docs|
      invariant 0 <= i <= |docs|
      invariant kept + Keep(root, docs[i..], test) == Keep(root, docs, test)
    {
      KeepNext(root, kept, docs[i..], test);
      assert docs[i..][1..] == docs[i + 1..];
      if Passes(root, docs[i], test) {
        kept := kept + [docs[i]];
      }
      i := i + 1;
    }
  }

  // ---- the store ----

  lemma {:induction false} RowsReverse(a: Row, b: Row, columns: seq<SortColumn>)
    ensures CompareColumns(b, a, columns) == CompareColumns(a, b, columns).Reverse()
  {
    if columns != [] {
      var u, v := Column(a, columns[0].0), Column(b, columns[0].0);
      if u.Some? && v.Some? {
        LexReverse(u.value, v.value);
      }
      RowsReverse(a, b, columns[1..]);
    }
  }

  function CompareOptions(u: Option<Utf8>, v: Option<Utf8>, ascending: bool): Ordering {
    var c :=
      if u.None? then (if v.None? then Equal else Less)
      else if v.None? then Greater
      else LexCompare(u.value, v.value);
    if ascending then c else c.Reverse()
  }

  lemma OptionsTransitive(u: Option<Utf8>, v: Option<Utf8>, w: Option<Utf8>, ascending: bool)
    requires CompareOptions(u, v, ascending) != Greater && CompareOptions(v, w, ascending) != Greater
    ensures CompareOptions(u, w, ascending) != Greater
    ensures CompareOptions(u, w, ascending) == Equal ==> u == v == w
  {
    if u.Some? && v.Some? && w.Some? {
      FirstTransitive(u.value, v.value, w.value, if ascending then Ascending else Descending);
    }
  }

  lemma {:induction false} RowsTransitive(a: Row, b: Row, c: Row, columns: seq<SortColumn>)
    requires CompareColumns(a, b, columns) != Greater && CompareColumns(b, c, columns) != Greater
    ensures CompareColumns(a, c, columns) != Greater
  {
    if columns != [] {
      var u, v, w := Column(a, columns[0].0), Column(b, columns[0].0), Column(c, columns[0].0);
      OptionsTransitive(u, v, w, columns[0].1);
      if u == v == w {
        if u.Some? {
          LexEqual(u.value, u.value);
        }
        RowsTransitive(a, b, c, columns[1..]);
      }
    }
  }

  /** One database's documents. */
  class Store {
    const root: Utf8
    var docs: seq<Document>

    ghost predicate Valid()
      reads this
    {
      DistinctDocs(docs)
    }

    constructor (root: Utf8, docs: seq<Document>)
      requires DistinctDocs(docs)
      ensures this.root == root && this.docs == docs && Valid()
    {
      this.root := root;
      this.docs := docs;
    }

    method List(scope: Scope, clause: Option<Clause>) returns (rows: seq<Document>)
      requires Valid()
      ensures Listing(root, Members(docs, scope), clause, rows)
    {
      rows := [];
      var i := 0;
      while i < |docs|
        invariant 0 <= i <= |docs|
        invariant DistinctDocs(rows)
        invariant forall d :: d in rows <==> d in docs[..i] && InScope(d, scope) && MatchesAll(RowOf(root, d), clause)
      {
        assert docs[..i + 1] == docs[..i] + [docs[i]];
        if InScope(docs[i], scope) && MatchesAll(RowOf(root, docs[i]), clause) {
          forall d | d in rows
            ensures d.path != docs[i].path
          {
            assert d in docs[..i];
          }
          rows := rows + [docs[i]];
        }
        i := i + 1;
      }
      assert docs[..i] == docs;
    }

    method InsertRow(sorted: seq<Document>, row: Document, columns: seq<SortColumn>) returns (all: seq<Document>)
      requires SortedBy(root, sorted, columns)
      ensures SortedBy(root, all, columns)
      ensures SameDocs(all, sorted + [row])
      ensures DistinctDocs(sorted) && (forall d :: d in sorted ==> d.path != row.path) ==> DistinctDocs(all)
    {
      var k := |sorted|;
      while k > 0 && CompareColumns(RowOf(root, sorted[k - 1]), RowOf(root, row), columns) == Greater
        invariant 0 <= k <= |sorted|
        invariant forall j :: k <= j < |sorted| ==>
          CompareColumns(RowOf(root, sorted[j]), RowOf(root, row), columns) == Greater
      {
        k := k - 1;
      }
      all := sorted[..k] + [row] + sorted[k..];
      InsertedSorted(root, sorted, k, row, columns);
      InsertedDocs(sorted, k, row);
    }

    /** Insertion sort by columns. */
    method SortRows(rows: seq<Document>, columns: seq<SortColumn>) returns (sorted: seq<Document>)
      requires DistinctDocs(rows)
      ensures SortedBy(root, sorted, columns)
      ensures SameDocs(sorted, rows)
      ensures DistinctDocs(sorted)
    {
      sorted := [];
      var i := 0;
      while i < |rows|
        invariant 0 <= i <= |rows|
        invariant SortedBy(root, sorted, columns)
        invariant SameDocs(sorted, rows[..i]) && DistinctDocs(sorted)
      {
        assert rows[..i + 1] == rows[..i] + [rows[i]];
        forall d | d in sorted
          ensures d.path != rows[i].path
        {
          assert d in rows[..i];
        }
        sorted := InsertRow(sorted, rows[i], columns);
        i := i + 1;
      }
      assert rows[..i] == rows;
    }

    method Fetch(scope: Scope, fetching: FetchRequest) returns (rows: seq<Document>)
      requires Valid()
      ensures Fetched(root, Members(docs, scope), fetching, rows)
    {
      rows := List(scope, fetching.clause);
      if fetching.window.Some? {
        var w := fetching.window.value;
        rows := SortRows(rows, SortDocument(w.orderBy));
        rows := Page(rows, w.skip, w.limit);
      }
    }
  }

  lemma InsertedDocs(sorted: seq<Document>, k: nat, row: Document)
    requires k <= |sorted|
    ensures SameDocs(sorted[..k] + [row] + sorted[k..], sorted + [row])
    ensures DistinctDocs(sorted) && (forall d :: d in sorted ==> d.path != row.path)
      ==> DistinctDocs(sorted[..k] + [row] + sorted[k..])
  {
    assert sorted == sorted[..k] + sorted[k..];
  }

  lemma InsertedSorted(root: Utf8, sorted: seq<Document>, k: nat, doc: Document, columns: seq<SortColumn>)
    requires k <= |sorted| && SortedBy(root, sorted, columns)
    requires k > 0 ==> CompareColumns(RowOf(root, sorted[k - 1]), RowOf(root, doc), columns) != Greater
    requires forall j :: k <= j < |sorted| ==>
      CompareColumns(RowOf(root, sorted[j]), RowOf(root, doc), columns) == Greater
    ensures SortedBy(root, sorted[..k] + [doc] + sorted[k..], columns)
  {
    forall j | 0 <= j < k
      ensures CompareColumns(RowOf(root, sorted[j]), RowOf(root, doc), columns) != Greater
    {
      if j < k - 1 {
        RowsTransitive(RowOf(root, sorted[j]), RowOf(root, sorted[k - 1]), RowOf(root, doc), columns);
      }
    }
    forall j | k <= j < |sorted|
      ensures CompareColumns(RowOf(root, doc), RowOf(root, sorted[j]), columns) != Greater
    {
      RowsReverse(RowOf(root, sorted[j]), RowOf(root, doc), columns);
    }
  }

  /** The in-memory pass over the rows that came back. */
  method Refine(root: Utf8, rows: seq<Document>, query: Query, filters: seq<Filter>, orders: seq<SortOrder>, paged: bool)
    returns (result: Result<seq<Document>, EngineError>)
    ensures result == Evaluated(root, rows, query, filters, orders, paged)
  {
    var docs := Retain(root, rows, Filters(filters));
    docs := Retain(root, docs, Sortable(orders));
    docs := Sort(root, docs, orders);
    if query.startAt.Some? {
      if |query.startAt.value.values| > |orders| {
        return Err(InvalidArgument);
      }
      docs := Retain(root, docs, From(query.startAt.value, orders));
    }
    if query.endAt.Some? {
      if |query.endAt.value.values| > |orders| {
        return Err(InvalidArgument);
      }
      docs := Retain(root, docs, Until(query.endAt.value, orders));
    }
    if !paged {
      docs := Paged(docs, query.offset, query.limit);
    }
    return Ok(docs);
  }

  method Paged(docs: seq<Document>, offset: int, limit: Option<int>) returns (page: seq<Document>)
    ensures page == Page(docs, offset, limit)
  {
    page := docs;
    if offset > 0 {
      var drained := if offset < |page| then offset else |page|;
      page := page[drained..];
    }
    if limit.Some? {
      var length := if limit.value > 0 then limit.value else 0;
      if length < |page| {
        page := page[..length];
      }
    }
  }

  method FetchAndRefine(store: Store, scope: Scope, query: Query, filters: seq<Filter>, planned: bool)
    returns (result: Result<seq<Document>, EngineError>)
    requires store.Valid()
    requires planned ==> (forall d :: d in store.docs ==> Indexable(d)) && SafeWindow(query, filters)
    ensures result == ResultsOf(store.root, Members(store.docs, scope), query, filters, NormalizedOrders(query, filters))
  {
    var orders := NormalizeOrders(query, filters);
    var request := Request(query, filters, orders, planned);
    var rows := store.Fetch(scope, request);
    MembersDistinct(store.docs, scope);
    PlannedEqualsScanned(store.root, Members(store.docs, scope), query, filters, planned, rows);
    result := Refine(store.root, rows, query, filters, orders, request.window.Some?);
  }

  /** `run_query` and, unplanned, `run_query_scanning`: both are the query's
      answer over every stored document. */
  method Evaluate(store: Store, parent: seq<Utf8>, query: Query, planned: bool)
    returns (result: Result<seq<Document>, EngineError>)
    requires store.Valid()
    requires planned ==> forall d :: d in store.docs ==> Indexable(d)
    requires planned && FiltersOf(query).Ok? ==> SafeWindow(query, FiltersOf(query).value)
    ensures result == Answer(store.root, store.docs, parent, query)
  {
    if |query.from| != 1 {
      return Err(InvalidArgument);
    }
    var filters := FlattenWhere(query);
    if filters.Err? {
      return Err(filters.error);
    }
    var scope := ScopeOf(parent, query.from[0]);
    if scope.Err? {
      return Err(scope.error);
    }
    result := FetchAndRefine(store, scope.value, query, filters.value, planned);
  }
}
