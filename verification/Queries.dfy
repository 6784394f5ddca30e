/** Structured queries, and what it means for a document to satisfy one. */
module Queries {
  import opened Orderings
  import opened Bytes
  import opened Bits
  import opened Numbers
  import opened Results
  import opened Errors
  import opened Values
  import opened Order
  import opened KeyOrdering
  import opened Fields

  /** "__name__". */
  const NAME: Utf8 := [0x5F, 0x5F, 0x6E, 0x61, 0x6D, 0x65, 0x5F, 0x5F]

  datatype FieldOp =
    | Unspecified | LessThan | LessThanOrEqual | GreaterThan | GreaterThanOrEqual
    | Equals | NotEqual | ArrayContains | In | ArrayContainsAny | NotIn

  datatype UnaryOp = UnaryUnspecified | IsNan | IsNull | IsNotNan | IsNotNull

  datatype Filter =
    | NoFilter
    | Composite(conjunction: bool, filters: seq<Filter>)
    | FieldFilter(field: Option<Utf8>, op: FieldOp, operand: Option<Value>)
    | UnaryFilter(operandField: Option<Utf8>, unary: UnaryOp)

  datatype Direction = DirectionUnspecified | Ascending | Descending

  datatype SortOrder = SortOrder(path: Utf8, direction: Direction)

  datatype Cursor = Cursor(values: seq<Value>, before: bool)

  datatype Selector = Selector(collectionId: Utf8, allDescendants: bool)

  datatype Query = Query(
    from: seq<Selector>,
    where: Option<Filter>,
    orderBy: seq<SortOrder>,
    startAt: Option<Cursor>,
    endAt: Option<Cursor>,
    offset: int,
    limit: Option<int>)

  /** A document as read back: its path below the documents root, its times
      in microseconds, its fields. */
  datatype Document = Document(path: Utf8, createTime: i64, updateTime: i64, fields: FieldMap)

  // ---- filters ----

  /** AND trees become lists; anything OR is refused. */
  function Flatten(filter: Filter): Result<seq<Filter>, EngineError>
    decreases filter, 0
  {
    match filter
    case NoFilter => Ok([])
    case Composite(conjunction, filters) => if conjunction then FlattenAll(filters) else Err(Unimplemented)
    case _ => Ok([filter])
  }

  function FlattenAll(filters: seq<Filter>): Result<seq<Filter>, EngineError>
    decreases filters, 0
  {
    if filters == [] then Ok([])
    else
      match Flatten(filters[0])
      case Err(e) => Err(e)
      case Ok(first) =>
        match FlattenAll(filters[1..])
        case Err(e) => Err(e)
        case Ok(rest) => Ok(first + rest)
  }

  /** The reference a document's `__name__` stands for. */
  function NameOf(root: Utf8, path: Utf8): Value {
    Reference(root + [SLASH] + path)
  }

  function FieldValue(root: Utf8, doc: Document, path: Utf8): Option<Value> {
    if path == NAME then Some(NameOf(root, doc.path)) else GetField(doc.fields, SplitPath(path))
  }

  predicate IsNaN(v: Value) {
    v.Num? && v.number.IsNaN()
  }

  /** Null and NaN operands never match, and values compare within one type. */
  predicate QueryEq(v: Value, operand: Value) {
    && !operand.Null? && !IsNaN(operand) && !IsNaN(v)
    && SameTypeRank(v, operand) && CompareValues(v, operand) == Equal
  }

  predicate Inequality(v: Value, operand: Value, want: Ordering, orEqual: bool) {
    && !IsNaN(v) && !IsNaN(operand) && !operand.Null? && SameTypeRank(v, operand)
    && (CompareValues(v, operand) == want || (orEqual && CompareValues(v, operand) == Equal))
  }

  predicate EqualsAny(v: Value, operands: seq<Value>) {
    exists o :: o in operands && QueryEq(v, o)
  }

  predicate MatchesOperator(v: Value, op: FieldOp, operand: Value) {
    match op
    case Equals => QueryEq(v, operand)
    case NotEqual => !v.Null? && !IsNaN(v) && !operand.Null? && !QueryEq(v, operand)
    case LessThan => Inequality(v, operand, Less, false)
    case LessThanOrEqual => Inequality(v, operand, Less, true)
    case GreaterThan => Inequality(v, operand, Greater, false)
    case GreaterThanOrEqual => Inequality(v, operand, Greater, true)
    case ArrayContains => v.Array? && exists x :: x in v.values && QueryEq(x, operand)
    case In => operand.Array? && EqualsAny(v, operand.values)
    case ArrayContainsAny => v.Array? && operand.Array? && exists x :: x in v.values && EqualsAny(x, operand.values)
    case NotIn =>
      && !v.Null? && !IsNaN(v) && operand.Array?
      && !(exists o :: o in operand.values && o.Null?) && !EqualsAny(v, operand.values)
    case Unspecified => false
  }

  predicate MatchesUnary(value: Option<Value>, op: UnaryOp) {
    && value.Some?
    && var v := value.value;
       match op
       case IsNull => v.Null?
       case IsNan => IsNaN(v)
       case IsNotNull => !v.Null?
       case IsNotNan => !v.Null? && !IsNaN(v)
       case UnaryUnspecified => false
  }

  /** A flattened filter on one document. */
  predicate MatchesFilter(root: Utf8, doc: Document, filter: Filter) {
    match filter
    case FieldFilter(field, op, operand) =>
      && field.Some? && operand.Some?
      && var v := FieldValue(root, doc, field.value);
         v.Some? && MatchesOperator(v.value, op, operand.value)
    case UnaryFilter(field, op) =>
      field.Some? && MatchesUnary(FieldValue(root, doc, field.value), op)
    case _ => false
  }

  // ---- orders ----

  predicate IsInequality(op: FieldOp) {
    op.LessThan? || op.LessThanOrEqual? || op.GreaterThan? || op.GreaterThanOrEqual? || op.NotEqual? || op.NotIn?
  }

  function InequalityPaths(filters: seq<Filter>): set<Utf8> {
    set f | f in filters && f.FieldFilter? && IsInequality(f.op) && f.field.Some? :: f.field.value
  }

  function Paths(orders: seq<SortOrder>): set<Utf8> {
    set o | o in orders :: o.path
  }

  function Appended(orders: seq<SortOrder>, paths: seq<Utf8>, present: set<Utf8>, direction: Direction): seq<SortOrder>
    decreases |paths|
  {
    if paths == [] then orders
    else
      var more := if paths[0] !in present && paths[0] != NAME then [SortOrder(paths[0], direction)] else [];
      Appended(orders + more, paths[1..], present, direction)
  }

  function LastDirection(orders: seq<SortOrder>): Direction {
    if orders == [] then Ascending else orders[|orders| - 1].direction
  }

  /** Explicit orders, then the inequality fields by name, then `__name__`. */
  function NormalizedOrders(query: Query, filters: seq<Filter>): (orders: seq<SortOrder>) {
    var last := LastDirection(query.orderBy);
    var orders := Appended(query.orderBy, SortedKeys(InequalityPaths(filters)), Paths(query.orderBy), last);
    if NAME !in Paths(query.orderBy) && NAME !in Paths(orders) then orders + [SortOrder(NAME, last)] else orders
  }

  function Directed(c: Ordering, direction: Direction): Ordering {
    if direction.Descending? then c.Reverse() else c
  }

  function CompareDocs(root: Utf8, a: Document, b: Document, orders: seq<SortOrder>): Ordering {
    if orders == [] then Equal
    else
      var u, v := FieldValue(root, a, orders[0].path), FieldValue(root, b, orders[0].path);
      if u.None? || v.None? then CompareDocs(root, a, b, orders[1..])
      else Directed(CompareValues(u.value, v.value), orders[0].direction).Then(CompareDocs(root, a, b, orders[1..]))
  }

  function CompareToCursor(root: Utf8, doc: Document, values: seq<Value>, orders: seq<SortOrder>): Ordering {
    if values == [] || orders == [] then Equal
    else
      var v := FieldValue(root, doc, orders[0].path);
      if v.None? then CompareToCursor(root, doc, values[1..], orders[1..])
      else
        Directed(CompareValues(v.value, values[0]), orders[0].direction)
        .Then(CompareToCursor(root, doc, values[1..], orders[1..]))
  }

  predicate ValidCursor(cursor: Option<Cursor>, orders: seq<SortOrder>) {
    cursor.Some? ==> |cursor.value.values| <= |orders|
  }

  // ---- the answer ----

  /** The tests `evaluate` drops documents by. */
  datatype Test =
    | Filters(filters: seq<Filter>)
    | Sortable(orders: seq<SortOrder>)
    | From(start: Cursor, orders: seq<SortOrder>)
    | Until(end: Cursor, orders: seq<SortOrder>)

  predicate Passes(root: Utf8, doc: Document, test: Test) {
    match test
    case Filters(filters) => forall f :: f in filters ==> MatchesFilter(root, doc, f)
    case Sortable(orders) => forall o :: o in orders ==> FieldValue(root, doc, o.path).Some?
    case From(start, orders) =>
      var c := CompareToCursor(root, doc, start.values, orders);
      c == Greater || (c == Equal && start.before)
    case Until(end, orders) =>
      var c := CompareToCursor(root, doc, end.values, orders);
      c == Less || (c == Equal && !end.before)
  }

  function Keep(root: Utf8, docs: seq<Document>, test: Test): (kept: seq<Document>)
    ensures forall d :: d in kept <==> d in docs && Passes(root, d, test)
  {
    if docs == [] then []
    else (if Passes(root, docs[0], test) then [docs[0]] else []) + Keep(root, docs[1..], test)
  }

  function Insert(root: Utf8, doc: Document, docs: seq<Document>, orders: seq<SortOrder>): (all: seq<Document>)
    ensures multiset(all) == multiset(docs) + multiset{doc}
  {
    if docs == [] || CompareDocs(root, doc, docs[0], orders) != Greater then [doc] + docs
    else
      assert docs == [docs[0]] + docs[1..];
      [docs[0]] + Insert(root, doc, docs[1..], orders)
  }

  /** A stable sort. */
  function Sort(root: Utf8, docs: seq<Document>, orders: seq<SortOrder>): (sorted: seq<Document>)
    ensures multiset(sorted) == multiset(docs)
  {
    if docs == [] then []
    else
      assert docs == [docs[0]] + docs[1..];
      Insert(root, docs[0], Sort(root, docs[1..], orders), orders)
  }

  function Page(docs: seq<Document>, offset: int, limit: Option<int>): seq<Document> {
    var rest := if offset <= 0 then docs else if offset <= |docs| then docs[offset..] else [];
    if limit.None? then rest
    else if limit.value <= 0 then []
    else if limit.value <= |rest| then rest[..limit.value] else rest
  }

  function KeepFrom(root: Utf8, docs: seq<Document>, cursor: Option<Cursor>, orders: seq<SortOrder>): seq<Document> {
    if cursor.Some? then Keep(root, docs, From(cursor.value, orders)) else docs
  }

  function KeepUntil(root: Utf8, docs: seq<Document>, cursor: Option<Cursor>, orders: seq<SortOrder>): seq<Document> {
    if cursor.Some? then Keep(root, docs, Until(cursor.value, orders)) else docs
  }

  /** What the candidates contribute, in order, before paging. */
  function Selected(root: Utf8, docs: seq<Document>, query: Query, filters: seq<Filter>, orders: seq<SortOrder>): seq<Document> {
    var kept := Keep(root, Keep(root, docs, Filters(filters)), Sortable(orders));
    KeepUntil(root, KeepFrom(root, Sort(root, kept, orders), query.startAt, orders), query.endAt, orders)
  }

  function ResultsOf(root: Utf8, docs: seq<Document>, query: Query, filters: seq<Filter>, orders: seq<SortOrder>)
    : Result<seq<Document>, EngineError>
  {
    if !ValidCursor(query.startAt, orders) || !ValidCursor(query.endAt, orders) then Err(InvalidArgument)
    else Ok(Page(Selected(root, docs, query, filters, orders), query.offset, query.limit))
  }

  datatype Scope = Collection(path: Utf8) | Group(id: Utf8)

  /** The collection a selector reaches from a parent. */
  function ScopeOf(parent: seq<Utf8>, selector: Selector): Result<Scope, EngineError> {
    if selector.allDescendants then
      if parent != [] then Err(Unimplemented) else Ok(Group(selector.collectionId))
    else if selector.collectionId == [] then Err(InvalidArgument)
    else Ok(Collection(Join(parent + [selector.collectionId], SLASH)))
  }

  predicate InScope(doc: Document, scope: Scope) {
    var segments := Split(doc.path, SLASH);
    && |segments| >= 2
    && match scope
       case Collection(path) => Join(segments[..|segments| - 1], SLASH) == path
       case Group(id) => segments[|segments| - 2] == id
  }

  function Members(docs: seq<Document>, scope: Scope): (members: seq<Document>)
    ensures forall d :: d in members <==> d in docs && InScope(d, scope)
  {
    if docs == [] then []
    else (if InScope(docs[0], scope) then [docs[0]] else []) + Members(docs[1..], scope)
  }

  function FiltersOf(query: Query): Result<seq<Filter>, EngineError> {
    if query.where.Some? then Flatten(query.where.value) else Ok([])
  }

  /** The answer of a query by exhaustive evaluation over stored documents. */
  function Answer(root: Utf8, store: seq<Document>, parent: seq<Utf8>, query: Query)
    : Result<seq<Document>, EngineError>
  {
    if |query.from| != 1 then Err(InvalidArgument)
    else
      match FiltersOf(query)
      case Err(e) => Err(e)
      case Ok(filters) =>
        match ScopeOf(parent, query.from[0])
        case Err(e) => Err(e)
        case Ok(scope) =>
          ResultsOf(root, Members(store, scope), query, filters, NormalizedOrders(query, filters))
  }
}
