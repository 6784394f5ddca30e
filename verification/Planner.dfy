/** Translating filters, orders and cursors into a store predicate. */
module Planner {
  import opened Bytes
  import opened Numbers
  import opened NumberParts
  import opened Results
  import opened Values
  import opened IndexKey
  import opened KeyOrdering
  import opened Fields
  import opened Mirror
  import opened Queries
  import opened Predicates

  const BACKTICK: byte := 0x60

  datatype Plan = Plan(clause: Option<Clause>, exact: bool)

  datatype Translation = Translation(clause: Clause, exact: bool)

  datatype Bound = After | Before

  predicate IsPlainPath(path: Utf8) {
    BACKTICK !in path
  }

  /** The stored column of a field path's key. */
  function SortField(path: Utf8): Utf8 {
    if path == NAME then NAME_KEY else KEYS + [DOT] + path + [DOT] + VALUE_KEY
  }

  function ValueClause(path: Utf8, condition: Condition): Clause {
    Where(map[SortField(path) := condition])
  }

  /** Every stored key is a non-empty string, so `>= ""` is presence. */
  function Exists(path: Utf8): Clause {
    ValueClause(path, Between(map[Ge := []]))
  }

  const NAN_KEY: Utf8 := IndexString(Num(Double(CANONICAL_NAN)))
  const NULL_KEY: Utf8 := IndexString(Null)

  predicate Comparable(operand: Value) {
    !operand.Null? && !IsNaN(operand)
  }

  function FromHexDigit(d: byte): Option<nat> {
    if 0x30 <= d <= 0x39 then Some(d - 0x30)
    else if 0x61 <= d <= 0x66 then Some(d - 0x57)
    else None
  }

  function FromHexByte(s: Utf8): Option<nat> {
    if |s| != 2 || FromHexDigit(s[0]).None? || FromHexDigit(s[1]).None? then None
    else Some(16 * FromHexDigit(s[0]).value + FromHexDigit(s[1]).value)
  }

  /** A range confined to the operand's type: its tag below, the next byte
      above, and just past NaN below numbers. */
  function Range(path: Utf8, operand: Value, op: Comparator): Option<Translation> {
    if !Comparable(operand) then None
    else
      var bound := IndexString(operand);
      var tag := bound[..2];
      if op == Lt || op == Le then
        var floor := if operand.Num? then map[op := bound, Gt := NAN_KEY] else map[op := bound, Ge := tag];
        Some(Translation(ValueClause(path, Between(floor)), true))
      else
        var parsed := FromHexByte(tag);
        if parsed.None? || parsed.value >= 255 then None
        else Some(Translation(ValueClause(path, Between(map[op := bound, Lt := Hex([parsed.value + 1])])), true))
  }

  /** The keys of the operands that can match anything. */
  function ComparableKeys(values: seq<Value>): seq<Utf8> {
    if values == [] then []
    else (if Comparable(values[0]) then [IndexString(values[0])] else []) + ComparableKeys(values[1..])
  }

  function KeySet(operand: Value): Option<seq<Utf8>> {
    if !operand.Array? || ComparableKeys(operand.values) == [] then None
    else Some(ComparableKeys(operand.values))
  }

  function TranslateOperator(path: Utf8, op: FieldOp, operand: Value): Option<Translation> {
    match op
    case Equals =>
      if Comparable(operand) then Some(Translation(ValueClause(path, Is(IndexString(operand))), true)) else None
    case LessThan => Range(path, operand, Lt)
    case LessThanOrEqual => Range(path, operand, Le)
    case GreaterThan => Range(path, operand, Gt)
    case GreaterThanOrEqual => Range(path, operand, Ge)
    case ArrayContains =>
      if Comparable(operand) then Some(Translation(AnyElement(path, Is(IndexString(operand))), true)) else None
    case ArrayContainsAny =>
      if KeySet(operand).Some? then Some(Translation(AnyElement(path, OneOf(KeySet(operand).value)), true)) else None
    case In =>
      if KeySet(operand).Some? then Some(Translation(ValueClause(path, OneOf(KeySet(operand).value)), true)) else None
    // The exclusion itself is left to the in-memory pass.
    case NotEqual => Some(Translation(Exists(path), false))
    case NotIn => Some(Translation(Exists(path), false))
    case Unspecified => None
  }

  function TranslateUnary(path: Utf8, op: UnaryOp): Option<Translation> {
    match op
    case IsNull => Some(Translation(ValueClause(path, Is(NULL_KEY)), true))
    case IsNan => Some(Translation(ValueClause(path, Is(NAN_KEY)), true))
    case IsNotNull => Some(Translation(Exists(path), false))
    case IsNotNan => Some(Translation(Exists(path), false))
    case UnaryUnspecified => None
  }

  function ClauseFor(filter: Filter): Option<Translation> {
    match filter
    case FieldFilter(field, op, operand) =>
      if field.None? || !IsPlainPath(field.value) || operand.None? then None
      else TranslateOperator(field.value, op, operand.value)
    case UnaryFilter(field, op) =>
      if field.None? || !IsPlainPath(field.value) then None else TranslateUnary(field.value, op)
    case _ => None
  }

  // ---- cursors ----

  /** A sort column and whether it ascends. */
  type SortColumn = (Utf8, bool)

  function SortColumns(orders: seq<SortOrder>): (columns: seq<SortColumn>)
    ensures |columns| == |orders|
    ensures forall i :: 0 <= i < |orders| ==>
      columns[i] == (SortField(orders[i].path), !orders[i].direction.Descending?)
  {
    if orders == [] then []
    else [(SortField(orders[0].path), !orders[0].direction.Descending?)] + SortColumns(orders[1..])
  }

  function BranchOp(after: bool, ascending: bool, inclusive: bool): Comparator {
    if after == ascending then (if inclusive then Ge else Gt) else if inclusive then Le else Lt
  }

  /** Equality on the first `i` columns. */
  function Pinned(columns: seq<SortColumn>, values: seq<Value>, i: nat): map<Utf8, Condition>
    requires i <= |columns| && i <= |values|
  {
    if i == 0 then map[] else Pinned(columns, values, i - 1)[columns[i - 1].0 := Is(IndexString(values[i - 1]))]
  }

  function Branch(columns: seq<SortColumn>, values: seq<Value>, i: nat, inclusive: bool, bound: Bound): Clause
    requires i < |values| <= |columns|
  {
    var op := BranchOp(bound.After?, columns[i].1, i + 1 == |values| && inclusive);
    Where(Pinned(columns, values, i)[columns[i].0 := Between(map[op := IndexString(values[i])])])
  }

  function Branches(columns: seq<SortColumn>, values: seq<Value>, count: nat, inclusive: bool, bound: Bound)
    : (branches: seq<Clause>)
    requires count <= |values| <= |columns|
    ensures |branches| == count
    ensures forall i :: 0 <= i < count ==> branches[i] == Branch(columns, values, i, inclusive, bound)
  {
    if count == 0 then []
    else Branches(columns, values, count - 1, inclusive, bound) + [Branch(columns, values, count - 1, inclusive, bound)]
  }

  /** The keyset predicate: an OR of equality-prefixed branches. */
  function CursorBound(columns: seq<SortColumn>, values: seq<Value>, inclusive: bool, bound: Bound): Option<Clause> {
    if values == [] || |values| > |columns| then None
    else
      var branches := Branches(columns, values, |values|, inclusive, bound);
      Some(if |branches| == 1 then branches[0] else Or(branches))
  }

  function CursorClause(query: Query, columns: seq<SortColumn>, bound: Bound): Option<seq<Clause>> {
    var cursor := if bound.After? then query.startAt else query.endAt;
    if cursor.None? then Some([])
    else
      var inclusive := if bound.After? then cursor.value.before else !cursor.value.before;
      var clause := CursorBound(columns, cursor.value.values, inclusive, bound);
      if clause.Some? then Some([clause.value]) else None
  }

  /** `None` when a cursor cannot be expressed, which bars any window. */
  function CursorClauses(query: Query, orders: seq<SortOrder>): Option<seq<Clause>> {
    if query.startAt.None? && query.endAt.None? then Some([])
    else if exists o :: o in orders && !IsPlainPath(o.path) then None
    else
      var columns := SortColumns(orders);
      var start, end := CursorClause(query, columns, After), CursorClause(query, columns, Before);
      if start.Some? && end.Some? then Some(start.value + end.value) else None
  }

  // ---- the plan ----

  function FilterClauses(filters: seq<Filter>): seq<Clause> {
    if filters == [] then []
    else
      var t := ClauseFor(filters[0]);
      (if t.Some? then [t.value.clause] else []) + FilterClauses(filters[1..])
  }

  predicate FiltersExact(filters: seq<Filter>) {
    forall f :: f in filters ==> ClauseFor(f).Some? && ClauseFor(f).value.exact
  }

  function OrderClauses(paths: seq<Utf8>): seq<Clause> {
    if paths == [] then []
    else (if paths[0] != NAME && IsPlainPath(paths[0]) then [Exists(paths[0])] else []) + OrderClauses(paths[1..])
  }

  predicate OrdersExact(paths: seq<Utf8>) {
    forall p :: p in paths ==> p == NAME || IsPlainPath(p)
  }

  function PlanFor(filters: seq<Filter>, paths: seq<Utf8>): Plan {
    var clauses := FilterClauses(filters) + OrderClauses(paths);
    Plan(if clauses == [] then None else Some(And(clauses)), FiltersExact(filters) && OrdersExact(paths))
  }

  function Conjoin(clause: Option<Clause>, extra: seq<Clause>): Option<Clause> {
    if extra == [] then clause
    else
      match clause
      case None => Some(And(extra))
      case Some(And(clauses)) => Some(And(clauses + extra))
      case Some(other) => Some(And([other] + extra))
  }

  datatype SortWindow = SortWindow(orderBy: seq<SortColumn>, skip: nat, limit: Option<int>)

  /** Paging moves into the store only on an exact predicate, and only where
      there is something to page. */
  function PushdownWindow(query: Query, columns: seq<SortColumn>, exact: bool): Option<SortWindow> {
    if !exact then None
    else if query.limit.Some? && query.limit.value <= 0 then None
    else if query.limit.None? && query.offset <= 0 then None
    else Some(SortWindow(columns, if query.offset > 0 then query.offset else 0, query.limit))
  }

  function OrderPaths(orders: seq<SortOrder>): (paths: seq<Utf8>)
    ensures |paths| == |orders| && forall i :: 0 <= i < |orders| ==> paths[i] == orders[i].path
  {
    if orders == [] then [] else [orders[0].path] + OrderPaths(orders[1..])
  }

  datatype FetchRequest = FetchRequest(clause: Option<Clause>, window: Option<SortWindow>)

  /** What `evaluate` asks of the store. */
  function FetchFor(query: Query, filters: seq<Filter>, orders: seq<SortOrder>, planned: bool): FetchRequest {
    if !planned then FetchRequest(None, None)
    else
      var plan := PlanFor(filters, OrderPaths(orders));
      var cursors := CursorClauses(query, orders);
      FetchRequest(
        Conjoin(plan.clause, if cursors.Some? then cursors.value else []),
        if cursors.Some? then PushdownWindow(query, SortColumns(orders), plan.exact) else None)
  }
}
