/** Every clause the planner emits accepts what its filter accepts, and those
    marked exact accept nothing else. */
module PlanExactness {
  import opened Orderings
  import opened Bytes
  import opened Numbers
  import opened NumberParts
  import opened Results
  import opened Values
  import opened Order
  import opened IndexKey
  import opened KeyOrdering
  import opened Fields
  import opened Mirror
  import opened Queries
  import opened Predicates
  import opened Planner

  function RowOf(root: Utf8, doc: Document): Row {
    IndexRow(NameOf(root, doc.path), doc.fields)
  }

  /** Field names hold no dot, nested ones are not `__val__`, and no field of
      the document is called `__name__`. */
  predicate Indexable(doc: Document) {
    WellNamedFields(doc.fields) && NAME !in doc.fields
  }

  // ---- columns ----

  lemma SplitStep(s: Utf8, separator: byte)
    requires s != []
    ensures
      var rest := Split(s[1..], separator);
      Split(s, separator) == if s[0] == separator then [[]] + rest else [[s[0]] + rest[0]] + rest[1..]
  {}

  lemma {:induction false} SplitAround(a: Utf8, b: Utf8, separator: byte)
    ensures Split(a + [separator] + b, separator) == Split(a, separator) + Split(b, separator)
    decreases |a|
  {
    var s := a + [separator] + b;
    SplitStep(s, separator);
    if a == [] {
      assert s == [separator] + b && s[1..] == b;
    } else {
      assert s[1..] == a[1..] + [separator] + b;
      SplitAround(a[1..], b, separator);
      SplitStep(a, separator);
      Regroup(a[0], Split(a[1..], separator), Split(b, separator), a[0] == separator);
    }
  }

  lemma Regroup(c: byte, head: seq<Utf8>, tail: seq<Utf8>, separates: bool)
    requires head != []
    ensures
      var all := head + tail;
      if separates then [[]] + all == [[]] + head + tail
      else [[c] + all[0]] + all[1..] == [[c] + head[0]] + head[1..] + tail
  {
    assert (head + tail)[1..] == head[1..] + tail;
  }

  lemma {:induction false} SplitWhole(a: Utf8, separator: byte)
    requires separator !in a
    ensures Split(a, separator) == [a]
  {
    SplitJoin([a], separator);
  }

  lemma FieldColumnPath(path: Utf8)
    ensures SplitPath(KEYS + [DOT] + path + [DOT] + VALUE_KEY) == [KEYS] + (SplitPath(path) + [VALUE_KEY])
  {
    var rest := path + [DOT] + VALUE_KEY;
    assert KEYS + [DOT] + path + [DOT] + VALUE_KEY == KEYS + [DOT] + rest;
    SplitAround(KEYS, rest, DOT);
    SplitAround(path, VALUE_KEY, DOT);
    SplitWhole(KEYS, DOT);
    SplitWhole(VALUE_KEY, DOT);
  }

  lemma NameColumn(root: Utf8, doc: Document)
    ensures Column(RowOf(root, doc), NAME_KEY) == Some(IndexString(NameOf(root, doc.path)))
  {
    SplitWhole(NAME_KEY, DOT);
  }

  /** The column of a path holds the key of the field there, and is missing
      exactly when the field is. */
  lemma ColumnValue(root: Utf8, doc: Document, path: Utf8)
    requires Indexable(doc)
    ensures Column(RowOf(root, doc), SortField(path)) == KeyOf(FieldValue(root, doc, path))
  {
    if path == NAME {
      NameColumn(root, doc);
    } else {
      FieldColumnPath(path);
      MirrorFinds(NameOf(root, doc.path), doc.fields, SplitPath(path));
    }
  }

  lemma ValueClauseMeans(root: Utf8, doc: Document, path: Utf8, condition: Condition)
    requires Indexable(doc)
    ensures
      var v := FieldValue(root, doc, path);
      Matches(RowOf(root, doc), ValueClause(path, condition)) <==> v.Some? && Meets(IndexString(v.value), condition)
  {
    ColumnValue(root, doc, path);
    assert SortField(path) in map[SortField(path) := condition];
  }

  // ---- equality ----

  lemma EqualKeys(v: Value, operand: Value)
    requires Comparable(operand)
    ensures IndexString(v) == IndexString(operand) <==> QueryEq(v, operand)
  {
    IndexStringCompare(v, operand);
    if IsNaN(v) && operand.Num? {
      IndexStringCompare(operand, v);
    }
  }

  lemma {:induction false} ComparableKeysMeaning(v: Value, values: seq<Value>)
    ensures IndexString(v) in ComparableKeys(values) <==> EqualsAny(v, values)
  {
    if values != [] {
      ComparableKeysMeaning(v, values[1..]);
      assert forall o :: o in values <==> o == values[0] || o in values[1..];
      if Comparable(values[0]) {
        EqualKeys(v, values[0]);
      }
    }
  }

  // ---- ranges ----

  lemma HexTag(t: byte)
    ensures FromHexByte(Hex([t])) == Some(t)
  {
    assert [t][1..] == [];
    assert Hex([t]) == [HexDigit(t / 16), HexDigit(t % 16)];
  }

  lemma TagPrefix(v: Value)
    ensures IndexString(v)[..2] == Hex([Tag(v)])
  {
    var k := Key(v);
    assert [k[0]][1..] == [];
    assert Hex(k) == [HexDigit(k[0] / 16), HexDigit(k[0] % 16)] + Hex(k[1..]);
  }

  lemma AboveTag(v: Value, t: byte)
    ensures LexCompare(IndexString(v), Hex([t])) != Less <==> t <= Tag(v)
  {
    HexCompare(Key(v), [t]);
    assert Key(v)[1..] == Payload(v);
  }

  lemma BelowTag(v: Value, t: byte)
    ensures LexCompare(IndexString(v), Hex([t])) == Less <==> Tag(v) < t
  {
    AboveTag(v, t);
  }

  function Wanted(op: Comparator): Ordering {
    if op.Lt? || op.Le? then Less else Greater
  }

  predicate InRange(v: Value, operand: Value, op: Comparator) {
    Inequality(v, operand, Wanted(op), op.Le? || op.Ge?)
  }

  lemma TwoBounds(s: Utf8, op: Comparator, x: Utf8, other: Comparator, y: Utf8)
    requires op != other
    ensures Meets(s, Between(map[op := x, other := y])) <==> Compares(s, op, x) && Compares(s, other, y)
  {
    var bounds := map[op := x, other := y];
    assert op in bounds && other in bounds;
  }

  /** Against a comparable operand: same type, not NaN, on the wanted side. */
  lemma RangeSide(v: Value, operand: Value, op: Comparator)
    requires Comparable(operand)
    ensures InRange(v, operand, op)
      <==> Rank(v) == Rank(operand) && !IsNaN(v) && Compares(IndexString(v), op, IndexString(operand))
  {
    IndexStringCompare(v, operand);
  }

  lemma RankBounds(v: Value, operand: Value, op: Comparator)
    requires Compares(IndexString(v), op, IndexString(operand))
    ensures op.Lt? || op.Le? ==> Rank(v) <= Rank(operand)
    ensures op.Gt? || op.Ge? ==> Rank(operand) <= Rank(v)
    ensures (op.Gt? || op.Ge?) && operand.Num? && !IsNaN(operand) ==> !IsNaN(v)
  {
    IndexStringCompare(v, operand);
  }

  /** Above NaN and below a number is: a number, not NaN, and below it. */
  lemma NumberFloor(v: Value, operand: Value, op: Comparator)
    requires operand.Num? && Comparable(operand) && (op.Lt? || op.Le?)
    ensures Meets(IndexString(v), Between(map[op := IndexString(operand), Gt := NAN_KEY])) <==> InRange(v, operand, op)
  {
    TwoBounds(IndexString(v), op, IndexString(operand), Gt, NAN_KEY);
    RangeSide(v, operand, op);
    NaNLeast(v);
    if Compares(IndexString(v), op, IndexString(operand)) {
      RankBounds(v, operand, op);
    }
  }

  lemma NaNLeast(v: Value)
    ensures LexCompare(IndexString(v), NAN_KEY) == Greater <==> Rank(v) > 3 || (v.Num? && !IsNaN(v))
  {
    IndexStringCompare(v, Num(Double(CANONICAL_NAN)));
  }

  lemma TagFloor(v: Value, operand: Value, op: Comparator)
    requires !operand.Num? && Comparable(operand) && (op.Lt? || op.Le?)
    ensures Meets(IndexString(v), Between(map[op := IndexString(operand), Ge := IndexString(operand)[..2]]))
      <==> InRange(v, operand, op)
  {
    TwoBounds(IndexString(v), op, IndexString(operand), Ge, IndexString(operand)[..2]);
    RangeSide(v, operand, op);
    TagPrefix(operand);
    AboveTag(v, Tag(operand));
    TagRank(v, operand);
    if Compares(IndexString(v), op, IndexString(operand)) {
      RankBounds(v, operand, op);
    }
  }

  lemma TagCeiling(v: Value, operand: Value, op: Comparator)
    requires Comparable(operand) && (op.Gt? || op.Ge?)
    ensures Meets(IndexString(v), Between(map[op := IndexString(operand), Lt := Hex([Tag(operand) + 1])]))
      <==> InRange(v, operand, op)
  {
    TwoBounds(IndexString(v), op, IndexString(operand), Lt, Hex([Tag(operand) + 1]));
    RangeSide(v, operand, op);
    BelowTag(v, Tag(operand) + 1);
    TagRank(v, operand);
    if Compares(IndexString(v), op, IndexString(operand)) {
      RankBounds(v, operand, op);
    }
  }

  function RangeCondition(operand: Value, op: Comparator): Condition
    requires Comparable(operand)
  {
    var key := IndexString(operand);
    if op.Gt? || op.Ge? then Between(map[op := key, Lt := Hex([Tag(operand) + 1])])
    else if operand.Num? then Between(map[op := key, Gt := NAN_KEY])
    else Between(map[op := key, Ge := key[..2]])
  }

  lemma RangeIs(path: Utf8, operand: Value, op: Comparator)
    requires Comparable(operand)
    ensures Range(path, operand, op) == Some(Translation(ValueClause(path, RangeCondition(operand, op)), true))
  {
    TagPrefix(operand);
    HexTag(Tag(operand));
  }

  lemma RangeMeans(v: Value, operand: Value, op: Comparator)
    requires Comparable(operand)
    ensures Meets(IndexString(v), RangeCondition(operand, op)) <==> InRange(v, operand, op)
  {
    if op.Gt? || op.Ge? {
      TagCeiling(v, operand, op);
    } else if operand.Num? {
      NumberFloor(v, operand, op);
    } else {
      TagFloor(v, operand, op);
    }
  }

  /** A range clause is the type-bounded inequality: same type, not NaN, on
      the right side of the operand. */
  lemma RangeExact(root: Utf8, doc: Document, path: Utf8, operand: Value, op: Comparator)
    requires Indexable(doc)
    ensures Range(path, operand, op).Some? <==> Comparable(operand)
    ensures
      var t, v := Range(path, operand, op), FieldValue(root, doc, path);
      t.Some? ==>
        t.value.exact && (Matches(RowOf(root, doc), t.value.clause) <==> v.Some? && InRange(v.value, operand, op))
  {
    if Comparable(operand) {
      RangeIs(path, operand, op);
      ValueClauseMeans(root, doc, path, RangeCondition(operand, op));
      var v := FieldValue(root, doc, path);
      if v.Some? {
        RangeMeans(v.value, operand, op);
      }
    }
  }

  // ---- array membership ----

  /** The array at a path, if the path leads to one. */
  function ArrayAt(root: Utf8, doc: Document, path: Utf8): seq<Value> {
    var v := FieldValue(root, doc, path);
    if v.Some? && v.value.Array? then v.value.values else []
  }

  lemma ElementListed(root: Utf8, doc: Document, path: Utf8, key: Utf8)
    requires Indexable(doc)
    ensures Entry(path, key) in RowOf(root, doc).elements
      <==> exists x :: x in ArrayAt(root, doc, path) && IndexString(x) == key
  {
    SplitWhole(NAME, DOT);
    ElementsFind(NameOf(root, doc.path), doc.fields, path, key);
  }

  lemma ElementClauseMeans(root: Utf8, doc: Document, path: Utf8, condition: Condition)
    requires Indexable(doc)
    ensures Matches(RowOf(root, doc), AnyElement(path, condition))
      <==> exists x :: x in ArrayAt(root, doc, path) && Meets(IndexString(x), condition)
  {
    var elements := RowOf(root, doc).elements;
    if Matches(RowOf(root, doc), AnyElement(path, condition)) {
      var e :| e in elements && e.path == path && Meets(e.key, condition);
      assert e == Entry(path, e.key);
      ElementListed(root, doc, path, e.key);
    }
    if x :| x in ArrayAt(root, doc, path) && Meets(IndexString(x), condition) {
      ElementListed(root, doc, path, IndexString(x));
      assert Entry(path, IndexString(x)) in elements;
    }
  }

  lemma ContainsExact(root: Utf8, doc: Document, path: Utf8, operand: Value)
    requires Indexable(doc) && Comparable(operand)
    ensures Matches(RowOf(root, doc), AnyElement(path, Is(IndexString(operand))))
      <==> exists x :: x in ArrayAt(root, doc, path) && QueryEq(x, operand)
  {
    ElementClauseMeans(root, doc, path, Is(IndexString(operand)));
    forall x | x in ArrayAt(root, doc, path)
      ensures Meets(IndexString(x), Is(IndexString(operand))) <==> QueryEq(x, operand)
    {
      EqualKeys(x, operand);
    }
  }

  lemma ContainsAnyExact(root: Utf8, doc: Document, path: Utf8, operands: seq<Value>)
    requires Indexable(doc)
    ensures Matches(RowOf(root, doc), AnyElement(path, OneOf(ComparableKeys(operands))))
      <==> exists x :: x in ArrayAt(root, doc, path) && EqualsAny(x, operands)
  {
    ElementClauseMeans(root, doc, path, OneOf(ComparableKeys(operands)));
    forall x | x in ArrayAt(root, doc, path)
      ensures Meets(IndexString(x), OneOf(ComparableKeys(operands))) <==> EqualsAny(x, operands)
    {
      ComparableKeysMeaning(x, operands);
    }
  }

  // ---- clauses ----

  lemma ExistsMeans(root: Utf8, doc: Document, path: Utf8)
    requires Indexable(doc)
    ensures Matches(RowOf(root, doc), Exists(path)) <==> FieldValue(root, doc, path).Some?
  {
    ValueClauseMeans(root, doc, path, Between(map[Ge := []]));
  }

  /** What a translation promises of a document, given the filter's verdict. */
  ghost predicate Faithful(row: Row, t: Translation, matches: bool) {
    && (matches ==> Matches(row, t.clause))
    && (t.exact && Matches(row, t.clause) ==> matches)
  }

  lemma RangeOperator(root: Utf8, doc: Document, path: Utf8, op: FieldOp, operand: Value)
    requires Indexable(doc) && TranslateOperator(path, op, operand).Some?
    requires op.LessThan? || op.LessThanOrEqual? || op.GreaterThan? || op.GreaterThanOrEqual?
    ensures
      var v := FieldValue(root, doc, path);
      Faithful(RowOf(root, doc), TranslateOperator(path, op, operand).value,
               v.Some? && MatchesOperator(v.value, op, operand))
  {
    var comparator :=
      match op
      case LessThan => Lt
      case LessThanOrEqual => Le
      case GreaterThan => Gt
      case _ => Ge;
    RangeExact(root, doc, path, operand, comparator);
  }

  lemma ElementOperator(root: Utf8, doc: Document, path: Utf8, op: FieldOp, operand: Value)
    requires Indexable(doc) && TranslateOperator(path, op, operand).Some?
    requires op.ArrayContains? || op.ArrayContainsAny?
    ensures
      var v := FieldValue(root, doc, path);
      Faithful(RowOf(root, doc), TranslateOperator(path, op, operand).value,
               v.Some? && MatchesOperator(v.value, op, operand))
  {
    if op.ArrayContains? {
      ContainsExact(root, doc, path, operand);
    } else {
      ContainsAnyExact(root, doc, path, operand.values);
    }
  }

  lemma ValueOperator(root: Utf8, doc: Document, path: Utf8, op: FieldOp, operand: Value)
    requires Indexable(doc) && TranslateOperator(path, op, operand).Some?
    requires op.Equals? || op.In? || op.NotEqual? || op.NotIn?
    ensures
      var v := FieldValue(root, doc, path);
      Faithful(RowOf(root, doc), TranslateOperator(path, op, operand).value,
               v.Some? && MatchesOperator(v.value, op, operand))
  {
    var v := FieldValue(root, doc, path);
    if op.Equals? {
      ValueClauseMeans(root, doc, path, Is(IndexString(operand)));
      if v.Some? {
        EqualKeys(v.value, operand);
      }
    } else if op.In? {
      ValueClauseMeans(root, doc, path, OneOf(ComparableKeys(operand.values)));
      if v.Some? {
        ComparableKeysMeaning(v.value, operand.values);
      }
    } else {
      ExistsMeans(root, doc, path);
    }
  }

  lemma UnaryOperator(root: Utf8, doc: Document, path: Utf8, op: UnaryOp)
    requires Indexable(doc) && TranslateUnary(path, op).Some?
    ensures Faithful(RowOf(root, doc), TranslateUnary(path, op).value, MatchesUnary(FieldValue(root, doc, path), op))
  {
    var v := FieldValue(root, doc, path);
    match op
    case IsNull =>
      ValueClauseMeans(root, doc, path, Is(NULL_KEY));
      if v.Some? {
        IndexStringCompare(v.value, Null);
      }
    case IsNan =>
      ValueClauseMeans(root, doc, path, Is(NAN_KEY));
      if v.Some? {
        IndexStringCompare(v.value, Num(Double(CANONICAL_NAN)));
      }
    case IsNotNull => ExistsMeans(root, doc, path);
    case IsNotNan => ExistsMeans(root, doc, path);
  }

  /** A filter's clause accepts every document the filter accepts, and only
      those when it is marked exact. */
  lemma ClauseFaithful(root: Utf8, doc: Document, filter: Filter)
    requires Indexable(doc) && ClauseFor(filter).Some?
    ensures Faithful(RowOf(root, doc), ClauseFor(filter).value, MatchesFilter(root, doc, filter))
  {
    match filter
    case FieldFilter(field, op, operand) =>
      if op.ArrayContains? || op.ArrayContainsAny? {
        ElementOperator(root, doc, field.value, op, operand.value);
      } else if op.Equals? || op.In? || op.NotEqual? || op.NotIn? {
        ValueOperator(root, doc, field.value, op, operand.value);
      } else {
        RangeOperator(root, doc, field.value, op, operand.value);
      }
    case UnaryFilter(field, op) => UnaryOperator(root, doc, field.value, op);
  }

  // ---- the whole plan ----

  lemma {:induction false} FilterClausesFaithful(root: Utf8, doc: Document, filters: seq<Filter>)
    requires Indexable(doc)
    ensures Passes(root, doc, Filters(filters)) ==> Matches(RowOf(root, doc), And(FilterClauses(filters)))
    ensures FiltersExact(filters) && Matches(RowOf(root, doc), And(FilterClauses(filters)))
      ==> Passes(root, doc, Filters(filters))
  {
    if filters != [] {
      FilterClausesFaithful(root, doc, filters[1..]);
      assert forall f :: f in filters <==> f == filters[0] || f in filters[1..];
      if ClauseFor(filters[0]).Some? {
        ClauseFaithful(root, doc, filters[0]);
      }
      var rest := FilterClauses(filters[1..]);
      assert forall c :: c in FilterClauses(filters) <==>
        (c in rest || (ClauseFor(filters[0]).Some? && c == ClauseFor(filters[0]).value.clause));
    }
  }

  predicate AllPresent(root: Utf8, doc: Document, paths: seq<Utf8>) {
    forall p :: p in paths ==> FieldValue(root, doc, p).Some?
  }

  lemma {:induction false} OrderClausesFaithful(root: Utf8, doc: Document, paths: seq<Utf8>)
    requires Indexable(doc)
    ensures AllPresent(root, doc, paths) ==> Matches(RowOf(root, doc), And(OrderClauses(paths)))
    ensures OrdersExact(paths) && Matches(RowOf(root, doc), And(OrderClauses(paths))) ==> AllPresent(root, doc, paths)
  {
    if paths != [] {
      OrderClausesFaithful(root, doc, paths[1..]);
      assert forall p :: p in paths <==> p == paths[0] || p in paths[1..];
      ExistsMeans(root, doc, paths[0]);
      var rest := OrderClauses(paths[1..]);
      assert forall c :: c in OrderClauses(paths) <==>
        (c in rest || (paths[0] != NAME && IsPlainPath(paths[0]) && c == Exists(paths[0])));
    }
  }

  predicate Admitted(root: Utf8, doc: Document, filters: seq<Filter>, orders: seq<SortOrder>) {
    Passes(root, doc, Filters(filters)) && Passes(root, doc, Sortable(orders))
  }

  lemma SortablePaths(root: Utf8, doc: Document, orders: seq<SortOrder>)
    ensures AllPresent(root, doc, OrderPaths(orders)) <==> Passes(root, doc, Sortable(orders))
  {
    var paths := OrderPaths(orders);
    forall o | o in orders
      ensures o.path in paths
    {
      var i :| 0 <= i < |orders| && orders[i] == o;
      assert paths[i] == o.path;
    }
    forall p | p in paths
      ensures exists o :: o in orders && o.path == p
    {
      var i :| 0 <= i < |paths| && paths[i] == p;
      assert orders[i] in orders && orders[i].path == p;
    }
  }

  /** The planner's predicate: a superset of what the query admits, and
      precisely that when the plan says exact. */
  lemma PlanFaithful(root: Utf8, doc: Document, filters: seq<Filter>, orders: seq<SortOrder>)
    requires Indexable(doc)
    ensures
      var plan := PlanFor(filters, OrderPaths(orders));
      && (Admitted(root, doc, filters, orders) ==> MatchesAll(RowOf(root, doc), plan.clause))
      && (plan.exact && MatchesAll(RowOf(root, doc), plan.clause) ==> Admitted(root, doc, filters, orders))
  {
    var paths := OrderPaths(orders);
    FilterClausesFaithful(root, doc, filters);
    OrderClausesFaithful(root, doc, paths);
    SortablePaths(root, doc, orders);
    MatchesBoth(RowOf(root, doc), FilterClauses(filters), OrderClauses(paths));
  }

  lemma MatchesBoth(row: Row, a: seq<Clause>, b: seq<Clause>)
    ensures Matches(row, And(a + b)) <==> Matches(row, And(a)) && Matches(row, And(b))
  {}
}
