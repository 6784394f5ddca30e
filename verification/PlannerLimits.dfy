/** Where the planner's guarantees stop: the inputs its assumptions shut out. */
module PlannerLimits {
  import opened Orderings
  import opened Bytes
  import opened Numbers
  import opened Results
  import opened Values
  import opened Order
  import opened KeyOrdering
  import opened Fields
  import opened Mirror
  import opened Queries
  import opened Predicates
  import opened Planner
  import opened PlanExactness
  import opened SortKeys
  import opened CursorBranches
  import opened ArraySpellings

  /** A map's node holds the map's own key exactly when no entry of the map is
      called `__val__`. */
  lemma OwnKeyKept(v: Value)
    ensures Stored(MirrorNode(v).fields, [VALUE_KEY]) == Some(IndexString(v))
      <==> !(v.Map? && VALUE_KEY in v.fields)
  {
    var node := MirrorNode(v).fields;
    assert VALUE_KEY in node;
    if v.Map? && VALUE_KEY in v.fields {
      var child := MirrorNode(v.fields[VALUE_KEY]);
      assert node[VALUE_KEY] == child;
    }
  }

  /** A plan finds a document by the value of one of its fields exactly when
      that value is no map with such an entry; the filter itself accepts the
      document either way. */
  lemma OwnValueFound(root: Utf8, doc: Document, field: Utf8)
    requires DOT !in field && BACKTICK !in field && field != NAME
    requires field in doc.fields && Comparable(doc.fields[field])
    ensures
      var v := doc.fields[field];
      var filter := FieldFilter(Some(field), Equals, Some(v));
      && MatchesFilter(root, doc, filter) && ClauseFor(filter).Some?
      && (Matches(RowOf(root, doc), ClauseFor(filter).value.clause) <==> !(v.Map? && VALUE_KEY in v.fields))
  {
    var v := doc.fields[field];
    Reflexive(v);
    SplitWhole(field, DOT);
    assert GetField(doc.fields, [field]) == Some(v);
    OwnKeyKept(v);
    FieldColumn(root, doc, field);
    WhereIs(RowOf(root, doc), SortField(field), IndexString(v));
  }

  lemma WhereIs(row: Row, column: Utf8, key: Utf8)
    ensures Matches(row, Where(map[column := Is(key)])) <==> Column(row, column) == Some(key)
  {
    var conditions := map[column := Is(key)];
    assert column in conditions;
  }

  lemma FieldColumn(root: Utf8, doc: Document, field: Utf8)
    requires DOT !in field && field != NAME && field in doc.fields
    ensures Column(RowOf(root, doc), SortField(field)) == Stored(MirrorNode(doc.fields[field]).fields, [VALUE_KEY])
  {
    var columns := RowOf(root, doc).columns;
    SplitWhole(field, DOT);
    FieldColumnPath(field);
    StoredBelow(columns, KEYS, [field] + [VALUE_KEY]);
    StoredBelow(MirrorFields(doc.fields), field, [VALUE_KEY]);
  }

  lemma ArrayEntry(root: Utf8, doc: Document, name: Utf8, x: Value)
    requires name in doc.fields && doc.fields[name].Array? && x in doc.fields[name].values
    ensures Matches(RowOf(root, doc), AnyElement(name, Is(IndexString(x))))
  {
    var e := Entry(name, IndexString(x));
    assert e in Entries(doc.fields[name], name);
    assert e in RowOf(root, doc).elements;
  }

  /** A document whose own field is called `__name__` passes an exact array
      clause without passing its filter. */
  lemma NameFieldIsTaken(root: Utf8, doc: Document, x: Value)
    requires NAME in doc.fields && doc.fields[NAME].Array? && x in doc.fields[NAME].values && Comparable(x)
    ensures
      var filter := FieldFilter(Some(NAME), ArrayContains, Some(x));
      && !MatchesFilter(root, doc, filter)
      && ClauseFor(filter).Some? && ClauseFor(filter).value.exact
      && Matches(RowOf(root, doc), ClauseFor(filter).value.clause)
  {
    ArrayEntry(root, doc, NAME, x);
  }

  predicate NameFieldHolds(doc: Document, x: Value) {
    && NAME in doc.fields && doc.fields[NAME].Array?
    && exists e :: e in doc.fields[NAME].values && QueryEq(e, x)
  }

  lemma NameEntry(root: Utf8, doc: Document, x: Value)
    requires WellNamedFields(doc.fields) && Comparable(x)
    ensures Entry(NAME, IndexString(x)) in RowOf(root, doc).elements <==> NameFieldHolds(doc, x)
  {
    SplitWhole(NAME, DOT);
    ElementsFind(NameOf(root, doc.path), doc.fields, NAME, IndexString(x));
    assert GetField(doc.fields, [NAME]) == if NAME in doc.fields then Some(doc.fields[NAME]) else None;
    if NAME in doc.fields && doc.fields[NAME].Array? {
      forall e | e in doc.fields[NAME].values
        ensures QueryEq(e, x) <==> IndexString(e) == IndexString(x)
      {
        EqualKeys(e, x);
      }
    }
  }

  /** An array clause on `__name__`, which no filter accepts, is as good as its
      filter for exactly the documents without such a field holding the
      operand. */
  lemma NameClauseExact(root: Utf8, doc: Document, x: Value)
    requires WellNamedFields(doc.fields) && Comparable(x)
    ensures
      var filter := FieldFilter(Some(NAME), ArrayContains, Some(x));
      && ClauseFor(filter).Some?
      && ((Matches(RowOf(root, doc), ClauseFor(filter).value.clause) <==> MatchesFilter(root, doc, filter))
          <==> !NameFieldHolds(doc, x))
  {
    NameEntry(root, doc, x);
    ElementIs(RowOf(root, doc), NAME, IndexString(x));
  }

  /** So does one with a dot in a field's name, where no nested field answers
      to the path of that spelling. */
  lemma DottedFieldIsTaken(root: Utf8, doc: Document, name: Utf8, x: Value)
    requires DOT in name && BACKTICK !in name && GetField(doc.fields, SplitPath(name)) == None
    requires name in doc.fields && doc.fields[name].Array? && x in doc.fields[name].values && Comparable(x)
    ensures
      var filter := FieldFilter(Some(name), ArrayContains, Some(x));
      && !MatchesFilter(root, doc, filter)
      && ClauseFor(filter).Some? && ClauseFor(filter).value.exact
      && Matches(RowOf(root, doc), ClauseFor(filter).value.clause)
  {
    ArrayEntry(root, doc, name, x);
  }
}
