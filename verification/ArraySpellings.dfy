/** Array clauses against documents of any field names: an entry is stored
    under the joined spelling of its path, which names with dots can share. */
module ArraySpellings {
  import opened Bytes
  import opened Results
  import opened Values
  import opened KeyOrdering
  import opened Fields
  import opened Mirror
  import opened Queries
  import opened Predicates
  import opened Planner
  import opened PlanExactness

  lemma ElementIs(row: Row, path: Utf8, key: Utf8)
    ensures Matches(row, AnyElement(path, Is(key))) <==> Entry(path, key) in row.elements
  {
    if Entry(path, key) in row.elements {
      assert Meets(Entry(path, key).key, Is(key));
    }
    if Matches(row, AnyElement(path, Is(key))) {
      var e :| e in row.elements && e.path == path && Meets(e.key, Is(key));
      assert e == Entry(path, key);
    }
  }

  predicate ElementAt(v: Value, rest: seq<Utf8>, key: Utf8) {
    HasElement(Descend(v, rest), key)
  }

  ghost predicate BelowSpelled(v: Value, prefix: seq<Utf8>, path: Utf8, key: Utf8)
    requires prefix != []
  {
    exists rest: seq<Utf8> :: Join(prefix + rest, DOT) == path && ElementAt(v, rest, key)
  }

  /** Whatever the names: an entry's path is the joined spelling of some way
      down to the array, dots in the names and all. */
  lemma {:induction false} EntriesSpelled(v: Value, prefix: seq<Utf8>, path: Utf8, key: Utf8)
    requires prefix != []
    ensures Entry(path, key) in Entries(v, Join(prefix, DOT)) <==> BelowSpelled(v, prefix, path, key)
    decreases v
  {
    assert prefix + [] == prefix;
    if v.Map? {
      forall k | k in v.fields
        ensures Entry(path, key) in Entries(v.fields[k], Join(prefix, DOT) + [DOT] + k)
          <==> BelowSpelled(v.fields[k], prefix + [k], path, key)
      {
        JoinMore(prefix, k);
        EntriesSpelled(v.fields[k], prefix + [k], path, key);
      }
      MapSpelled(v, prefix, path, key);
    } else if v.Array? {
      ArraySpelled(v, prefix, path, key);
    }
  }

  lemma ArraySpelled(v: Value, prefix: seq<Utf8>, path: Utf8, key: Utf8)
    requires v.Array? && prefix != []
    ensures BelowSpelled(v, prefix, path, key) <==> Join(prefix, DOT) == path && HasElement(Some(v), key)
  {
    assert prefix + [] == prefix;
    if Join(prefix, DOT) == path && HasElement(Some(v), key) {
      assert ElementAt(v, [], key);
    }
  }

  /** One step further down a map. */
  lemma MapSpelled(v: Value, prefix: seq<Utf8>, path: Utf8, key: Utf8)
    requires v.Map? && prefix != []
    ensures BelowSpelled(v, prefix, path, key)
      <==> exists k :: k in v.fields && BelowSpelled(v.fields[k], prefix + [k], path, key)
  {
    if BelowSpelled(v, prefix, path, key) {
      var rest: seq<Utf8> :| Join(prefix + rest, DOT) == path && ElementAt(v, rest, key);
      StepDown(v, prefix, rest, path, key);
    }
    if k :| k in v.fields && BelowSpelled(v.fields[k], prefix + [k], path, key) {
      var rest: seq<Utf8> :| Join(prefix + [k] + rest, DOT) == path && ElementAt(v.fields[k], rest, key);
      StepUp(v, prefix, k, rest, path, key);
    }
  }

  lemma StepDown(v: Value, prefix: seq<Utf8>, rest: seq<Utf8>, path: Utf8, key: Utf8)
    requires v.Map? && prefix != [] && Join(prefix + rest, DOT) == path && ElementAt(v, rest, key)
    ensures rest != [] && rest[0] in v.fields && BelowSpelled(v.fields[rest[0]], prefix + [rest[0]], path, key)
  {
    if rest != [] {
      assert prefix + [rest[0]] + rest[1..] == prefix + rest;
      assert ElementAt(v.fields[rest[0]], rest[1..], key);
    }
  }

  lemma StepUp(v: Value, prefix: seq<Utf8>, k: Utf8, rest: seq<Utf8>, path: Utf8, key: Utf8)
    requires v.Map? && k in v.fields && prefix != []
    requires Join(prefix + [k] + rest, DOT) == path && ElementAt(v.fields[k], rest, key)
    ensures BelowSpelled(v, prefix, path, key)
  {
    assert prefix + ([k] + rest) == prefix + [k] + rest;
    assert ([k] + rest)[1..] == rest;
    assert ElementAt(v, [k] + rest, key);
  }

  /** An array that holds the operand, at this spelling of a path. */
  predicate HoldsAt(doc: Document, segments: seq<Utf8>, path: Utf8, x: Value) {
    && segments != [] && Join(segments, DOT) == path
    && var v := GetField(doc.fields, segments);
       v.Some? && v.value.Array? && exists e :: e in v.value.values && QueryEq(e, x)
  }

  lemma HoldsMeans(doc: Document, segments: seq<Utf8>, path: Utf8, x: Value)
    requires Comparable(x) && segments != [] && Join(segments, DOT) == path
    ensures HoldsAt(doc, segments, path, x) <==> HasElement(GetField(doc.fields, segments), IndexString(x))
  {
    var v := GetField(doc.fields, segments);
    if v.Some? && v.value.Array? {
      forall e | e in v.value.values
        ensures QueryEq(e, x) <==> IndexString(e) == IndexString(x)
      {
        EqualKeys(e, x);
      }
    }
  }

  lemma RowSpelled(root: Utf8, doc: Document, path: Utf8, key: Utf8)
    ensures Entry(path, key) in RowOf(root, doc).elements
      <==> exists k :: k in doc.fields && BelowSpelled(doc.fields[k], [k], path, key)
  {
    forall k | k in doc.fields
      ensures Entry(path, key) in Entries(doc.fields[k], k) <==> BelowSpelled(doc.fields[k], [k], path, key)
    {
      assert Join([k], DOT) == k;
      EntriesSpelled(doc.fields[k], [k], path, key);
    }
  }

  lemma FieldSpelled(doc: Document, k: Utf8, path: Utf8, x: Value)
    requires k in doc.fields && Comparable(x)
    ensures BelowSpelled(doc.fields[k], [k], path, IndexString(x))
      <==> exists segments :: HoldsAt(doc, segments, path, x) && segments[0] == k
  {
    if BelowSpelled(doc.fields[k], [k], path, IndexString(x)) {
      var rest: seq<Utf8> :| Join([k] + rest, DOT) == path && ElementAt(doc.fields[k], rest, IndexString(x));
      assert ([k] + rest)[1..] == rest;
      HoldsMeans(doc, [k] + rest, path, x);
    }
    if segments :| HoldsAt(doc, segments, path, x) && segments[0] == k {
      HoldsMeans(doc, segments, path, x);
      assert segments == [k] + segments[1..];
      assert ElementAt(doc.fields[k], segments[1..], IndexString(x));
    }
  }

  /** For any document, an array clause takes every spelling of its path. */
  lemma ClauseSpelled(root: Utf8, doc: Document, path: Utf8, x: Value)
    requires Comparable(x)
    ensures Matches(RowOf(root, doc), AnyElement(path, Is(IndexString(x))))
      <==> HeldSomehow(doc, path, x)
  {
    ElementIs(RowOf(root, doc), path, IndexString(x));
    RowSpelled(root, doc, path, IndexString(x));
    forall k | k in doc.fields
      ensures BelowSpelled(doc.fields[k], [k], path, IndexString(x))
        <==> exists segments :: HoldsAt(doc, segments, path, x) && segments[0] == k
    {
      FieldSpelled(doc, k, path, x);
    }
    if segments :| HoldsAt(doc, segments, path, x) {
      assert segments[0] in doc.fields;
    }
  }

  /** Another spelling than the one the filter reads, which reads `__name__`
      as the document's name and any other path as split at its dots. */
  predicate Otherwise(segments: seq<Utf8>, path: Utf8) {
    path == NAME || segments != SplitPath(path)
  }

  /** For any document and any plain path, an array clause agrees with its
      filter if and only if the filter accepts anyway, or no array under
      another spelling of the path holds the operand. */
  lemma ArrayClauseExact(root: Utf8, doc: Document, path: Utf8, x: Value)
    requires IsPlainPath(path) && Comparable(x)
    ensures
      var filter := FieldFilter(Some(path), ArrayContains, Some(x));
      && ClauseFor(filter) == Some(Translation(AnyElement(path, Is(IndexString(x))), true))
      && ((Matches(RowOf(root, doc), AnyElement(path, Is(IndexString(x)))) <==> MatchesFilter(root, doc, filter))
          <==> MatchesFilter(root, doc, filter) || !HeldOtherwise(doc, path, x))
  {
    ClauseSpelled(root, doc, path, x);
    FilterSpelled(root, doc, path, x);
    Spellings(doc, path, x);
  }

  ghost predicate HeldOtherwise(doc: Document, path: Utf8, x: Value) {
    exists segments :: HoldsAt(doc, segments, path, x) && Otherwise(segments, path)
  }

  ghost predicate HeldSomehow(doc: Document, path: Utf8, x: Value) {
    exists segments :: HoldsAt(doc, segments, path, x)
  }

  lemma Spellings(doc: Document, path: Utf8, x: Value)
    ensures HeldSomehow(doc, path, x)
      <==> HeldOtherwise(doc, path, x) || (path != NAME && HoldsAt(doc, SplitPath(path), path, x))
  {}

  lemma FilterSpelled(root: Utf8, doc: Document, path: Utf8, x: Value)
    requires IsPlainPath(path) && Comparable(x)
    ensures MatchesFilter(root, doc, FieldFilter(Some(path), ArrayContains, Some(x)))
      <==> path != NAME && HoldsAt(doc, SplitPath(path), path, x)
  {
    JoinSplit(path, DOT);
  }

  // ---- several operands ----

  lemma {:induction false} KeyListed(operands: seq<Value>, key: Utf8)
    ensures key in ComparableKeys(operands) <==> exists x :: x in operands && Comparable(x) && IndexString(x) == key
  {
    if operands != [] {
      KeyListed(operands[1..], key);
      assert operands == [operands[0]] + operands[1..];
    }
  }

  ghost predicate SomeTaken(root: Utf8, doc: Document, path: Utf8, operands: seq<Value>) {
    exists x :: x in operands && Comparable(x) && Matches(RowOf(root, doc), AnyElement(path, Is(IndexString(x))))
  }

  /** A clause of several keys takes what a clause of one of them takes. */
  lemma AnyIsSome(root: Utf8, doc: Document, path: Utf8, operands: seq<Value>)
    ensures Matches(RowOf(root, doc), AnyElement(path, OneOf(ComparableKeys(operands)))) <==> SomeTaken(root, doc, path, operands)
  {
    var row, keys := RowOf(root, doc), ComparableKeys(operands);
    if Matches(row, AnyElement(path, OneOf(keys))) {
      var e :| e in row.elements && e.path == path && Meets(e.key, OneOf(keys));
      KeyListed(operands, e.key);
      ElementIs(row, path, e.key);
      assert e == Entry(path, e.key);
    }
    if x :| x in operands && Comparable(x) && Matches(row, AnyElement(path, Is(IndexString(x)))) {
      KeyListed(operands, IndexString(x));
      ElementIs(row, path, IndexString(x));
      assert Meets(Entry(path, IndexString(x)).key, OneOf(keys));
    }
  }

  lemma AnyFilterSpelled(root: Utf8, doc: Document, path: Utf8, operands: seq<Value>)
    requires IsPlainPath(path)
    ensures MatchesFilter(root, doc, FieldFilter(Some(path), ArrayContainsAny, Some(Array(operands))))
      <==> exists x :: x in operands && Comparable(x)
             && MatchesFilter(root, doc, FieldFilter(Some(path), ArrayContains, Some(x)))
  {}

  ghost predicate SomeHeldOtherwise(doc: Document, path: Utf8, operands: seq<Value>) {
    exists x :: x in operands && Comparable(x) && HeldOtherwise(doc, path, x)
  }

  /** The same for `array-contains-any`: the clause agrees with its filter if and
      only if the filter accepts anyway, or no array under another spelling of
      the path holds an operand that is neither null nor NaN. */
  lemma AnyClauseExact(root: Utf8, doc: Document, path: Utf8, operands: seq<Value>)
    requires IsPlainPath(path) && ComparableKeys(operands) != []
    ensures
      var filter := FieldFilter(Some(path), ArrayContainsAny, Some(Array(operands)));
      var clause := AnyElement(path, OneOf(ComparableKeys(operands)));
      && ClauseFor(filter) == Some(Translation(clause, true))
      && ((Matches(RowOf(root, doc), clause) <==> MatchesFilter(root, doc, filter))
          <==> MatchesFilter(root, doc, filter) || !SomeHeldOtherwise(doc, path, operands))
  {
    AnyIsSome(root, doc, path, operands);
    AnyFilterSpelled(root, doc, path, operands);
    forall x | x in operands && Comparable(x)
      ensures Matches(RowOf(root, doc), AnyElement(path, Is(IndexString(x))))
        <==> HeldOtherwise(doc, path, x) || MatchesFilter(root, doc, FieldFilter(Some(path), ArrayContains, Some(x)))
    {
      ClauseSpelled(root, doc, path, x);
      FilterSpelled(root, doc, path, x);
      Spellings(doc, path, x);
    }
  }
}
