/** The keyset predicate of a cursor against the cursor comparison, for any
    orders. A predicate keeps one condition per column, so where a path repeats
    a later condition takes the place of an earlier pin; what it then keeps, and
    exactly when that is still the comparison. */
module CursorExactness {
  import opened Orderings
  import opened Bytes
  import opened Results
  import opened Values
  import opened KeyOrdering
  import opened Fields
  import opened Mirror
  import opened Queries
  import opened Predicates
  import opened Planner
  import opened PlanExactness
  import opened SortKeys
  import opened CursorBranches

  // ---- what a branch says ----

  /** Position `j` loses its pin in branch `i`: a later position up to `i`
      orders by the same path. */
  predicate Repinned(orders: seq<SortOrder>, j: nat, i: nat)
    requires j < |orders| && i < |orders|
  {
    exists k :: j < k <= i && orders[k].path == orders[j].path
  }

  function OpAt(orders: seq<SortOrder>, count: nat, i: nat, inclusive: bool, bound: Bound): Comparator
    requires i < |orders|
  {
    BranchOp(bound.After?, !orders[i].direction.Descending?, i + 1 == count && inclusive)
  }

  /** The branch as it is written: equality where the pin is kept, and the
      comparison at `i`. */
  predicate Emitted(x: seq<Utf8>, y: seq<Utf8>, orders: seq<SortOrder>, i: nat, inclusive: bool, bound: Bound)
    requires i < |y| <= |x| == |orders|
  {
    && (forall j | 0 <= j < i :: !Repinned(orders, j, i) ==> x[j] == y[j])
    && Compares(x[i], OpAt(orders, |y|, i, inclusive, bound), y[i])
  }

  /** The last position before `i` with this path. */
  function LastBefore(orders: seq<SortOrder>, path: Utf8, i: nat): (last: Option<nat>)
    requires i <= |orders|
    ensures last.Some? ==> last.value < i && orders[last.value].path == path
    ensures last.Some? ==> forall k :: last.value < k < i ==> orders[k].path != path
    ensures last.None? ==> forall k :: 0 <= k < i ==> orders[k].path != path
  {
    if i == 0 then None else if orders[i - 1].path == path then Some(i - 1) else LastBefore(orders, path, i - 1)
  }

  lemma SameColumn(p: Utf8, q: Utf8)
    ensures SortField(p) == SortField(q) <==> p == q
  {
    if p != q {
      SortFieldInjective(p, q);
    }
  }

  /** The pins of the first `i` positions: for each path its last one. */
  lemma {:induction false} PinnedLast(orders: seq<SortOrder>, values: seq<Value>, i: nat, path: Utf8)
    requires i <= |orders| && i <= |values|
    ensures
      var pinned, last := Pinned(SortColumns(orders), values, i), LastBefore(orders, path, i);
      && (SortField(path) in pinned <==> last.Some?)
      && (last.Some? ==> pinned[SortField(path)] == Is(IndexString(values[last.value])))
  {
    if i > 0 {
      PinnedLast(orders, values, i - 1, path);
      SameColumn(orders[i - 1].path, path);
      PinnedNext(orders, values, i, SortField(path), SortField(orders[i - 1].path));
    }
  }

  lemma PinnedNext(orders: seq<SortOrder>, values: seq<Value>, i: nat, column: Utf8, last: Utf8)
    requires 0 < i <= |orders| && i <= |values| && last == SortField(orders[i - 1].path)
    ensures
      var pinned, before := Pinned(SortColumns(orders), values, i), Pinned(SortColumns(orders), values, i - 1);
      && (column in pinned <==> column == last || column in before)
      && (column in pinned ==> pinned[column] == if column == last then Is(IndexString(values[i - 1])) else before[column])
  {}

  lemma {:induction false} PinnedPath(orders: seq<SortOrder>, values: seq<Value>, i: nat, column: Utf8) returns (j: nat)
    requires i <= |orders| && i <= |values| && column in Pinned(SortColumns(orders), values, i)
    ensures j < i && column == SortField(orders[j].path)
  {
    if column == SortField(orders[i - 1].path) {
      j := i - 1;
    } else {
      j := PinnedPath(orders, values, i - 1, column);
    }
  }

  lemma BranchEmits(row: Row, orders: seq<SortOrder>, values: seq<Value>, x: seq<Utf8>, i: nat, inclusive: bool, bound: Bound)
    requires i < |values| <= |orders| && RowHolds(row, SortColumns(orders), x)
    ensures Matches(row, Branch(SortColumns(orders), values, i, inclusive, bound))
      <==> Emitted(x, KeysOf(values), orders, i, inclusive, bound)
  {
    var op := OpAt(orders, |values|, i, inclusive, bound);
    BoundedBy(x[i], op, IndexString(values[i]));
    if Matches(row, Branch(SortColumns(orders), values, i, inclusive, bound)) {
      BranchRequires(row, orders, values, x, i, Between(map[op := IndexString(values[i])]));
    }
    if Emitted(x, KeysOf(values), orders, i, inclusive, bound) {
      BranchSuffices(row, orders, values, x, i, Between(map[op := IndexString(values[i])]));
    }
  }

  lemma BranchRequires(row: Row, orders: seq<SortOrder>, values: seq<Value>, x: seq<Utf8>, i: nat, last: Condition)
    requires i < |values| <= |orders| && RowHolds(row, SortColumns(orders), x)
    requires Matches(row, Where(Pinned(SortColumns(orders), values, i)[SortColumns(orders)[i].0 := last]))
    ensures Meets(x[i], last)
    ensures forall j | 0 <= j < i :: !Repinned(orders, j, i) ==> x[j] == KeysOf(values)[j]
  {
    var columns := SortColumns(orders);
    var conditions := Pinned(columns, values, i)[columns[i].0 := last];
    assert ColumnMeets(row, columns[i].0, conditions[columns[i].0]);
    forall j | 0 <= j < i && !Repinned(orders, j, i)
      ensures x[j] == KeysOf(values)[j]
    {
      PinnedLast(orders, values, i, orders[j].path);
      SameColumn(orders[j].path, orders[i].path);
      assert LastBefore(orders, orders[j].path, i) == Some(j);
      assert ColumnMeets(row, columns[j].0, conditions[columns[j].0]);
    }
  }

  lemma PinMet(row: Row, orders: seq<SortOrder>, values: seq<Value>, x: seq<Utf8>, i: nat, column: Utf8)
    requires i < |values| <= |orders| && RowHolds(row, SortColumns(orders), x)
    requires column in Pinned(SortColumns(orders), values, i) && column != SortField(orders[i].path)
    requires forall j | 0 <= j < i :: !Repinned(orders, j, i) ==> x[j] == KeysOf(values)[j]
    ensures ColumnMeets(row, column, Pinned(SortColumns(orders), values, i)[column])
  {
    var k := PinnedPath(orders, values, i, column);
    PinnedLast(orders, values, i, orders[k].path);
    var j := LastBefore(orders, orders[k].path, i).value;
    assert !Repinned(orders, j, i);
  }

  lemma BranchSuffices(row: Row, orders: seq<SortOrder>, values: seq<Value>, x: seq<Utf8>, i: nat, last: Condition)
    requires i < |values| <= |orders| && RowHolds(row, SortColumns(orders), x)
    requires Meets(x[i], last)
    requires forall j | 0 <= j < i :: !Repinned(orders, j, i) ==> x[j] == KeysOf(values)[j]
    ensures Matches(row, Where(Pinned(SortColumns(orders), values, i)[SortColumns(orders)[i].0 := last]))
  {
    var columns := SortColumns(orders);
    var conditions := Pinned(columns, values, i)[columns[i].0 := last];
    forall column | column in conditions
      ensures ColumnMeets(row, column, conditions[column])
    {
      if column != columns[i].0 {
        PinMet(row, orders, values, x, i, column);
      }
    }
  }

  ghost predicate SomeEmitted(x: seq<Utf8>, y: seq<Utf8>, orders: seq<SortOrder>, inclusive: bool, bound: Bound)
    requires |y| <= |x| == |orders|
  {
    exists i :: 0 <= i < |y| && Emitted(x, y, orders, i, inclusive, bound)
  }

  lemma OrEmits(row: Row, branches: seq<Clause>, x: seq<Utf8>, y: seq<Utf8>, orders: seq<SortOrder>, inclusive: bool,
                bound: Bound)
    requires |branches| == |y| <= |x| == |orders|
    requires forall i | 0 <= i < |y| :: Matches(row, branches[i]) <==> Emitted(x, y, orders, i, inclusive, bound)
    ensures Matches(row, Or(branches)) <==> SomeEmitted(x, y, orders, inclusive, bound)
  {
    OrMatches(row, branches);
    if SomeEmitted(x, y, orders, inclusive, bound) {
      var i :| 0 <= i < |y| && Emitted(x, y, orders, i, inclusive, bound);
      assert Matches(row, branches[i]);
    }
  }

  /** The keyset predicate of any orders and any cursor. */
  lemma BoundEmits(row: Row, orders: seq<SortOrder>, values: seq<Value>, x: seq<Utf8>, inclusive: bool, bound: Bound)
    requires 0 < |values| <= |orders| && RowHolds(row, SortColumns(orders), x)
    ensures
      var clause := CursorBound(SortColumns(orders), values, inclusive, bound);
      clause.Some?
      && (Matches(row, clause.value) <==> SomeEmitted(x, KeysOf(values), orders, inclusive, bound))
  {
    var columns, y := SortColumns(orders), KeysOf(values);
    var branches := Branches(columns, values, |values|, inclusive, bound);
    forall i | 0 <= i < |values|
      ensures Matches(row, branches[i]) <==> Emitted(x, y, orders, i, inclusive, bound)
    {
      BranchEmits(row, orders, values, x, i, inclusive, bound);
    }
    OrEmits(row, branches, x, y, orders, inclusive, bound);
    SingleOrMany(row, columns, values, inclusive, bound, branches);
  }

  // ---- which branches stray ----

  /** The document's first difference from the cursor is on the side the bound
      drops. */
  predicate Dropped(x: seq<Utf8>, y: seq<Utf8>, orders: seq<SortOrder>, j: nat, bound: Bound)
    requires j < |y| <= |x| == |orders|
  {
    && SameBefore(x, y, j) && x[j] != y[j]
    && !Compares(x[j], BranchOp(bound.After?, !orders[j].direction.Descending?, false), y[j])
  }

  /** A branch that holds only because pins are lost. */
  predicate Stray(x: seq<Utf8>, y: seq<Utf8>, orders: seq<SortOrder>, i: nat, inclusive: bool, bound: Bound)
    requires i < |y| <= |x| == |orders|
  {
    Emitted(x, y, orders, i, inclusive, bound) && exists j :: 0 <= j < i && Dropped(x, y, orders, j, bound)
  }

  lemma FirstDifference(x: seq<Utf8>, y: seq<Utf8>, i: nat) returns (j: nat)
    requires i <= |x| && i <= |y|
    ensures j <= i && SameBefore(x, y, j) && (j < i ==> x[j] != y[j])
  {
    j := 0;
    while j < i && x[j] == y[j]
      invariant j <= i && SameBefore(x, y, j)
    {
      j := j + 1;
    }
  }

  lemma KeptHolds(x: seq<Utf8>, y: seq<Utf8>, orders: seq<SortOrder>, inclusive: bool, bound: Bound)
    requires 0 < |y| <= |x| == |orders|
    ensures Kept(CompareKeys(x, y, orders), inclusive, bound)
      <==> exists i :: 0 <= i < |y| && BranchHolds(x, y, orders, 0, i, inclusive, bound)
  {
    BranchesCompare(x, y, orders, 0, inclusive, bound);
    assert x[0..] == x && y[0..] == y && orders[0..] == orders;
    SomeBranchIs(x, y, orders, 0, inclusive, bound);
  }

  /** Only the branch of the first difference can hold. */
  lemma HoldsAtDifference(x: seq<Utf8>, y: seq<Utf8>, orders: seq<SortOrder>, j: nat, i: nat, inclusive: bool, bound: Bound)
    requires j < |y| <= |x| == |orders| && i < |y| && SameBefore(x, y, j) && x[j] != y[j]
    ensures BranchHolds(x, y, orders, 0, i, inclusive, bound)
      <==> i == j && Compares(x[j], BranchOp(bound.After?, !orders[j].direction.Descending?, false), y[j])
  {
    LexEqual(x[i], y[i]);
    if i > j {
      assert !(x[j] == y[j]);
    }
  }

  /** The first difference decides. */
  lemma DifferenceDecides(x: seq<Utf8>, y: seq<Utf8>, orders: seq<SortOrder>, j: nat, inclusive: bool, bound: Bound)
    requires j < |y| <= |x| == |orders| && SameBefore(x, y, j) && x[j] != y[j]
    ensures Kept(CompareKeys(x, y, orders), inclusive, bound)
      <==> Compares(x[j], BranchOp(bound.After?, !orders[j].direction.Descending?, false), y[j])
  {
    KeptHolds(x, y, orders, inclusive, bound);
    HoldsAtDifference(x, y, orders, j, j, inclusive, bound);
    if Kept(CompareKeys(x, y, orders), inclusive, bound) {
      var i :| 0 <= i < |y| && BranchHolds(x, y, orders, 0, i, inclusive, bound);
      HoldsAtDifference(x, y, orders, j, i, inclusive, bound);
    }
  }

  lemma EmittedKept(x: seq<Utf8>, y: seq<Utf8>, orders: seq<SortOrder>, i: nat, inclusive: bool, bound: Bound)
    requires i < |y| <= |x| == |orders| && Emitted(x, y, orders, i, inclusive, bound)
    ensures !Kept(CompareKeys(x, y, orders), inclusive, bound) <==> Stray(x, y, orders, i, inclusive, bound)
  {
    var j := FirstDifference(x, y, i);
    if j == i {
      assert BranchHolds(x, y, orders, 0, i, inclusive, bound);
      KeptHolds(x, y, orders, inclusive, bound);
      assert forall k | 0 <= k < i :: x[k] == y[k];
    } else {
      DifferenceDecides(x, y, orders, j, inclusive, bound);
      if Stray(x, y, orders, i, inclusive, bound) {
        var k :| 0 <= k < i && Dropped(x, y, orders, k, bound);
        DifferenceDecides(x, y, orders, k, inclusive, bound);
      } else {
        assert !Dropped(x, y, orders, j, bound);
      }
    }
  }

  ghost predicate SomeStray(x: seq<Utf8>, y: seq<Utf8>, orders: seq<SortOrder>, inclusive: bool, bound: Bound)
    requires |y| <= |x| == |orders|
  {
    exists i :: 0 <= i < |y| && Stray(x, y, orders, i, inclusive, bound)
  }

  /** What is kept is always emitted; more is emitted exactly by strays. */
  lemma EmittedExactly(x: seq<Utf8>, y: seq<Utf8>, orders: seq<SortOrder>, inclusive: bool, bound: Bound)
    requires 0 < |y| <= |x| == |orders|
    ensures Kept(CompareKeys(x, y, orders), inclusive, bound) ==> SomeEmitted(x, y, orders, inclusive, bound)
    ensures (SomeEmitted(x, y, orders, inclusive, bound) <==> Kept(CompareKeys(x, y, orders), inclusive, bound))
      <==> !SomeStray(x, y, orders, inclusive, bound)
  {
    KeptHolds(x, y, orders, inclusive, bound);
    if Kept(CompareKeys(x, y, orders), inclusive, bound) {
      var i :| 0 <= i < |y| && BranchHolds(x, y, orders, 0, i, inclusive, bound);
      assert Emitted(x, y, orders, i, inclusive, bound);
    }
    forall i | 0 <= i < |y| && Emitted(x, y, orders, i, inclusive, bound)
      ensures !Kept(CompareKeys(x, y, orders), inclusive, bound) <==> Stray(x, y, orders, i, inclusive, bound)
    {
      EmittedKept(x, y, orders, i, inclusive, bound);
    }
  }

  /** For any orders and any cursor the keyset predicate loses no document,
      and it is the cursor comparison exactly for the documents that no branch
      takes in over a lost pin. */
  lemma KeysetExactly(root: Utf8, doc: Document, orders: seq<SortOrder>, values: seq<Value>, inclusive: bool, bound: Bound)
    requires Indexable(doc) && IsSortable(root, doc, orders) && 0 < |values| <= |orders|
    ensures
      var clause := CursorBound(SortColumns(orders), values, inclusive, bound);
      var kept := Kept(CompareToCursor(root, doc, values, orders), inclusive, bound);
      && clause.Some? && (kept ==> Matches(RowOf(root, doc), clause.value))
      && ((Matches(RowOf(root, doc), clause.value) <==> kept)
          <==> !SomeStray(SortKey(root, doc, orders), KeysOf(values), orders, inclusive, bound))
  {
    var columns := SortColumns(orders);
    var x, y := SortKey(root, doc, orders), KeysOf(values);
    forall j | 0 <= j < |columns|
      ensures Column(RowOf(root, doc), columns[j].0) == Some(x[j])
    {
      SortKeyAt(root, doc, orders, j);
      ColumnValue(root, doc, orders[j].path);
    }
    CompareToCursorByKey(root, doc, values, orders);
    BoundEmits(RowOf(root, doc), orders, values, x, inclusive, bound);
    EmittedExactly(x, y, orders, inclusive, bound);
  }

  // ---- a condition on the orders and the cursor alone ----

  /** The sort key of a document whose paths have these keys. */
  function KeyUnder(k: Utf8 -> Utf8, orders: seq<SortOrder>): (x: seq<Utf8>)
    ensures |x| == |orders|
    ensures forall i :: 0 <= i < |orders| ==> x[i] == k(orders[i].path)
  {
    seq(|orders|, i requires 0 <= i < |orders| => k(orders[i].path))
  }

  /** The only keys that branch `i` leaves open: its own path has `u`, and
      every other path before it the cursor's last key for it. */
  function Forced(orders: seq<SortOrder>, y: seq<Utf8>, i: nat, u: Utf8): Utf8 -> Utf8
    requires i < |y| <= |orders|
  {
    path =>
      if path == orders[i].path then u
      else
        var last := LastBefore(orders, path, i);
        if last.Some? then y[last.value] else u
  }

  /** Branch `i` takes in a dropped document whose own path has the key `u`. */
  predicate StraysAt(orders: seq<SortOrder>, y: seq<Utf8>, i: nat, u: Utf8, inclusive: bool, bound: Bound)
    requires i < |y| <= |orders|
  {
    Stray(KeyUnder(Forced(orders, y, i, u), orders), y, orders, i, inclusive, bound)
  }

  /** No value of a branch's own path makes that branch stray. */
  ghost predicate NoStrays(orders: seq<SortOrder>, values: seq<Value>, inclusive: bool, bound: Bound)
    requires |values| <= |orders|
  {
    forall i, v :: 0 <= i < |values| ==> !StraysAt(orders, KeysOf(values), i, IndexString(v), inclusive, bound)
  }

  /** Up to branch `i`, a document it takes in has the forced keys. */
  lemma EmittedForced(k: Utf8 -> Utf8, orders: seq<SortOrder>, y: seq<Utf8>, i: nat, inclusive: bool, bound: Bound)
    requires i < |y| <= |orders| && Emitted(KeyUnder(k, orders), y, orders, i, inclusive, bound)
    ensures
      var x, z := KeyUnder(k, orders), KeyUnder(Forced(orders, y, i, k(orders[i].path)), orders);
      forall j | 0 <= j <= i :: x[j] == z[j]
  {
    var x := KeyUnder(k, orders);
    forall j | 0 <= j <= i && orders[j].path != orders[i].path
      ensures x[j] == Forced(orders, y, i, k(orders[i].path))(orders[j].path)
    {
      var last := LastBefore(orders, orders[j].path, i).value;
      assert !Repinned(orders, last, i);
      assert x[last] == y[last];
    }
  }

  lemma StrayOn(x: seq<Utf8>, z: seq<Utf8>, y: seq<Utf8>, orders: seq<SortOrder>, i: nat, inclusive: bool, bound: Bound)
    requires i < |y| <= |x| == |z| == |orders| && forall j | 0 <= j <= i :: x[j] == z[j]
    requires Stray(x, y, orders, i, inclusive, bound)
    ensures Stray(z, y, orders, i, inclusive, bound)
  {
    var j :| 0 <= j < i && Dropped(x, y, orders, j, bound);
    assert Dropped(z, y, orders, j, bound);
  }

  lemma StrayForced(k: Utf8 -> Utf8, orders: seq<SortOrder>, y: seq<Utf8>, i: nat, inclusive: bool, bound: Bound)
    requires i < |y| <= |orders| && Stray(KeyUnder(k, orders), y, orders, i, inclusive, bound)
    ensures StraysAt(orders, y, i, k(orders[i].path), inclusive, bound)
  {
    EmittedForced(k, orders, y, i, inclusive, bound);
    StrayOn(KeyUnder(k, orders), KeyUnder(Forced(orders, y, i, k(orders[i].path)), orders), y, orders, i, inclusive, bound);
  }

  /** The keys of the values a document has at its paths. */
  function KeysBy(a: Utf8 -> Value): Utf8 -> Utf8 {
    path => IndexString(a(path))
  }

  lemma NoneStray(a: Utf8 -> Value, orders: seq<SortOrder>, values: seq<Value>, inclusive: bool, bound: Bound)
    requires 0 < |values| <= |orders| && NoStrays(orders, values, inclusive, bound)
    ensures !SomeStray(KeyUnder(KeysBy(a), orders), KeysOf(values), orders, inclusive, bound)
  {
    var x, y := KeyUnder(KeysBy(a), orders), KeysOf(values);
    if SomeStray(x, y, orders, inclusive, bound) {
      var i := WhichStrays(x, y, orders, inclusive, bound);
      StrayByValue(a, orders, y, i, inclusive, bound);
      NotAt(orders, values, i, a(orders[i].path), inclusive, bound);
    }
  }

  lemma WhichStrays(x: seq<Utf8>, y: seq<Utf8>, orders: seq<SortOrder>, inclusive: bool, bound: Bound) returns (i: nat)
    requires |y| <= |x| == |orders| && SomeStray(x, y, orders, inclusive, bound)
    ensures i < |y| && Stray(x, y, orders, i, inclusive, bound)
  {
    i :| 0 <= i < |y| && Stray(x, y, orders, i, inclusive, bound);
  }

  lemma NotAt(orders: seq<SortOrder>, values: seq<Value>, i: nat, v: Value, inclusive: bool, bound: Bound)
    requires i < |values| <= |orders| && NoStrays(orders, values, inclusive, bound)
    ensures !StraysAt(orders, KeysOf(values), i, IndexString(v), inclusive, bound)
  {}

  lemma StrayByValue(a: Utf8 -> Value, orders: seq<SortOrder>, y: seq<Utf8>, i: nat, inclusive: bool, bound: Bound)
    requires i < |y| <= |orders| && Stray(KeyUnder(KeysBy(a), orders), y, orders, i, inclusive, bound)
    ensures StraysAt(orders, y, i, IndexString(a(orders[i].path)), inclusive, bound)
  {
    StrayForced(KeysBy(a), orders, y, i, inclusive, bound);
  }

  /** Values with the forced keys. */
  function ForcedValues(orders: seq<SortOrder>, values: seq<Value>, i: nat, v: Value): Utf8 -> Value
    requires i < |values| <= |orders|
  {
    path =>
      if path == orders[i].path then v
      else
        var last := LastBefore(orders, path, i);
        if last.Some? then values[last.value] else v
  }

  lemma ForcedShown(orders: seq<SortOrder>, values: seq<Value>, i: nat, v: Value, path: Utf8, y: seq<Utf8>, u: Utf8)
    requires i < |values| <= |orders| && y == KeysOf(values) && u == IndexString(v)
    ensures KeysBy(ForcedValues(orders, values, i, v))(path) == Forced(orders, y, i, u)(path)
  {
    var last := LastBefore(orders, path, i);
    if path != orders[i].path && last.Some? {
      assert y[last.value] == IndexString(values[last.value]);
    }
  }

  lemma StrayShown(orders: seq<SortOrder>, values: seq<Value>, i: nat, v: Value, y: seq<Utf8>, u: Utf8, inclusive: bool,
                   bound: Bound)
    requires i < |values| <= |orders| && y == KeysOf(values) && u == IndexString(v)
    requires StraysAt(orders, y, i, u, inclusive, bound)
    ensures SomeStray(KeyUnder(KeysBy(ForcedValues(orders, values, i, v)), orders), y, orders, inclusive, bound)
  {
    var k, l := KeysBy(ForcedValues(orders, values, i, v)), Forced(orders, y, i, u);
    forall path
      ensures k(path) == l(path)
    {
      ForcedShown(orders, values, i, v, path, y, u);
    }
    SameKeysStray(k, l, orders, y, i, inclusive, bound);
  }

  lemma SameKeysStray(k: Utf8 -> Utf8, l: Utf8 -> Utf8, orders: seq<SortOrder>, y: seq<Utf8>, i: nat, inclusive: bool,
                      bound: Bound)
    requires i < |y| <= |orders| && (forall path :: k(path) == l(path))
    requires Stray(KeyUnder(l, orders), y, orders, i, inclusive, bound)
    ensures SomeStray(KeyUnder(k, orders), y, orders, inclusive, bound)
  {
    assert KeyUnder(k, orders) == KeyUnder(l, orders);
  }

  /** Under these values the keyset predicate is the cursor comparison. */
  ghost predicate RightFor(a: Utf8 -> Value, orders: seq<SortOrder>, values: seq<Value>, inclusive: bool, bound: Bound)
    requires |values| <= |orders|
  {
    var x := KeyUnder(KeysBy(a), orders);
    SomeEmitted(x, KeysOf(values), orders, inclusive, bound)
    <==> Kept(CompareKeys(x, KeysOf(values), orders), inclusive, bound)
  }

  lemma RightUnlessStray(a: Utf8 -> Value, orders: seq<SortOrder>, values: seq<Value>, inclusive: bool, bound: Bound)
    requires 0 < |values| <= |orders|
    ensures RightFor(a, orders, values, inclusive, bound)
      <==> !SomeStray(KeyUnder(KeysBy(a), orders), KeysOf(values), orders, inclusive, bound)
  {
    EmittedExactly(KeyUnder(KeysBy(a), orders), KeysOf(values), orders, inclusive, bound);
  }

  /** Over all values documents may have at the paths, the keyset predicate is
      the cursor comparison if and only if no value of a branch's own path
      makes that branch stray, which is a matter of the orders and the cursor
      alone. */
  lemma RepeatsExactly(orders: seq<SortOrder>, values: seq<Value>, inclusive: bool, bound: Bound)
    requires 0 < |values| <= |orders|
    ensures NoStrays(orders, values, inclusive, bound)
      <==> forall a: Utf8 -> Value :: RightFor(a, orders, values, inclusive, bound)
  {
    if NoStrays(orders, values, inclusive, bound) {
      forall a: Utf8 -> Value
        ensures RightFor(a, orders, values, inclusive, bound)
      {
        NoneStray(a, orders, values, inclusive, bound);
        RightUnlessStray(a, orders, values, inclusive, bound);
      }
    } else {
      var i, v :| 0 <= i < |values| && StraysAt(orders, KeysOf(values), i, IndexString(v), inclusive, bound);
      StrayShown(orders, values, i, v, KeysOf(values), IndexString(v), inclusive, bound);
      RightUnlessStray(ForcedValues(orders, values, i, v), orders, values, inclusive, bound);
    }
  }

  /** So for such orders and cursors, those of distinct paths among them, the
      keyset predicate keeps a document exactly when the in-memory cursor
      comparison does: for either bound, inclusive or not, any non-empty
      prefix of the orders. */
  lemma CursorExact(root: Utf8, doc: Document, orders: seq<SortOrder>, values: seq<Value>, inclusive: bool, bound: Bound)
    requires Indexable(doc) && IsSortable(root, doc, orders) && 0 < |values| <= |orders|
    requires NoStrays(orders, values, inclusive, bound)
    ensures
      var clause := CursorBound(SortColumns(orders), values, inclusive, bound);
      clause.Some?
      && (Matches(RowOf(root, doc), clause.value) <==> Kept(CompareToCursor(root, doc, values, orders), inclusive, bound))
  {
    var a: Utf8 -> Value := path => if FieldValue(root, doc, path).Some? then FieldValue(root, doc, path).value else Null;
    SortKeyUnder(root, doc, orders, a);
    NoneStray(a, orders, values, inclusive, bound);
    KeysetExactly(root, doc, orders, values, inclusive, bound);
  }

  lemma SortKeyUnder(root: Utf8, doc: Document, orders: seq<SortOrder>, a: Utf8 -> Value)
    requires IsSortable(root, doc, orders)
    requires forall path :: FieldValue(root, doc, path).Some? ==> a(path) == FieldValue(root, doc, path).value
    ensures SortKey(root, doc, orders) == KeyUnder(KeysBy(a), orders)
  {
    var x := SortKey(root, doc, orders);
    forall i | 0 <= i < |orders|
      ensures x[i] == KeysBy(a)(orders[i].path)
    {
      SortKeyAt(root, doc, orders, i);
    }
    assert x == KeyUnder(KeysBy(a), orders);
  }

  // ---- a condition to check pair by pair ----

  /** Where a path repeats, it repeats its direction and does not go back. */
  predicate RepeatsOnward(orders: seq<SortOrder>, y: seq<Utf8>, bound: Bound)
    requires |y| <= |orders|
  {
    forall j, i | 0 <= j < i < |y| && orders[j].path == orders[i].path ::
      && orders[j].direction.Descending? == orders[i].direction.Descending?
      && Compares(y[i], BranchOp(bound.After?, !orders[j].direction.Descending?, true), y[j])
  }

  lemma OnwardThen(s: Utf8, t: Utf8, u: Utf8, after: bool, ascending: bool, inclusive: bool)
    requires Compares(s, BranchOp(after, ascending, inclusive), t) && Compares(t, BranchOp(after, ascending, true), u)
    requires s != u
    ensures Compares(s, BranchOp(after, ascending, false), u)
  {
    LexEqual(s, u);
    LexEqual(s, t);
    LexEqual(t, u);
    LexReverse(s, t);
    LexReverse(t, u);
    LexReverse(s, u);
    if LexCompare(s, t) == Less && LexCompare(t, u) == Less {
      LexTransitive(s, t, u);
    }
    if LexCompare(u, t) == Less && LexCompare(t, s) == Less {
      LexTransitive(u, t, s);
    }
  }

  /** Repeats that go onward leave no strays. */
  lemma OnwardIsHarmless(orders: seq<SortOrder>, values: seq<Value>, inclusive: bool, bound: Bound)
    requires 0 < |values| <= |orders| && RepeatsOnward(orders, KeysOf(values), bound)
    ensures NoStrays(orders, values, inclusive, bound)
  {
    OnwardEach(orders, KeysOf(values), inclusive, bound);
  }

  lemma OnwardEach(orders: seq<SortOrder>, y: seq<Utf8>, inclusive: bool, bound: Bound)
    requires |y| <= |orders| && RepeatsOnward(orders, y, bound)
    ensures forall i, u: Utf8 :: 0 <= i < |y| ==> !StraysAt(orders, y, i, u, inclusive, bound)
  {
    forall i, u: Utf8 | 0 <= i < |y|
      ensures !StraysAt(orders, y, i, u, inclusive, bound)
    {
      OnwardNotStray(orders, y, i, u, inclusive, bound);
    }
  }

  lemma OnwardNotStray(orders: seq<SortOrder>, y: seq<Utf8>, i: nat, u: Utf8, inclusive: bool, bound: Bound)
    requires i < |y| <= |orders| && RepeatsOnward(orders, y, bound)
    ensures !StraysAt(orders, y, i, u, inclusive, bound)
  {
    var k := Forced(orders, y, i, u);
    var x := KeyUnder(k, orders);
    if StraysAt(orders, y, i, u, inclusive, bound) {
      var j :| 0 <= j < i && Dropped(x, y, orders, j, bound);
      OnwardNotDropped(orders, y, k, i, j, inclusive, bound);
      assert false;
    }
  }

  lemma OnwardNotDropped(orders: seq<SortOrder>, y: seq<Utf8>, k: Utf8 -> Utf8, i: nat, j: nat, inclusive: bool, bound: Bound)
    requires j < i < |y| <= |orders| && RepeatsOnward(orders, y, bound)
    requires Emitted(KeyUnder(k, orders), y, orders, i, inclusive, bound) && KeyUnder(k, orders)[j] != y[j]
    ensures !Dropped(KeyUnder(k, orders), y, orders, j, bound)
  {
    var x := KeyUnder(k, orders);
    var after, ascending := bound.After?, !orders[j].direction.Descending?;
    if orders[i].path == orders[j].path {
      OnwardThen(x[i], y[i], y[j], after, ascending, i + 1 == |y| && inclusive);
    } else {
      var last := LastBefore(orders, orders[j].path, i).value;
      assert !Repinned(orders, last, i);
      assert x[last] == y[last] && x[last] == x[j];
      LexEqual(y[last], y[last]);
      OnwardThen(x[last], y[last], y[j], after, ascending, true);
    }
  }

  lemma DistinctIsHarmless(orders: seq<SortOrder>, values: seq<Value>, inclusive: bool, bound: Bound)
    requires 0 < |values| <= |orders| && DistinctPaths(orders)
    ensures NoStrays(orders, values, inclusive, bound)
  {
    OnwardIsHarmless(orders, values, inclusive, bound);
  }
}
