/** The branches of a keyset predicate, as comparisons of sort keys, are the
    cursor comparison. */
module CursorBranches {
  import opened Orderings
  import opened Bytes
  import opened Results
  import opened Values
  import opened KeyOrdering
  import opened Fields
  import opened Mirror
  import opened Queries
  import opened Predicates
  import opened Planner
  import opened PlanExactness
  import opened SortKeys

  /** What a bound keeps, by how a document compares to the cursor. */
  predicate Kept(c: Ordering, inclusive: bool, bound: Bound) {
    (c == Equal && inclusive) || c == if bound.After? then Greater else Less
  }

  lemma SortFieldInjective(p: Utf8, q: Utf8)
    requires p != q
    ensures SortField(p) != SortField(q)
  {
    var a, b := KEYS + [DOT] + p + [DOT] + VALUE_KEY, KEYS + [DOT] + q + [DOT] + VALUE_KEY;
    assert p == a[5..|a| - 8] && q == b[5..|b| - 8];
    assert a[0] != NAME_KEY[0] && b[0] != NAME_KEY[0];
  }

  ghost predicate RowHolds(row: Row, columns: seq<SortColumn>, x: seq<Utf8>) {
    |columns| == |x| && forall j :: 0 <= j < |columns| ==> Column(row, columns[j].0) == Some(x[j])
  }

  predicate SameBefore(x: seq<Utf8>, y: seq<Utf8>, i: nat)
    requires i <= |x| && i <= |y|
  {
    forall j :: 0 <= j < i ==> x[j] == y[j]
  }

  lemma BoundedBy(s: Utf8, op: Comparator, key: Utf8)
    ensures Meets(s, Between(map[op := key])) <==> Compares(s, op, key)
  {
    var bounds := map[op := key];
    assert op in bounds;
  }

  /** The branches from `k` on, given equality before it. */
  predicate SomeBranch(x: seq<Utf8>, y: seq<Utf8>, orders: seq<SortOrder>, k: nat, inclusive: bool, bound: Bound)
    requires k <= |y| <= |x| && |y| <= |orders|
    decreases |y| - k
  {
    && k < |y|
    && var op := BranchOp(bound.After?, !orders[k].direction.Descending?, k + 1 == |y| && inclusive);
       Compares(x[k], op, y[k]) || (x[k] == y[k] && SomeBranch(x, y, orders, k + 1, inclusive, bound))
  }

  predicate BranchHolds(x: seq<Utf8>, y: seq<Utf8>, orders: seq<SortOrder>, k: nat, i: nat, inclusive: bool, bound: Bound)
    requires k <= i < |y| <= |x| && |y| <= |orders|
  {
    && (forall j | k <= j < i :: x[j] == y[j])
    && Compares(x[i], BranchOp(bound.After?, !orders[i].direction.Descending?, i + 1 == |y| && inclusive), y[i])
  }

  lemma {:induction false} SomeBranchIs(x: seq<Utf8>, y: seq<Utf8>, orders: seq<SortOrder>, k: nat, inclusive: bool, bound: Bound)
    requires k <= |y| <= |x| && |y| <= |orders|
    ensures SomeBranch(x, y, orders, k, inclusive, bound)
      <==> exists i :: k <= i < |y| && BranchHolds(x, y, orders, k, i, inclusive, bound)
    decreases |y| - k
  {
    if k < |y| {
      SomeBranchIs(x, y, orders, k + 1, inclusive, bound);
      var m := k + 1;
      if x[k] == y[k] && exists i :: m <= i < |y| && BranchHolds(x, y, orders, m, i, inclusive, bound) {
        var i :| m <= i < |y| && BranchHolds(x, y, orders, m, i, inclusive, bound);
        assert BranchHolds(x, y, orders, k, i, inclusive, bound);
      }
      if Compares(x[k], BranchOp(bound.After?, !orders[k].direction.Descending?, k + 1 == |y| && inclusive), y[k]) {
        assert BranchHolds(x, y, orders, k, k, inclusive, bound);
      }
      if i :| k <= i < |y| && BranchHolds(x, y, orders, k, i, inclusive, bound) && i > k {
        assert x[k] == y[k];
        assert BranchHolds(x, y, orders, m, i, inclusive, bound);
      }
    }
  }

  /** One of the branches holds exactly when the lexicographic,
      direction-aware comparison is kept. */
  lemma {:induction false} BranchesCompare(x: seq<Utf8>, y: seq<Utf8>, orders: seq<SortOrder>, k: nat,
                                           inclusive: bool, bound: Bound)
    requires k < |y| <= |x| && |y| <= |orders|
    ensures SomeBranch(x, y, orders, k, inclusive, bound)
      <==> Kept(CompareKeys(x[k..], y[k..], orders[k..]), inclusive, bound)
    decreases |y| - k
  {
    assert x[k..][1..] == x[k + 1..] && y[k..][1..] == y[k + 1..] && orders[k..][1..] == orders[k + 1..];
    LexEqual(x[k], y[k]);
    if k + 1 < |y| {
      BranchesCompare(x, y, orders, k + 1, inclusive, bound);
    }
  }

  /** One branch stands for itself; more are OR'ed. */
  lemma SingleOrMany(row: Row, columns: seq<SortColumn>, values: seq<Value>, inclusive: bool, bound: Bound,
                     branches: seq<Clause>)
    requires 0 < |values| <= |columns| && branches == Branches(columns, values, |values|, inclusive, bound)
    ensures
      var clause := CursorBound(columns, values, inclusive, bound);
      clause.Some? && (Matches(row, clause.value) <==> Matches(row, Or(branches)))
  {
    OrMatches(row, branches);
    assert |branches| == 1 ==> branches == [branches[0]];
  }

  lemma OrMatches(row: Row, branches: seq<Clause>)
    ensures Matches(row, Or(branches)) <==> exists i :: 0 <= i < |branches| && Matches(row, branches[i])
  {
    if i :| 0 <= i < |branches| && Matches(row, branches[i]) {
      assert branches[i] in branches;
    }
  }
}
