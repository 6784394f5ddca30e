/** The event pre-filter of query targets: a change it lets by cannot matter. */
module Coverage {
  import opened Bytes
  import opened Bits
  import opened Results
  import opened Values
  import opened Fields
  import opened Queries
  import opened SortKeys
  import opened Commits
  import F = Fetching
  import P = PlannedQueries
  import W = Watching
  import L = Listening

  /** A path segment, or a collection id made of one. */
  predicate Plain(segment: Utf8) {
    SLASH !in segment
  }

  lemma {:induction false} SplitPlain(s: Utf8)
    ensures forall x :: x in Split(s, SLASH) ==> Plain(x)
  {
    if s != [] {
      SplitPlain(s[1..]);
      var rest := Split(s[1..], SLASH);
      assert rest[0] in rest;
    }
  }

  lemma JoinInjective(a: seq<Utf8>, b: seq<Utf8>)
    requires a != [] && b != [] && (forall x :: x in a ==> Plain(x)) && (forall x :: x in b ==> Plain(x))
    ensures Join(a, SLASH) == Join(b, SLASH) <==> a == b
  {
    SplitJoin(a, SLASH);
    SplitJoin(b, SLASH);
  }

  /** Whether the pre-filter can stand for the query: it reads a collection
      group, or a collection named by one segment. */
  predicate Filterable(query: Query)
    requires |query.from| == 1
  {
    query.from[0].allDescendants || Plain(query.from[0].collectionId)
  }

  /** The pre-filter lets a document through exactly when the query reads it
      and can be filtered for. */
  lemma CoverExact(parent: seq<Utf8>, query: Query, doc: Document)
    requires |query.from| == 1 && ScopeOf(parent, query.from[0]).Ok? && forall x :: x in parent ==> Plain(x)
    ensures L.QueryMayCover(parent, query, doc.path)
      <==> InScope(doc, ScopeOf(parent, query.from[0]).value) && Filterable(query)
  {
    var segments, selector := Split(doc.path, SLASH), query.from[0];
    var collection := segments[..|segments| - 1];
    SplitPlain(doc.path);
    assert forall x :: x in collection ==> x in segments;
    if selector.allDescendants {
      assert collection != [] ==> collection[|collection| - 1] == segments[|segments| - 2];
    } else if collection != [] {
      if Plain(selector.collectionId) {
        JoinInjective(collection, parent + [selector.collectionId]);
      } else {
        assert selector.collectionId in parent + [selector.collectionId];
      }
    }
  }

  /** A collection id with a slash in it reads documents the pre-filter never
      lets through: such a target would not be refreshed. */
  lemma SlashedCollectionIsMissed(query: Query, doc: Document, id: Utf8, name: Utf8)
    requires query.from == [Selector(id, false)] && SLASH in id && doc.path == id + [SLASH] + name && Plain(name)
    ensures ScopeOf([], query.from[0]).Ok? && InScope(doc, ScopeOf([], query.from[0]).value)
    ensures !L.QueryMayCover([], query, doc.path)
  {
    var segments := Split(doc.path, SLASH);
    SplitPlain(doc.path);
    F.PlanExactness.SplitAround(id, name, SLASH);
    F.PlanExactness.SplitWhole(name, SLASH);
    var front := Split(id, SLASH);
    assert segments == front + [name] && segments[..|segments| - 1] == front;
    JoinSplit(id, SLASH);
    SplitPlain(id);
    assert id !in front && id in [id];
    assert [] + [id] == [id];
  }

  // ---- a table's answer ----

  /** The stored rows as documents, in path order. */
  function Listed(rows: Table, paths: seq<Utf8>): (docs: seq<Document>)
    requires forall p :: p in paths ==> p in rows
    ensures |docs| == |paths|
    ensures forall i :: 0 <= i < |paths| ==> docs[i] == DocumentAt(rows, paths[i])
  {
    if paths == [] then [] else [DocumentAt(rows, paths[0])] + Listed(rows, paths[1..])
  }

  function DocumentAt(rows: Table, p: Utf8): Document
    requires p in rows
  {
    Document(p, rows[p].createTime, rows[p].updateTime, rows[p].fields)
  }

  function AllDocuments(rows: Table): seq<Document> {
    Listed(rows, SortedKeys(rows.Keys))
  }

  lemma AllDocumentsAre(rows: Table)
    ensures F.DistinctDocs(AllDocuments(rows))
    ensures forall d: Document :: d in AllDocuments(rows) <==> d.path in rows && d == DocumentAt(rows, d.path)
  {
    var keys := SortedKeys(rows.Keys);
    SortedKeysStrict(rows.Keys);
    forall i, j | 0 <= i < j < |keys|
      ensures keys[i] != keys[j]
    {
      LexEqual(keys[i], keys[j]);
    }
    forall d: Document | d.path in rows && d == DocumentAt(rows, d.path)
      ensures d in AllDocuments(rows)
    {
      assert d.path in keys;
      var i :| 0 <= i < |keys| && keys[i] == d.path;
      assert AllDocuments(rows)[i] == d;
    }
  }

  function MembersIn(docs: seq<Document>): W.Members {
    if docs == [] then map[] else MembersIn(docs[1..])[docs[0].path := docs[0].updateTime]
  }

  /** What `run_query` makes a target's members. */
  function QueryMembers(root: Utf8, rows: Table, parent: seq<Utf8>, query: Query): W.Members {
    var r := Answer(root, AllDocuments(rows), parent, query);
    if r.Ok? then MembersIn(r.value) else map[]
  }

  /** Two stores that agree wherever the pre-filter looks give one answer. */
  lemma UncoveredUnchanged(root: Utf8, a: Table, b: Table, parent: seq<Utf8>, query: Query)
    requires |query.from| == 1 ==> Filterable(query)
    requires forall x :: x in parent ==> Plain(x)
    requires forall p :: L.QueryMayCover(parent, query, p) ==> Find(a, p) == Find(b, p)
    ensures Answer(root, AllDocuments(a), parent, query) == Answer(root, AllDocuments(b), parent, query)
  {
    if |query.from| == 1 && FiltersOf(query).Ok? && ScopeOf(parent, query.from[0]).Ok? {
      var filters, scope := FiltersOf(query).value, ScopeOf(parent, query.from[0]).value;
      SameMembers(a, b, parent, query, scope);
      SameResults(root, Members(AllDocuments(a), scope), Members(AllDocuments(b), scope), query, filters);
      AnswerIs(root, AllDocuments(a), parent, query, filters, scope);
      AnswerIs(root, AllDocuments(b), parent, query, filters, scope);
    }
  }

  lemma AnswerIs(root: Utf8, store: seq<Document>, parent: seq<Utf8>, query: Query, filters: seq<Filter>, scope: Scope)
    requires |query.from| == 1 && FiltersOf(query) == Ok(filters) && ScopeOf(parent, query.from[0]) == Ok(scope)
    ensures Answer(root, store, parent, query)
         == ResultsOf(root, Members(store, scope), query, filters, NormalizedOrders(query, filters))
  {}

  lemma SameResults(root: Utf8, x: seq<Document>, y: seq<Document>, query: Query, filters: seq<Filter>)
    requires F.DistinctDocs(x) && F.DistinctDocs(y) && forall d: Document :: d in x <==> d in y
    ensures ResultsOf(root, x, query, filters, NormalizedOrders(query, filters))
         == ResultsOf(root, y, query, filters, NormalizedOrders(query, filters))
  {
    NormalizedOrdersShape(query, filters);
    P.SelectedAgree(root, x, y, query, filters, NormalizedOrders(query, filters));
  }

  lemma SameMembers(a: Table, b: Table, parent: seq<Utf8>, query: Query, scope: Scope)
    requires |query.from| == 1 && ScopeOf(parent, query.from[0]) == Ok(scope)
    requires Filterable(query) && forall x :: x in parent ==> Plain(x)
    requires forall p :: L.QueryMayCover(parent, query, p) ==> Find(a, p) == Find(b, p)
    ensures F.DistinctDocs(Members(AllDocuments(a), scope)) && F.DistinctDocs(Members(AllDocuments(b), scope))
    ensures forall d: Document :: d in Members(AllDocuments(a), scope) <==> d in Members(AllDocuments(b), scope)
  {
    AllDocumentsAre(a);
    AllDocumentsAre(b);
    F.MembersDistinct(AllDocuments(a), scope);
    F.MembersDistinct(AllDocuments(b), scope);
    forall d: Document
      ensures d in Members(AllDocuments(a), scope) <==> d in Members(AllDocuments(b), scope)
    {
      if InScope(d, scope) {
        CoverExact(parent, query, d);
        SameRow(a, b, d);
      }
    }
  }

  lemma SameRow(a: Table, b: Table, d: Document)
    requires Find(a, d.path) == Find(b, d.path)
    ensures d in AllDocuments(a) <==> d in AllDocuments(b)
  {
    AllDocumentsAre(a);
    AllDocumentsAre(b);
  }
}
