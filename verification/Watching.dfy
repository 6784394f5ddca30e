/** The messages of a Listen stream and what a client makes of them. */
module Watching {
  import opened Bytes
  import opened Bits
  import opened Results
  import opened Errors
  import opened Values
  import opened Queries

  type TargetId = int

  /** A member: document path to version. */
  type Members = map<Utf8, i64>

  datatype Doc = Doc(path: Utf8, version: i64)

  datatype TargetKind = Documents(paths: seq<Utf8>) | QueryTarget(parent: seq<Utf8>, query: Query)

  datatype Target = Target(kind: TargetKind, members: Members)

  datatype ChangeKind = NoChange | Add | Remove | Current | Reset

  datatype Message =
    | TargetChange(change: ChangeKind, ids: seq<TargetId>, at: Option<int>)
    | DocumentChange(doc: Doc, id: TargetId)
    | DocumentDelete(path: Utf8, id: TargetId, time: int)
    | DocumentRemove(path: Utf8, id: TargetId, time: int)

  // ---- the client's view ----

  type Views = map<TargetId, Members>

  function ViewOf(views: Views, id: TargetId): Members {
    if id in views then views[id] else map[]
  }

  function SeenTarget(views: Views, change: ChangeKind, id: TargetId): Views {
    match change
    case Add => views[id := map[]]
    case Reset => views[id := map[]]
    case Remove => views - {id}
    case Current => views
    case NoChange => views
  }

  /** What one message does to what the client holds. */
  function Seen(views: Views, m: Message): Views {
    match m
    case TargetChange(change, ids, _) => if |ids| == 1 then SeenTarget(views, change, ids[0]) else views
    case DocumentChange(doc, id) => views[id := ViewOf(views, id)[doc.path := doc.version]]
    case DocumentDelete(path, id, _) => views[id := ViewOf(views, id) - {path}]
    case DocumentRemove(path, id, _) => views[id := ViewOf(views, id) - {path}]
  }

  function Fold(log: seq<Message>): Views {
    if log == [] then map[] else Seen(Fold(log[..|log| - 1]), log[|log| - 1])
  }

  lemma FoldOne(log: seq<Message>, m: Message)
    ensures Fold(log + [m]) == Seen(Fold(log), m)
  {
    assert (log + [m])[..|log|] == log;
  }

  // ---- markers ----

  /** The global snapshot marker: no target ids, and a read time. */
  predicate IsMarker(m: Message) {
    m.TargetChange? && m.change.NoChange? && m.ids == [] && m.at.Some?
  }

  predicate IsDocument(m: Message) {
    m.DocumentChange? || m.DocumentDelete? || m.DocumentRemove?
  }

  function ReadTime(m: Message): Option<int> {
    match m
    case TargetChange(_, _, at) => at
    case DocumentChange(_, _) => None
    case DocumentDelete(_, _, time) => Some(time)
    case DocumentRemove(_, _, time) => Some(time)
  }

  /** Read times never pass `last`, and each marker's is above all before it. */
  predicate Paced(log: seq<Message>, last: int) {
    && (forall i :: 0 <= i < |log| && ReadTime(log[i]).Some? ==> ReadTime(log[i]).value <= last)
    && (forall i, j :: 0 <= i < j < |log| && IsMarker(log[j]) && ReadTime(log[i]).Some? ==>
          ReadTime(log[i]).value < log[j].at.value)
  }

  lemma PacedOne(log: seq<Message>, last: int, m: Message, next: int)
    requires Paced(log, last) && last <= next
    requires ReadTime(m).Some? ==> ReadTime(m).value <= next
    requires IsMarker(m) ==> last < m.at.value
    ensures Paced(log + [m], next)
  {}

  /** Every document message has a marker after it. */
  predicate Settled(log: seq<Message>) {
    log == [] || IsMarker(log[|log| - 1]) || (!IsDocument(log[|log| - 1]) && Settled(log[..|log| - 1]))
  }

  lemma {:induction false} SettledMeans(log: seq<Message>, i: nat)
    requires Settled(log) && i < |log| && IsDocument(log[i])
    ensures exists j :: i < j < |log| && IsMarker(log[j])
    decreases |log|
  {
    var front := log[..|log| - 1];
    if IsMarker(log[|log| - 1]) {
      assert i < |log| - 1;
    } else {
      SettledMeans(front, i);
      var j :| i < j < |front| && IsMarker(front[j]);
      assert IsMarker(log[j]);
    }
  }

  lemma SettledOne(log: seq<Message>, m: Message)
    ensures Settled(log + [m]) <==> IsMarker(m) || (!IsDocument(m) && Settled(log))
  {
    assert (log + [m])[..|log|] == log;
  }

  // ---- membership ----

  function MembersOf(docs: seq<Doc>): Members {
    if docs == [] then map[] else MembersOf(docs[..|docs| - 1])[docs[|docs| - 1].path := docs[|docs| - 1].version]
  }

  predicate DistinctDocs(docs: seq<Doc>) {
    forall i, j :: 0 <= i < j < |docs| ==> docs[i].path != docs[j].path
  }

  predicate Holds(members: Members, doc: Doc) {
    doc.path in members && members[doc.path] == doc.version
  }

  /** The documents not held at the version they have now. */
  function Entered(members: Members, docs: seq<Doc>): seq<Doc> {
    if docs == [] then []
    else
      Entered(members, docs[..|docs| - 1])
      + if Holds(members, docs[|docs| - 1]) then [] else [docs[|docs| - 1]]
  }

  function Departed(members: Members, docs: seq<Doc>): set<Utf8> {
    set p | p in members && p !in MembersOf(docs)
  }

  lemma {:induction false} MembersOfIs(docs: seq<Doc>)
    requires DistinctDocs(docs)
    ensures forall d :: d in docs ==> Holds(MembersOf(docs), d)
    ensures forall p :: p in MembersOf(docs) ==> exists d :: d in docs && d.path == p
  {
    if docs != [] {
      var front, last := docs[..|docs| - 1], docs[|docs| - 1];
      MembersOfIs(front);
      assert docs == front + [last];
      forall d | d in docs
        ensures Holds(MembersOf(docs), d)
      {
        if d != last {
          var i :| 0 <= i < |docs| && docs[i] == d;
          assert d in front && d.path != last.path;
        }
      }
    }
  }

  lemma MembersOfOne(docs: seq<Doc>, d: Doc)
    ensures MembersOf(docs + [d]) == MembersOf(docs)[d.path := d.version]
  {
    assert (docs + [d])[..|docs|] == docs;
  }

  lemma {:induction false} EnteredIs(members: Members, docs: seq<Doc>)
    ensures forall d :: d in Entered(members, docs) <==> d in docs && !Holds(members, d)
    ensures DistinctDocs(docs) ==> DistinctDocs(Entered(members, docs))
  {
    EnteredHolds(members, docs);
    if DistinctDocs(docs) {
      EnteredDistinct(members, docs);
    }
  }

  lemma {:induction false} EnteredHolds(members: Members, docs: seq<Doc>)
    ensures forall d :: d in Entered(members, docs) <==> d in docs && !Holds(members, d)
  {
    if docs != [] {
      var front, last := docs[..|docs| - 1], docs[|docs| - 1];
      EnteredHolds(members, front);
      assert docs == front + [last];
    }
  }

  lemma {:induction false} EnteredDistinct(members: Members, docs: seq<Doc>)
    requires DistinctDocs(docs)
    ensures DistinctDocs(Entered(members, docs))
  {
    if docs != [] {
      var front, last := docs[..|docs| - 1], docs[|docs| - 1];
      EnteredDistinct(members, front);
      EnteredHolds(members, front);
      forall d | d in Entered(members, front)
        ensures d.path != last.path
      {
        var i :| 0 <= i < |front| && front[i] == d;
        assert docs[i] == d;
      }
    }
  }

  /** An entered document brings its new version; the rest already had it. */
  lemma EnteredAt(members: Members, docs: seq<Doc>, p: Utf8)
    requires DistinctDocs(docs)
    ensures
      var now, entered := MembersOf(docs), MembersOf(Entered(members, docs));
      && (p in entered ==> p in now && now[p] == entered[p])
      && (p in now && p !in entered ==> p in members && members[p] == now[p])
  {
    EnteredIs(members, docs);
    MembersOfIs(docs);
    MembersOfIs(Entered(members, docs));
    if p in MembersOf(Entered(members, docs)) {
      var e :| e in Entered(members, docs) && e.path == p;
      assert Holds(MembersOf(docs), e);
    } else if p in MembersOf(docs) {
      var d :| d in docs && d.path == p;
      assert Holds(MembersOf(docs), d);
      assert d in Entered(members, docs) ==> Holds(MembersOf(Entered(members, docs)), d);
    }
  }

  /** Sending what entered or moved and withdrawing what departed turns the
      old members into the new ones. */
  lemma DiffSuffices(members: Members, docs: seq<Doc>)
    requires DistinctDocs(docs)
    ensures members + MembersOf(Entered(members, docs)) - Departed(members, docs) == MembersOf(docs)
  {
    forall p {
      EnteredAt(members, docs, p);
    }
  }

  /** Nothing entered and nothing departed means nothing changed. */
  lemma NoDiff(members: Members, docs: seq<Doc>)
    requires DistinctDocs(docs) && Entered(members, docs) == [] && Departed(members, docs) == {}
    ensures MembersOf(docs) == members
  {
    DiffSuffices(members, docs);
    assert MembersOf([]) == map[];
    assert members + map[] - {} == members;
  }
}
