/** One Listen stream: targets, their members, and the messages sent. */
module Listening {
  import opened Bytes
  import opened Bits
  import opened Results
  import opened Errors
  import opened Values
  import opened Queries
  import opened Watching

  /** One document's transition; `after` is absent when it was deleted. */
  datatype Change = Change(path: Utf8, after: Option<Doc>)

  datatype Event = Event(database: Utf8, changes: seq<Change>, commitUs: int)

  /** What the session reads while it works on a target: documents, query
      results, rule verdicts and the clock, each as of the moment asked. */
  datatype Reads = Reads(
    get: (TargetId, Utf8) -> Result<Option<Doc>, EngineError>,
    query: TargetId -> Result<seq<Doc>, EngineError>,
    mayGet: (TargetId, Utf8) -> bool,
    mayList: TargetId -> bool,
    now: TargetId -> int)

  /** Reads come back under the path they were asked for; query results list
      no document twice. */
  ghost predicate Honest(world: Reads) {
    && (forall id, p :: world.get(id, p).Ok? && world.get(id, p).value.Some? ==> world.get(id, p).value.value.path == p)
    && (forall id :: world.query(id).Ok? ==> DistinctDocs(world.query(id).value))
  }

  ghost predicate HonestEvent(event: Event) {
    forall c :: c in event.changes && c.after.Some? ==> c.after.value.path == c.path
  }

  /** A target to add; the kind is absent where the request has none, or one
      that does not parse. */
  datatype TargetRequest = TargetRequest(id: TargetId, kind: Option<TargetKind>, resume: bool)

  datatype Request = AddTarget(target: TargetRequest) | RemoveTarget(id: TargetId) | Nothing

  // ---- which events concern a query ----

  /** Events are matched to query targets by their paths alone. */
  predicate QueryMayCover(parent: seq<Utf8>, query: Query, path: Utf8) {
    && query.from != []
    && var selector, segments := query.from[0], Split(path, SLASH);
       var collection := segments[..|segments| - 1];
       if selector.allDescendants then
         collection != [] && collection[|collection| - 1] == selector.collectionId
       else selector.collectionId != [] && collection == parent + [selector.collectionId]
  }

  predicate Covered(kind: TargetKind, event: Event)
    requires kind.QueryTarget?
  {
    exists c :: c in event.changes && QueryMayCover(kind.parent, kind.query, c.path)
  }

  // ---- members after an event ----

  function Moved(members: Members, c: Change): Members {
    if c.after.Some? then members[c.path := c.after.value.version] else members - {c.path}
  }

  function AllMoved(members: Members, paths: seq<Utf8>, changes: seq<Change>): Members {
    if changes == [] then members
    else
      var front, c := AllMoved(members, paths, changes[..|changes| - 1]), changes[|changes| - 1];
      if c.path in paths then Moved(front, c) else front
  }

  /** A target's members once an event is handled. */
  function After(t: Target, id: TargetId, event: Event, world: Reads): Members {
    match t.kind
    case Documents(paths) => AllMoved(t.members, paths, event.changes)
    case QueryTarget(_, _) =>
      if Covered(t.kind, event) && world.query(id).Ok? then MembersOf(world.query(id).value) else t.members
  }

  /** The targets still waiting are as they were; the others have the members
      the event leaves them. */
  ghost predicate AllHandled(was: map<TargetId, Target>, targets: map<TargetId, Target>, waiting: set<TargetId>,
                             event: Event, world: Reads)
  {
    && targets.Keys == was.Keys
    && forall id :: id in targets ==>
         targets[id] == if id in waiting then was[id] else was[id].(members := After(was[id], id, event, world))
  }

  lemma HandledOne(was: map<TargetId, Target>, before: map<TargetId, Target>, targets: map<TargetId, Target>,
                   waiting: set<TargetId>, id: TargetId, event: Event, world: Reads)
    requires AllHandled(was, before, waiting, event, world) && id in waiting && id in before
    requires targets == With(before, id, After(before[id], id, event, world))
    ensures AllHandled(was, targets, waiting - {id}, event, world)
  {}

  /** The targets read again hold what was read, or were denied. */
  ghost predicate AllResynced(was: map<TargetId, Target>, targets: map<TargetId, Target>, waiting: set<TargetId>, world: Reads) {
    && targets.Keys <= was.Keys
    && forall id :: id in targets ==>
         targets[id].kind == was[id].kind && (id !in waiting ==> Initial(targets[id], id, world))
  }

  lemma ResyncedOne(was: map<TargetId, Target>, before: map<TargetId, Target>, targets: map<TargetId, Target>,
                    waiting: set<TargetId>, id: TargetId, world: Reads)
    requires AllResynced(was, before, waiting, world) && id in before
    requires Began(before, targets, id, before[id].kind, world)
    ensures AllResynced(was, targets, waiting - {id}, world)
    ensures waiting <= before.Keys ==> waiting - {id} <= targets.Keys
  {}

  function With(targets: map<TargetId, Target>, id: TargetId, members: Members): map<TargetId, Target>
    requires id in targets
  {
    targets[id := targets[id].(members := members)]
  }

  /** Members as first read: what the world answers for the target. */
  ghost predicate Initial(t: Target, id: TargetId, world: Reads) {
    match t.kind
    case Documents(paths) =>
      && (forall p :: p in t.members ==> p in paths)
      && (forall p :: p in paths ==>
            && world.get(id, p).Ok?
            && (world.get(id, p).value.None? ==> p !in t.members)
            && (world.get(id, p).value.Some? ==> Holds(t.members, world.get(id, p).value.value)))
    case QueryTarget(_, _) => world.query(id).Ok? && t.members == MembersOf(world.query(id).value)
  }

  /** A target was denied, and is gone, or started from what was read. */
  ghost predicate Began(before: map<TargetId, Target>, targets: map<TargetId, Target>, id: TargetId, kind: TargetKind, world: Reads) {
    || targets == before - {id}
    || (id in targets && targets == before[id := targets[id]] && targets[id].kind == kind && Initial(targets[id], id, world))
  }

  lemma BeganFrom(before: map<TargetId, Target>, t: Target, targets: map<TargetId, Target>, id: TargetId, kind: TargetKind,
                  world: Reads)
    requires Began(before[id := t], targets, id, kind, world)
    ensures Began(before, targets, id, kind, world)
  {
    assert before[id := t] - {id} == before - {id};
    if id in targets {
      assert before[id := t][id := targets[id]] == before[id := targets[id]];
    }
  }

  // ---- agreement ----

  ghost predicate Agreed(targets: map<TargetId, Target>, views: Views, except: set<TargetId>) {
    forall id :: id in targets && id !in except ==> id in views && views[id] == targets[id].members
  }

  /** At each marker, the folded messages were every target's members. */
  ghost predicate MarkersTrue(log: seq<Message>, atMarkers: map<nat, Views>) {
    forall k: nat :: k < |log| && IsMarker(log[k]) ==>
      k in atMarkers && ViewsHold(Fold(log[..k + 1]), atMarkers[k])
  }

  ghost predicate ViewsHold(views: Views, members: Views) {
    forall id :: id in members ==> id in views && views[id] == members[id]
  }

  /** Setting one target's members to its view settles that target. */
  lemma AgreedWith(targets: map<TargetId, Target>, views: Views, id: TargetId, members: Members)
    requires Agreed(targets, views, {id}) && id in targets && id in views && views[id] == members
    ensures Agreed(With(targets, id, members), views, {})
  {}

  /** A view changed for one target leaves the rest agreed. */
  lemma AgreedBut(targets: map<TargetId, Target>, views: Views, id: TargetId, members: Members, except: set<TargetId>)
    requires Agreed(targets, views, except) && except <= {id}
    ensures Agreed(targets, views[id := members], {id})
  {}

  lemma AgreedNew(targets: map<TargetId, Target>, views: Views, id: TargetId, t: Target)
    requires Agreed(targets, views, {id})
    ensures Agreed(targets[id := t], views[id := map[]], {id})
  {}

  lemma MarkersOne(log: seq<Message>, atMarkers: map<nat, Views>, m: Message, members: Views)
    requires MarkersTrue(log, atMarkers)
    requires IsMarker(m) ==> ViewsHold(Fold(log), members)
    ensures MarkersTrue(log + [m], if IsMarker(m) then atMarkers[|log| := members] else atMarkers)
  {
    var next := if IsMarker(m) then atMarkers[|log| := members] else atMarkers;
    FoldOne(log, m);
    forall k: nat | k < |log + [m]| && IsMarker((log + [m])[k])
      ensures k in next && ViewsHold(Fold((log + [m])[..k + 1]), next[k])
    {
      if k < |log| {
        assert (log + [m])[..k + 1] == log[..k + 1];
      } else {
        assert (log + [m])[..k + 1] == log + [m];
      }
    }
  }

  lemma SeenOne(views: Views, change: ChangeKind, id: TargetId, at: Option<int>)
    ensures Seen(views, TargetChange(change, [id], at)) == SeenTarget(views, change, id)
  {}

  lemma SentNone(views: Views, id: TargetId)
    requires id in views
    ensures views == views[id := views[id] + MembersOf([])]
  {
    assert views[id] + map[] == views[id];
  }

  lemma SentOne(views: Views, id: TargetId, members: Members, doc: Doc)
    requires id in views
    ensures Seen(views[id := views[id] + members], DocumentChange(doc, id))
         == views[id := views[id] + members[doc.path := doc.version]]
  {
    assert (views[id] + members)[doc.path := doc.version] == views[id] + members[doc.path := doc.version];
  }

  class ListenSession {
    var database: Option<Utf8>
    var targets: map<TargetId, Target>
    var nextServerTargetId: int
    var lastReadUs: int
    var out: seq<Message>
    /** The members of every target when each marker went out. */
    ghost var atMarkers: map<nat, Views>

    ghost predicate Ordered()
      reads this
    {
      Paced(out, lastReadUs) && MarkersTrue(out, atMarkers)
    }

    /** What the client holds is what the session thinks it holds. */
    ghost predicate Valid()
      reads this
    {
      Ordered() && Agreed(targets, Fold(out), {})
    }

    constructor ()
      ensures Valid() && Settled(out) && targets == map[] && database == None && out == []
    {
      database, targets, nextServerTargetId, lastReadUs, out := None, map[], 1_000_000, 0, [];
      atMarkers := map[];
    }

    method NextReadTime(us: int) returns (t: int)
      requires Ordered()
      modifies `lastReadUs
      ensures Ordered() && old(lastReadUs) < t == lastReadUs && us <= t
    {
      lastReadUs := if us > lastReadUs + 1 then us else lastReadUs + 1;
      return lastReadUs;
    }

    method Send(m: Message)
      requires Ordered() && !IsMarker(m) && (ReadTime(m).Some? ==> ReadTime(m).value <= lastReadUs)
      modifies `out
      ensures Ordered() && out == old(out) + [m] && Fold(out) == Seen(Fold(old(out)), m)
      ensures !IsDocument(m) && Settled(old(out)) ==> Settled(out)
    {
      FoldOne(out, m);
      PacedOne(out, lastReadUs, m, lastReadUs);
      MarkersOne(out, atMarkers, m, map[]);
      SettledOne(out, m);
      out := out + [m];
    }

    method SendTargetChange(change: ChangeKind, id: TargetId, at: Option<int>)
      requires Ordered() && (at.Some? ==> at.value <= lastReadUs)
      modifies `out
      ensures Ordered() && Fold(out) == SeenTarget(Fold(old(out)), change, id)
      ensures old(out) <= out && (Settled(old(out)) ==> Settled(out))
    {
      var m := TargetChange(change, [id], at);
      SeenOne(Fold(out), change, id, at);
      Send(m);
    }

    /** Only here does a client get a snapshot, and here it agrees. */
    method SendSnapshotMarker(us: int)
      requires Valid()
      modifies `lastReadUs, `out, `atMarkers
      ensures Valid() && Settled(out) && old(out) <= out && |old(out)| < |out|
      ensures IsMarker(out[|out| - 1]) && out[|out| - 1].at.value > old(lastReadUs)
    {
      ghost var before := lastReadUs;
      assert Paced(out, before);
      ghost var members: Views := map id | id in targets :: targets[id].members;
      var t := NextReadTime(us);
      var m := TargetChange(NoChange, [], Some(t));
      FoldOne(out, m);
      PacedOne(out, before, m, t);
      MarkersOne(out, atMarkers, m, members);
      SettledOne(out, m);
      atMarkers := atMarkers[|out| := members];
      out := out + [m];
    }

    /** Document changes for one target, in order. */
    method SendDocuments(id: TargetId, docs: seq<Doc>)
      requires Ordered() && id in Fold(out)
      modifies `out
      ensures Ordered() && old(out) <= out
      ensures Fold(out) == Fold(old(out))[id := Fold(old(out))[id] + MembersOf(docs)]
      ensures docs == [] ==> out == old(out)
    {
      ghost var views := Fold(out);
      SentNone(views, id);
      var i := 0;
      while i < |docs|
        invariant 0 <= i <= |docs| && Ordered() && old(out) <= out
        invariant Fold(out) == views[id := views[id] + MembersOf(docs[..i])]
        invariant i == 0 ==> out == old(out)
      {
        assert docs[..i + 1] == docs[..i] + [docs[i]];
        MembersOfOne(docs[..i], docs[i]);
        SentOne(views, id, MembersOf(docs[..i]), docs[i]);
        Send(DocumentChange(docs[i], id));
        i := i + 1;
      }
      assert docs[..i] == docs;
    }

    // ---- initial state ----

    /** Documents the target names but that do not exist. */
    method SendMissing(id: TargetId, paths: seq<Utf8>, time: int)
      requires Ordered() && id in Fold(out) && time <= lastReadUs
      requires forall p :: p in paths ==> p !in Fold(out)[id]
      modifies `out
      ensures Ordered() && old(out) <= out && Fold(out) == Fold(old(out))
    {
      ghost var views := Fold(out);
      var i := 0;
      while i < |paths|
        invariant 0 <= i <= |paths| && Ordered() && old(out) <= out && Fold(out) == views
      {
        assert paths[i] in paths;
        SeenMissing(views, id, paths[i], time);
        Send(DocumentDelete(paths[i], id, time));
        i := i + 1;
      }
    }

    /** Documents that left a query's results. */
    method SendDeparted(id: TargetId, paths: set<Utf8>, time: int)
      requires Ordered() && id in Fold(out) && time <= lastReadUs
      modifies `out
      ensures Ordered() && old(out) <= out
      ensures Fold(out) == Fold(old(out))[id := Fold(old(out))[id] - paths]
    {
      ghost var views := Fold(out);
      ghost var gone: set<Utf8> := {};
      assert views[id] - gone == views[id];
      var waiting := paths;
      while waiting != {}
        invariant waiting + gone == paths && Ordered() && old(out) <= out
        invariant Fold(out) == views[id := views[id] - gone]
        decreases |waiting|
      {
        var p :| p in waiting;
        SeenDeparted(views, id, gone, p, time);
        Send(DocumentRemove(p, id, time));
        waiting, gone := waiting - {p}, gone + {p};
      }
      assert gone == paths;
    }

    /** Denied by the rules: the target ends, the stream stays up. */
    method DenyTarget(id: TargetId)
      requires Ordered() && Agreed(targets, Fold(out), {id})
      modifies `targets, `out
      ensures Valid() && targets == old(targets) - {id}
      ensures old(out) <= out && (Settled(old(out)) ==> Settled(out))
    {
      targets := targets - {id};
      SendTargetChange(Remove, id, None);
    }

    ghost predicate Collected(id: TargetId, paths: seq<Utf8>, world: Reads, found: seq<Doc>, missing: seq<Utf8>) {
      && (forall p :: p in missing ==> p in paths && p !in MembersOf(found) && world.get(id, p) == Ok(None))
      && (forall p :: p in paths && p !in missing ==>
            world.get(id, p).Ok? && world.get(id, p).value.Some? && Holds(MembersOf(found), world.get(id, p).value.value))
      && (forall p :: p in MembersOf(found) ==> p in paths)
    }

    /** The documents a target names, found or missing; `None` when one may
        not be read, an error when one cannot be. */
    method Collect(id: TargetId, paths: seq<Utf8>, world: Reads)
      returns (r: Result<Option<(seq<Doc>, seq<Utf8>)>, EngineError>)
      requires Honest(world)
      ensures r.Ok? && r.value.Some? ==> Collected(id, paths, world, r.value.value.0, r.value.value.1)
    {
      var found: seq<Doc>, missing: seq<Utf8> := [], [];
      var i := 0;
      while i < |paths|
        invariant 0 <= i <= |paths|
        invariant forall p :: p in missing ==> p in paths && p !in MembersOf(found) && world.get(id, p) == Ok(None)
        invariant forall p :: p in paths[..i] && p !in missing ==>
          world.get(id, p).Ok? && world.get(id, p).value.Some? && Holds(MembersOf(found), world.get(id, p).value.value)
        invariant forall p :: p in MembersOf(found) ==>
          p in paths && world.get(id, p).Ok? && world.get(id, p).value.Some?
          && Holds(MembersOf(found), world.get(id, p).value.value)
      {
        assert paths[..i + 1] == paths[..i] + [paths[i]];
        var doc := world.get(id, paths[i]);
        if doc.Err? {
          return Err(doc.error);
        }
        if !world.mayGet(id, paths[i]) {
          return Ok(None);
        }
        if doc.value.Some? {
          MembersOfOne(found, doc.value.value);
          found := found + [doc.value.value];
        } else {
          missing := missing + [paths[i]];
        }
        i := i + 1;
      }
      assert paths[..i] == paths;
      return Ok(Some((found, missing)));
    }

    /** What a query target starts from: `None` when it may not be listed. */
    method RunTarget(id: TargetId, parent: seq<Utf8>, query: Query, world: Reads)
      returns (r: Result<Option<(seq<Doc>, seq<Utf8>)>, EngineError>)
      ensures r.Ok? && r.value.Some? ==> world.query(id) == Ok(r.value.value.0) && r.value.value.1 == []
    {
      // Watching a query is listing its collection.
      if query.from != [] && query.from[0].collectionId != [] && !world.mayList(id) {
        return Ok(None);
      }
      var docs := world.query(id);
      if docs.Err? {
        return Err(InvalidArgument);
      }
      return Ok(Some((docs.value, [])));
    }

    /** Document changes and deletes, CURRENT, and a marker; or, denied, the
        end of the target. An error ends the stream. */
    method SendInitialState(id: TargetId, world: Reads) returns (ok: bool)
      requires Honest(world) && Ordered() && Settled(out) && Agreed(targets, Fold(out), {id})
      requires id in targets && id in Fold(out) && Fold(out)[id] == map[]
      modifies `targets, `out, `lastReadUs, `atMarkers
      ensures Ordered() && old(out) <= out
      ensures ok ==> Valid() && Settled(out)
      ensures ok ==> Began(old(targets), targets, id, old(targets)[id].kind, world)
    {
      var kind := targets[id].kind;
      var r: Result<Option<(seq<Doc>, seq<Utf8>)>, EngineError>;
      match kind {
        case Documents(paths) => r := Collect(id, paths, world);
        case QueryTarget(parent, query) => r := RunTarget(id, parent, query, world);
      }
      if r.Err? {
        return false;
      }
      if r.value.None? {
        DenyTarget(id);
        return true;
      }
      SendState(id, r.value.value.0, r.value.value.1, world.now(id));
      return true;
    }

    method SendState(id: TargetId, found: seq<Doc>, missing: seq<Utf8>, now: int)
      requires Ordered() && Agreed(targets, Fold(out), {id})
      requires id in targets && id in Fold(out) && Fold(out)[id] == map[]
      requires forall p :: p in missing ==> p !in MembersOf(found)
      modifies `targets, `out, `lastReadUs, `atMarkers
      ensures Valid() && Settled(out) && old(out) <= out
      ensures targets == With(old(targets), id, MembersOf(found))
    {
      ghost var views := Fold(out);
      SendDocuments(id, found);
      assert map[] + MembersOf(found) == MembersOf(found);
      AgreedBut(targets, views, id, MembersOf(found), {id});
      assert Fold(out) == views[id := MembersOf(found)];
      var time := NextReadTime(now);
      SendMissing(id, missing, time);
      Settle(id, MembersOf(found), time, now);
    }

    /** The target is current: its members are what the client now holds. */
    method Settle(id: TargetId, members: Members, time: int, now: int)
      requires Ordered() && Agreed(targets, Fold(out), {id}) && time <= lastReadUs
      requires id in targets && id in Fold(out) && Fold(out)[id] == members
      modifies `targets, `out, `lastReadUs, `atMarkers
      ensures Valid() && Settled(out) && old(out) <= out && targets == With(old(targets), id, members)
    {
      AgreedWith(targets, Fold(out), id, members);
      targets := With(targets, id, members);
      SendTargetChange(Current, id, Some(time));
      SendSnapshotMarker(now);
    }

    // ---- requests ----

    /** Echoes the client's id, or makes one up. A resumed target is reset:
        no deltas are replayed. */
    method AddTarget(request: TargetRequest, world: Reads) returns (ok: bool)
      requires Honest(world) && Valid() && Settled(out)
      modifies `targets, `out, `lastReadUs, `atMarkers, `nextServerTargetId
      ensures Ordered() && old(out) <= out
      ensures ok ==> Valid() && Settled(out)
      ensures ok ==>
        var id := if request.id != 0 then request.id else nextServerTargetId;
        id !in old(targets) && request.kind.Some? && Began(old(targets), targets, id, request.kind.value, world)
    {
      var id := request.id;
      if id == 0 {
        nextServerTargetId := nextServerTargetId + 1;
        id := nextServerTargetId;
      }
      if id in targets || request.kind.None? {
        return false;
      }
      if request.resume {
        SendTargetChange(Reset, id, None);
      }
      ok := StartTarget(id, request.kind.value, world);
    }

    method StartTarget(id: TargetId, kind: TargetKind, world: Reads) returns (ok: bool)
      requires Honest(world) && Ordered() && Settled(out) && Agreed(targets, Fold(out), {id})
      modifies `targets, `out, `lastReadUs, `atMarkers
      ensures Ordered() && old(out) <= out
      ensures ok ==> Valid() && Settled(out)
      ensures ok ==> Began(old(targets), targets, id, kind, world)
    {
      ghost var views, before := Fold(out), targets;
      SendTargetChange(ChangeKind.Add, id, None);
      AgreedNew(targets, views, id, Target(kind, map[]));
      targets := targets[id := Target(kind, map[])];
      ok := SendInitialState(id, world);
      if ok {
        BeganFrom(before, Target(kind, map[]), targets, id, kind, world);
      }
    }

    method HandleRequest(name: Option<Utf8>, request: Request, world: Reads) returns (ok: bool)
      requires Honest(world) && Valid() && Settled(out)
      modifies this
      ensures Ordered() && old(out) <= out
      ensures ok ==> Valid() && Settled(out) && name.Some? && database == name
      ensures ok && old(database).Some? ==> database == old(database)
      ensures ok && request.RemoveTarget? ==> targets == old(targets) - {request.id} && out == old(out)
    {
      if name.None? || (database.Some? && database != name) {
        return false;
      }
      database := name;
      match request
      case AddTarget(target) => ok := AddTarget(target, world);
      case RemoveTarget(id) =>
        targets := targets - {id};
        return true;
      case Nothing => return true;
    }

    // ---- events ----

    /** Each watched change is applied and sent. */
    method ApplyChanges(id: TargetId, paths: seq<Utf8>, event: Event) returns (any: bool)
      requires Valid() && HonestEvent(event) && id in targets
      modifies `targets, `out, `lastReadUs
      ensures Valid() && old(out) <= out
      ensures targets == With(old(targets), id, AllMoved(old(targets)[id].members, paths, event.changes))
      ensures !any ==> out == old(out)
    {
      any := false;
      var changes := event.changes;
      ghost var members := targets[id].members;
      var i := 0;
      while i < |changes|
        invariant 0 <= i <= |changes| && Valid() && old(out) <= out
        invariant targets == With(old(targets), id, AllMoved(members, paths, changes[..i]))
        invariant !any ==> out == old(out)
      {
        assert changes[..i + 1][..i] == changes[..i];
        if changes[i].path in paths {
          any := true;
          ApplyChange(id, changes[i], event.commitUs);
        }
        i := i + 1;
      }
      assert changes[..i] == changes;
    }

    method ApplyChange(id: TargetId, c: Change, commitUs: int)
      requires Valid() && id in targets && (c.after.Some? ==> c.after.value.path == c.path)
      modifies `targets, `out, `lastReadUs
      ensures Valid() && old(out) <= out
      ensures targets == With(old(targets), id, Moved(old(targets)[id].members, c))
    {
      var members := targets[id].members;
      match c.after
      case Some(doc) =>
        targets := With(targets, id, members[c.path := doc.version]);
        Send(DocumentChange(doc, id));
      case None =>
        targets := With(targets, id, members - {c.path});
        var time := NextReadTime(commitUs);
        Send(DocumentDelete(c.path, id, time));
    }

    /** The query re-run and diffed against the members. */
    method Refresh(id: TargetId, docs: seq<Doc>, commitUs: int) returns (any: bool)
      requires Valid() && id in targets && DistinctDocs(docs)
      modifies `targets, `out, `lastReadUs
      ensures Valid() && old(out) <= out
      ensures targets == With(old(targets), id, MembersOf(docs))
      ensures !any ==> out == old(out)
    {
      var members := targets[id].members;
      var entered, departed := Entered(members, docs), Departed(members, docs);
      if entered == [] && departed == {} {
        NoDiff(members, docs);
        return false;
      }
      SendDiff(id, entered, departed, MembersOf(docs), commitUs) by {
        DiffSuffices(members, docs);
      }
      return true;
    }

    method SendDiff(id: TargetId, entered: seq<Doc>, departed: set<Utf8>, members: Members, commitUs: int)
      requires Valid() && id in targets && targets[id].members + MembersOf(entered) - departed == members
      modifies `targets, `out, `lastReadUs
      ensures Valid() && old(out) <= out && targets == With(old(targets), id, members)
    {
      ghost var views := Fold(out);
      SendDocuments(id, entered);
      var time := NextReadTime(commitUs);
      SendDeparted(id, departed, time);
      assert Fold(out) == views[id := members];
      AgreedBut(targets, views, id, members, {});
      AgreedWith(targets, Fold(out), id, members);
      targets := With(targets, id, members);
    }

    method HandleTarget(id: TargetId, event: Event, world: Reads) returns (ok: bool, any: bool)
      requires Valid() && HonestEvent(event) && Honest(world) && id in targets
      modifies `targets, `out, `lastReadUs
      ensures Ordered() && old(out) <= out
      ensures ok ==>
        Valid() && targets == With(old(targets), id, After(old(targets)[id], id, event, world))
      ensures !any ==> out == old(out)
    {
      match targets[id].kind
      case Documents(paths) =>
        any := ApplyChanges(id, paths, event);
        return true, any;
      case QueryTarget(_, _) =>
        if !Covered(targets[id].kind, event) {
          return true, false;
        }
        var docs := world.query(id);
        if docs.Err? {
          return false, false;
        }
        any := Refresh(id, docs.value, event.commitUs);
        return true, any;
    }

    method HandleTargets(event: Event, world: Reads) returns (ok: bool, any: bool)
      requires Valid() && HonestEvent(event) && Honest(world)
      modifies `targets, `out, `lastReadUs
      ensures Ordered() && old(out) <= out
      ensures ok ==> Valid() && AllHandled(old(targets), targets, {}, event, world)
      ensures !any ==> out == old(out)
    {
      var waiting: set<TargetId> := targets.Keys;
      any := false;
      while waiting != {}
        invariant waiting <= targets.Keys && Valid() && old(out) <= out
        invariant AllHandled(old(targets), targets, waiting, event, world)
        invariant !any ==> out == old(out)
        decreases |waiting|
      {
        SomeTarget(waiting);
        var id :| id in waiting;
        ghost var before := targets;
        var fine, sent := HandleTarget(id, event, world);
        any := any || sent;
        if !fine {
          return false, any;
        }
        HandledOne(old(targets), before, targets, waiting, id, event, world);
        waiting := waiting - {id};
      }
      return true, any;
    }

    /** Every target moves to its members after the event; a marker follows
        whatever was sent. */
    method HandleEvent(event: Event, world: Reads) returns (ok: bool)
      requires Valid() && Settled(out) && HonestEvent(event) && Honest(world)
      modifies `targets, `out, `lastReadUs, `atMarkers
      ensures Ordered() && old(out) <= out
      ensures ok ==> Valid() && Settled(out)
      ensures ok && database == Some(event.database) ==> AllHandled(old(targets), targets, {}, event, world)
      ensures ok && database != Some(event.database) ==> targets == old(targets) && out == old(out)
    {
      if database != Some(event.database) {
        return true;
      }
      var any;
      ok, any := HandleTargets(event, world);
      if ok && any {
        SendSnapshotMarker(event.commitUs);
      }
    }

    /** After a lag every target is reset and read again. */
    method ResyncAll(world: Reads) returns (ok: bool)
      requires Valid() && Settled(out) && Honest(world)
      modifies `targets, `out, `lastReadUs, `atMarkers
      ensures Ordered() && old(out) <= out
      ensures ok ==> Valid() && Settled(out) && AllResynced(old(targets), targets, {}, world)
    {
      var waiting: set<TargetId> := targets.Keys;
      while waiting != {}
        invariant waiting <= targets.Keys && Valid() && Settled(out) && old(out) <= out
        invariant AllResynced(old(targets), targets, waiting, world)
        decreases |waiting|
      {
        SomeTarget(waiting);
        var id :| id in waiting;
        ghost var before := targets;
        var fine := ResyncTarget(id, world);
        if !fine {
          return false;
        }
        ResyncedOne(old(targets), before, targets, waiting, id, world);
        waiting := waiting - {id};
      }
      return true;
    }

    method ResyncTarget(id: TargetId, world: Reads) returns (ok: bool)
      requires Valid() && Settled(out) && Honest(world) && id in targets
      modifies `targets, `out, `lastReadUs, `atMarkers
      ensures Ordered() && old(out) <= out
      ensures ok ==> Valid() && Settled(out)
      ensures ok ==> Began(old(targets), targets, id, old(targets)[id].kind, world)
    {
      ghost var views, before, kind := Fold(out), targets, targets[id].kind;
      SendTargetChange(Reset, id, None);
      var t := Target(targets[id].kind, map[]);
      AgreedNew(targets, views, id, t);
      targets := targets[id := t];
      ok := SendInitialState(id, world);
      if ok {
        BeganFrom(before, t, targets, id, kind, world);
      }
    }
  }

  lemma SomeTarget(ids: set<TargetId>)
    requires ids != {}
    ensures exists id :: id in ids
  {
    assert (forall id :: id !in ids) ==> ids == {};
  }

  lemma SeenMissing(views: Views, id: TargetId, path: Utf8, time: int)
    requires id in views && path !in views[id]
    ensures Seen(views, DocumentDelete(path, id, time)) == views
  {
    assert views[id] - {path} == views[id];
  }

  lemma SeenDeparted(views: Views, id: TargetId, gone: set<Utf8>, path: Utf8, time: int)
    requires id in views
    ensures Seen(views[id := views[id] - gone], DocumentRemove(path, id, time)) == views[id := views[id] - (gone + {path})]
  {
    assert views[id] - gone - {path} == views[id] - (gone + {path});
  }
}
