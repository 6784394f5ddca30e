/** One commit: single writes, the change list, and two batches that differ
    from their writes one after another. */
module CommitTheorems {
  import opened Bytes
  import opened Bits
  import opened Results
  import opened Errors
  import opened Values
  import opened Fields
  import opened Transforms
  import opened Commits

  /** Equal but for the create time. */
  predicate Alike(a: Option<StoredRow>, b: Option<StoredRow>) {
    (a.None? && b.None?)
    || (a.Some? && b.Some? && a.value.updateTime == b.value.updateTime && a.value.fields == b.value.fields)
  }

  ghost predicate AlikeTables(a: Table, b: Table) {
    forall p :: Alike(Find(a, p), Find(b, p))
  }

  /** Each write committed on its own, at the same time. */
  function OneByOne(ops: FloatOps, table: Table, writes: seq<Write>, now: i64): Result<Applied, EngineError>
    decreases |writes|
  {
    if writes == [] then Ok(Applied(table, [], []))
    else
      match Commit(ops, table, writes[..1], now)
      case Err(e) => Err(e)
      case Ok(first) =>
        Following(first, OneByOne(ops, first.table, writes[1..], now))
  }

  function Following(first: Applied, rest: Result<Applied, EngineError>): Result<Applied, EngineError> {
    if rest.Err? then rest
    else Ok(Applied(rest.value.table, first.outcomes + rest.value.outcomes, first.changes + rest.value.changes))
  }

  function Fresh(table: Table, p: Utf8): DocState {
    DocState(Find(table, p), Find(table, p), false)
  }

  lemma SingleTarget(w: Write)
    requires HasTarget(w)
    ensures AllTargets([w]) && Targets([w]) == {TargetOf(w)}
  {
    assert [w][1..] == [] && Targets([]) == {};
    assert AllTargets([w]);
    TargetsRest([w]);
  }

  lemma ApplyFirst(ops: FloatOps, batch: Batch, w: Write, rest: seq<Write>, now: i64)
    requires HasTarget(w) && AllTargets(rest) && TargetOf(w) in batch.states && Targets(rest) <= batch.states.Keys
    ensures AllTargets([w] + rest) && Targets([w] + rest) == {TargetOf(w)} + Targets(rest)
    ensures
      var p := TargetOf(w);
      ApplyAll(ops, batch, [w] + rest, now)
      == var applied := ApplyWrite(ops, w, batch.states[p], now);
         if applied.Err? then Err(applied.error)
         else
           var step := applied.value;
           ApplyAll(ops, Batch(batch.states[p := step.state], batch.outcomes + [step.outcome]), rest, now)
  {
    var all := [w] + rest;
    assert all[0] == w && all[1..] == rest;
    assert AllTargets(all);
    TargetsRest(all);
  }

  lemma SingleCommit(ops: FloatOps, table: Table, w: Write, now: i64)
    requires HasTarget(w)
    ensures
      var p, r := TargetOf(w), Commit(ops, table, [w], now);
      match ApplyWrite(ops, w, Fresh(table, p), now)
      case Err(e) => r == Err(e)
      case Ok(step) =>
        && r.Ok? && r.value.outcomes == [step.outcome]
        && forall q :: Find(r.value.table, q)
             == if q == p && step.state.dirty then Find(Put(table, p, step.state.current, now), p) else Find(table, q)
  {
    var p := TargetOf(w);
    SingleTarget(w);
    var start := Batch(Loaded(table, [w]), []);
    ApplyFirst(ops, start, w, [], now);
    assert [w] + [] == [w];
    var applied := ApplyWrite(ops, w, Fresh(table, p), now);
    if applied.Ok? {
      var after := start.states[p := applied.value.state];
      assert start.states[p] == Fresh(table, p) && start.outcomes + [applied.value.outcome] == [applied.value.outcome];
      assert ApplyAll(ops, start, [w], now) == Ok(Batch(after, [applied.value.outcome]));
      forall q {
        PersistFinds(Persisted(table, []), after, [w], now, q);
      }
    }
  }

  lemma OneByOneFirst(ops: FloatOps, t: Table, w: Write, rest: seq<Write>, now: i64)
    ensures
      var first, all := Commit(ops, t, [w], now), OneByOne(ops, t, [w] + rest, now);
      all == if first.Err? then first else Following(first.value, OneByOne(ops, first.value.table, rest, now))
  {
    var all := [w] + rest;
    assert all[..1] == [w] && all[1..] == rest;
  }

  lemma {:induction false} OneByOneTargets(ops: FloatOps, table: Table, writes: seq<Write>, now: i64)
    requires !AllTargets(writes)
    ensures OneByOne(ops, table, writes, now).Err?
    decreases |writes|
  {
    assert writes[0] in writes[..1];
    var first := Commit(ops, table, writes[..1], now);
    if first.Ok? {
      forall w | w in writes
        ensures w == writes[0] || w in writes[1..]
      {}
      OneByOneTargets(ops, first.value.table, writes[1..], now);
    }
  }

  // ---- changes ----

  predicate Changes(w: Write) {
    w.operation.Update? || w.operation.Delete? || w.operation.TransformOnly?
  }

  lemma {:induction false} DirtyIffChanged(ops: FloatOps, batch: Batch, writes: seq<Write>, now: i64, p: Utf8)
    requires AllTargets(writes) && Targets(writes) <= batch.states.Keys
    requires p in batch.states && ApplyAll(ops, batch, writes, now).Ok?
    ensures
      var after := ApplyAll(ops, batch, writes, now).value.states;
      && after[p].before == batch.states[p].before
      && (after[p].dirty <==> batch.states[p].dirty || exists w :: w in writes && Changes(w) && TargetOf(w) == p)
    decreases |writes|
  {
    if writes != [] {
      TargetsRest(writes);
      var w := writes[0];
      assert w in writes;
      assert forall x :: x in writes <==> x == w || x in writes[1..];
      var step := ApplyWrite(ops, w, batch.states[TargetOf(w)], now).value;
      var next := Batch(batch.states[TargetOf(w) := step.state], batch.outcomes + [step.outcome]);
      DirtyIffChanged(ops, next, writes[1..], now, p);
    }
  }

  predicate Reported(changes: seq<Delta>, p: Utf8) {
    exists d :: d in changes && d.path == p
  }

  predicate Changed(writes: seq<Write>, p: Utf8) {
    exists w :: w in writes && Changes(w) && TargetOf(w) == p
  }

  /** `changes` holds every document an update, delete or transform names,
      once, from the state it was loaded in to the state it is left in; no
      other document moves. */
  lemma ChangesExact(ops: FloatOps, table: Table, writes: seq<Write>, now: i64)
    requires Commit(ops, table, writes, now).Ok?
    ensures
      var r := Commit(ops, table, writes, now).value;
      && (forall i, j :: 0 <= i < j < |r.changes| ==> r.changes[i].path != r.changes[j].path)
      && (forall d :: d in r.changes ==> d.before == Find(table, d.path) && d.after == Find(r.table, d.path))
      && (forall p :: Reported(r.changes, p) <==> Changed(writes, p))
      && (forall p :: !Changed(writes, p) ==> Find(r.table, p) == Find(table, p))
  {
    var start := Batch(Loaded(table, writes), []);
    var states := ApplyAll(ops, start, writes, now).value.states;
    var r := Commit(ops, table, writes, now).value;
    PersistReports(Persisted(table, []), states, writes, now);
    assert r.changes[0..] == r.changes;
    forall p
      ensures Pending(states, writes, p) <==> Changed(writes, p)
      ensures Pending(states, writes, p) ==> states[p].before == Find(table, p)
      ensures !Pending(states, writes, p) ==> Find(r.table, p) == Find(table, p)
    {
      PersistFinds(Persisted(table, []), states, writes, now, p);
      PendingChanged(ops, table, writes, now, p);
    }
  }

  lemma PendingChanged(ops: FloatOps, table: Table, writes: seq<Write>, now: i64, p: Utf8)
    requires AllTargets(writes) && ApplyAll(ops, Batch(Loaded(table, writes), []), writes, now).Ok?
    ensures
      var states := ApplyAll(ops, Batch(Loaded(table, writes), []), writes, now).value.states;
      && (Pending(states, writes, p) <==> Changed(writes, p))
      && (Pending(states, writes, p) ==> states[p].before == Find(table, p))
  {
    if p in Targets(writes) {
      DirtyIffChanged(ops, Batch(Loaded(table, writes), []), writes, now, p);
    }
  }

  // ---- where a batch shows ----

  /** A Verify bumps the version later preconditions of the batch see, though
      it stores nothing: after one, a write checking the stored version fails,
      which on its own it would pass. */
  lemma VerifyBumpsVersion(ops: FloatOps, table: Table, p: Utf8, seconds: int, nanos: Nanos, now: i64)
    requires p in table && table[p].updateTime == seconds * 1_000_000 + nanos / 1000 != now
    ensures
      var verify := Write(Verify, Some(p), None, [], None);
      var remove := Write(Delete, Some(p), None, [], Some(UpdateTime(seconds, nanos)));
      && Commit(ops, table, [verify, remove], now) == Err(FailedPrecondition)
      && OneByOne(ops, table, [verify, remove], now).Ok?
  {
    var verify := Write(Verify, Some(p), None, [], None);
    var remove := Write(Delete, Some(p), None, [], Some(UpdateTime(seconds, nanos)));
    var writes := [verify, remove];
    VerifiedBatch(ops, table, p, verify, remove, seconds, nanos, now);
    SingleCommit(ops, table, verify, now);
    assert writes[..1] == [verify] && writes[1..] == [remove] && writes[1..][1..] == [];
    var t := Commit(ops, table, [verify], now).value.table;
    assert Find(t, p) == Find(table, p);
    SingleCommit(ops, t, remove, now);
    assert writes[1..][..1] == [remove];
    OneByOneFirst(ops, t, remove, [], now);
    assert [remove] + [] == [remove];
  }

  lemma VerifiedBatch(ops: FloatOps, table: Table, p: Utf8, verify: Write, remove: Write, seconds: int, nanos: Nanos, now: i64)
    requires p in table && table[p].updateTime == seconds * 1_000_000 + nanos / 1000 != now
    requires verify == Write(Verify, Some(p), None, [], None)
    requires remove == Write(Delete, Some(p), None, [], Some(UpdateTime(seconds, nanos)))
    ensures Commit(ops, table, [verify, remove], now) == Err(FailedPrecondition)
  {
    var start := Batch(Loaded(table, [verify, remove]), []);
    TwoTargets(verify, remove);
    var bumped := DocState(Bumped(Find(table, p), now), Find(table, p), false);
    ApplyFirst(ops, start, verify, [remove], now);
    var next := Batch(start.states[p := bumped], [WriteOutcome(now, [])]);
    assert ApplyWrite(ops, verify, start.states[p], now) == Ok(Stepped(bumped, WriteOutcome(now, [])));
    ApplyFirst(ops, next, remove, [], now);
    assert [remove] + [] == [remove];
    assert ApplyWrite(ops, remove, bumped, now) == Err(FailedPrecondition);
  }

  lemma TwoTargets(a: Write, b: Write)
    requires HasTarget(a) && HasTarget(b)
    ensures [a, b] == [a] + [b] && AllTargets([a, b]) && Targets([a, b]) == {TargetOf(a), TargetOf(b)}
  {
    SingleTarget(b);
    assert [a, b][1..] == [b];
    assert AllTargets([a, b]);
    TargetsRest([a, b]);
  }

  /** Deleting and setting a document in one batch keeps its create time;
      one after the other they would start it again. */
  lemma RecreatedKeepsCreation(ops: FloatOps, table: Table, p: Utf8, fields: FieldMap, now: i64)
    requires p in table
    ensures
      var remove := Write(Delete, Some(p), None, [], None);
      var create := Write(Update(fields), Some(p), None, [], None);
      var r := Commit(ops, table, [remove, create], now);
      var s := OneByOne(ops, table, [remove, create], now);
      && r.Ok? && Find(r.value.table, p) == Some(StoredRow(table[p].createTime, now, fields))
      && s.Ok? && Find(s.value.table, p) == Some(StoredRow(now, now, fields))
  {
    OneByOneRestarts(ops, table, p, fields, now);
    var remove := Write(Delete, Some(p), None, [], None);
    var create := Write(Update(fields), Some(p), None, [], None);
    var start := Batch(Loaded(table, [remove, create]), []);
    TwoTargets(remove, create);
    var gone := DocState(None, Find(table, p), true);
    var back := DocState(Some(StoredRow(now, now, fields)), Find(table, p), true);
    var one := Batch(start.states[p := gone], [WriteOutcome(now, [])]);
    ApplyFirst(ops, start, remove, [create], now);
    assert ApplyWrite(ops, remove, start.states[p], now) == Ok(Stepped(gone, WriteOutcome(now, [])));
    ApplyFirst(ops, one, create, [], now);
    assert [create] + [] == [create];
    assert ApplyWrite(ops, create, gone, now) == Ok(Stepped(back, WriteOutcome(now, [])));
    var states := one.states[p := back];
    PersistFinds(Persisted(table, []), states, [remove, create], now, p);
  }

  lemma OneByOneRestarts(ops: FloatOps, table: Table, p: Utf8, fields: FieldMap, now: i64)
    ensures
      var remove := Write(Delete, Some(p), None, [], None);
      var create := Write(Update(fields), Some(p), None, [], None);
      var s := OneByOne(ops, table, [remove, create], now);
      s.Ok? && Find(s.value.table, p) == Some(StoredRow(now, now, fields))
  {
    var remove := Write(Delete, Some(p), None, [], None);
    var create := Write(Update(fields), Some(p), None, [], None);
    SingleCommit(ops, table, remove, now);
    var t := Commit(ops, table, [remove], now).value.table;
    assert Find(t, p) == None;
    SingleCommit(ops, t, create, now);
    assert [remove, create] == [remove] + [create] && [create] + [] == [create];
    OneByOneFirst(ops, table, remove, [create], now);
    OneByOneFirst(ops, t, create, [], now);
  }
}
