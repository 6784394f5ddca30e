/** What a commit does to the stored documents: preconditions and writes run
    against an in-memory view, which is then persisted whole. */
module Commits {
  import opened Bytes
  import opened Bits
  import opened Results
  import opened Errors
  import opened Values
  import opened Fields
  import opened Transforms

  datatype StoredRow = StoredRow(createTime: i64, updateTime: i64, fields: FieldMap)

  type Table = map<Utf8, StoredRow>

  datatype Precondition = Exists(wanted: bool) | UpdateTime(seconds: int, nanos: Nanos) | Unset

  datatype Operation =
    | Update(fields: FieldMap)
    | Delete
    | Verify
    | TransformOnly(fieldTransforms: seq<FieldTransform>)
    | NoOperation

  /** A write; its target is absent where its name does not parse as a
      document of this database. */
  datatype Write = Write(
    operation: Operation,
    target: Option<Utf8>,
    mask: Option<seq<Utf8>>,
    transforms: seq<FieldTransform>,
    precondition: Option<Precondition>)

  datatype DocState = DocState(current: Option<StoredRow>, before: Option<StoredRow>, dirty: bool)

  datatype WriteOutcome = WriteOutcome(updateTime: i64, transformResults: seq<Value>)

  datatype Delta = Delta(path: Utf8, before: Option<StoredRow>, after: Option<StoredRow>)

  datatype Applied = Applied(table: Table, outcomes: seq<WriteOutcome>, changes: seq<Delta>)

  function Find(table: Table, path: Utf8): Option<StoredRow> {
    if path in table then Some(table[path]) else None
  }

  // ---- one write ----

  function CheckPrecondition(precondition: Option<Precondition>, current: Option<StoredRow>): Option<EngineError> {
    match precondition
    case None => None
    case Some(Unset) => None
    case Some(Exists(wanted)) =>
      if wanted && current.None? then Some(NotFound)
      else if !wanted && current.Some? then Some(AlreadyExists)
      else None
    case Some(UpdateTime(seconds, nanos)) =>
      if current.None? then Some(NotFound)
      else if current.value.updateTime == seconds * 1_000_000 + nanos / 1000 then None
      else Some(FailedPrecondition)
  }

  datatype Progress = Progress(fields: FieldMap, results: seq<Value>)

  function ApplyTransforms(ops: FloatOps, start: Progress, transforms: seq<FieldTransform>, now: i64)
    : Result<Progress, EngineError>
    decreases |transforms|
  {
    if transforms == [] then Ok(start)
    else
      var path := SplitPath(transforms[0].path);
      match Outcome(ops, GetField(start.fields, path), transforms[0].transform, now)
      case Err(e) => Err(e)
      case Ok(t) =>
        ApplyTransforms(ops, Progress(SetField(start.fields, path, t.stored), start.results + [t.result]), transforms[1..], now)
  }

  function CurrentFields(current: Option<StoredRow>): FieldMap {
    if current.Some? then current.value.fields else map[]
  }

  function CreateTime(current: Option<StoredRow>, now: i64): i64 {
    if current.Some? then current.value.createTime else now
  }

  /** The fields an update starts its transforms from. */
  function UpdatedFields(w: Write, current: Option<StoredRow>): FieldMap
    requires w.operation.Update?
  {
    if w.mask.None? then w.operation.fields else Merge(CurrentFields(current), w.operation.fields, w.mask.value)
  }

  datatype Effect = Effect(current: Option<StoredRow>, results: seq<Value>, dirty: bool)

  function Rewritten(progress: Result<Progress, EngineError>, current: Option<StoredRow>, now: i64)
    : Result<Effect, EngineError>
  {
    match progress
    case Err(e) => Err(e)
    case Ok(p) => Ok(Effect(Some(StoredRow(CreateTime(current, now), now, p.fields)), p.results, true))
  }

  /** A write's effect on the document it names, before its version is bumped. */
  function EffectOf(ops: FloatOps, w: Write, current: Option<StoredRow>, now: i64): Result<Effect, EngineError> {
    match w.operation
    case Update(_) => Rewritten(ApplyTransforms(ops, Progress(UpdatedFields(w, current), []), w.transforms, now), current, now)
    case Delete => Ok(Effect(None, [], true))
    case Verify => Ok(Effect(current, [], false))
    case TransformOnly(transforms) =>
      Rewritten(ApplyTransforms(ops, Progress(CurrentFields(current), []), transforms, now), current, now)
    case NoOperation => Err(InvalidArgument)
  }

  function Bumped(current: Option<StoredRow>, now: i64): Option<StoredRow> {
    if current.Some? then Some(current.value.(updateTime := now)) else None
  }

  datatype Stepped = Stepped(state: DocState, outcome: WriteOutcome)

  /** The version bump follows every write, a Verify's included. */
  function ApplyWrite(ops: FloatOps, w: Write, state: DocState, now: i64): Result<Stepped, EngineError> {
    var error := CheckPrecondition(w.precondition, state.current);
    if error.Some? then Err(error.value)
    else
      match EffectOf(ops, w, state.current, now)
      case Err(e) => Err(e)
      case Ok(effect) =>
        Ok(Stepped(DocState(Bumped(effect.current, now), state.before, state.dirty || effect.dirty),
                   WriteOutcome(now, effect.results)))
  }

  // ---- a batch ----

  predicate HasTarget(w: Write) {
    !w.operation.NoOperation? && w.target.Some?
  }

  function TargetOf(w: Write): Utf8 {
    if w.target.Some? then w.target.value else []
  }

  predicate AllTargets(writes: seq<Write>) {
    forall w :: w in writes ==> HasTarget(w)
  }

  function Targets(writes: seq<Write>): set<Utf8> {
    set w | w in writes && w.target.Some? :: TargetOf(w)
  }

  function Loaded(table: Table, writes: seq<Write>): map<Utf8, DocState> {
    map p | p in Targets(writes) :: DocState(Find(table, p), Find(table, p), false)
  }

  datatype Batch = Batch(states: map<Utf8, DocState>, outcomes: seq<WriteOutcome>)

  function ApplyAll(ops: FloatOps, batch: Batch, writes: seq<Write>, now: i64): (r: Result<Batch, EngineError>)
    requires AllTargets(writes) && Targets(writes) <= batch.states.Keys
    ensures r.Ok? ==> r.value.states.Keys == batch.states.Keys
    decreases |writes|
  {
    if writes == [] then Ok(batch)
    else
      TargetsRest(writes);
      var p := TargetOf(writes[0]);
      match ApplyWrite(ops, writes[0], batch.states[p], now)
      case Err(e) => Err(e)
      case Ok(step) =>
        ApplyAll(ops, Batch(batch.states[p := step.state], batch.outcomes + [step.outcome]), writes[1..], now)
  }

  /** Setting a stored document keeps the create time the row already had. */
  function Stored(table: Table, path: Utf8, fields: FieldMap, now: i64): StoredRow {
    StoredRow(CreateTime(Find(table, path), now), now, fields)
  }

  function Put(table: Table, path: Utf8, current: Option<StoredRow>, now: i64): Table {
    if current.Some? then table[path := Stored(table, path, current.value.fields, now)] else table - {path}
  }

  datatype Persisted = Persisted(table: Table, changes: seq<Delta>)

  /** Dirty documents are written once, in the order the batch first names them. */
  function Persist(done: Persisted, states: map<Utf8, DocState>, writes: seq<Write>, now: i64): Persisted
    requires AllTargets(writes) && Targets(writes) <= states.Keys
    decreases |writes|
  {
    if writes == [] then done
    else
      TargetsRest(writes);
      var p := TargetOf(writes[0]);
      var state := states[p];
      if !state.dirty then Persist(done, states, writes[1..], now)
      else
        var table := Put(done.table, p, state.current, now);
        Persist(Persisted(table, done.changes + [Delta(p, state.before, Find(table, p))]),
                states[p := state.(dirty := false)], writes[1..], now)
  }

  function Commit(ops: FloatOps, table: Table, writes: seq<Write>, now: i64): Result<Applied, EngineError> {
    if !AllTargets(writes) then Err(InvalidArgument)
    else
      match ApplyAll(ops, Batch(Loaded(table, writes), []), writes, now)
      case Err(e) => Err(e)
      case Ok(batch) =>
        var persisted := Persist(Persisted(table, []), batch.states, writes, now);
        Ok(Applied(persisted.table, batch.outcomes, persisted.changes))
  }

  // ---- persisting ----

  lemma TargetsRest(writes: seq<Write>)
    requires writes != [] && AllTargets(writes)
    ensures AllTargets(writes[1..])
    ensures Targets(writes) == {TargetOf(writes[0])} + Targets(writes[1..])
  {
    assert writes[0] in writes;
    assert writes == [writes[0]] + writes[1..];
  }

  predicate Pending(states: map<Utf8, DocState>, writes: seq<Write>, p: Utf8) {
    p in Targets(writes) && p in states && states[p].dirty
  }

  /** Where a document ends up: put if dirty, untouched if not. */
  lemma {:induction false} PersistFinds(done: Persisted, states: map<Utf8, DocState>, writes: seq<Write>, now: i64, p: Utf8)
    requires AllTargets(writes) && Targets(writes) <= states.Keys
    ensures
      var final := Persist(done, states, writes, now).table;
      Find(final, p)
      == if Pending(states, writes, p) then Find(Put(done.table, p, states[p].current, now), p) else Find(done.table, p)
    decreases |writes|
  {
    if writes != [] {
      TargetsRest(writes);
      var q := TargetOf(writes[0]);
      var state := states[q];
      if state.dirty {
        var table := Put(done.table, q, state.current, now);
        PersistFinds(Persisted(table, done.changes + [Delta(q, state.before, Find(table, q))]),
                     states[q := state.(dirty := false)], writes[1..], now, p);
      } else {
        PersistFinds(done, states, writes[1..], now, p);
      }
    }
  }

  /** The deltas a run of persisting adds: one for each pending document. */
  ghost predicate Reports(added: seq<Delta>, states: map<Utf8, DocState>, writes: seq<Write>, final: Table) {
    && (forall i, j :: 0 <= i < j < |added| ==> added[i].path != added[j].path)
    && (forall d :: d in added ==>
          Pending(states, writes, d.path) && d.before == states[d.path].before && d.after == Find(final, d.path))
    && (forall p :: Pending(states, writes, p) ==> exists d :: d in added && d.path == p)
  }

  lemma {:induction false} PersistReports(done: Persisted, states: map<Utf8, DocState>, writes: seq<Write>, now: i64)
    requires AllTargets(writes) && Targets(writes) <= states.Keys
    ensures
      var r := Persist(done, states, writes, now);
      done.changes <= r.changes && Reports(r.changes[|done.changes|..], states, writes, r.table)
    decreases |writes|
  {
    if writes != [] {
      TargetsRest(writes);
      var q := TargetOf(writes[0]);
      var state := states[q];
      if state.dirty {
        var table := Put(done.table, q, state.current, now);
        var delta := Delta(q, state.before, Find(table, q));
        var next := Persisted(table, done.changes + [delta]);
        var cleaned := states[q := state.(dirty := false)];
        PersistReports(next, cleaned, writes[1..], now);
        PersistFinds(next, cleaned, writes[1..], now, q);
        var r := Persist(next, cleaned, writes[1..], now);
        ReportsOneMore(delta, r.changes[|next.changes|..], states, writes, r.table);
        assert r.changes[|done.changes|..] == [delta] + r.changes[|next.changes|..];
      } else {
        PersistReports(done, states, writes[1..], now);
        var r := Persist(done, states, writes[1..], now);
        ReportsSkip(r.changes[|done.changes|..], states, writes, r.table);
      }
    } else {
      assert done.changes[|done.changes|..] == [];
    }
  }

  lemma ReportsSkip(added: seq<Delta>, states: map<Utf8, DocState>, writes: seq<Write>, final: Table)
    requires writes != [] && AllTargets(writes) && Targets(writes) <= states.Keys
    requires TargetOf(writes[0]) in states && !states[TargetOf(writes[0])].dirty && Reports(added, states, writes[1..], final)
    ensures Reports(added, states, writes, final)
  {
    TargetsRest(writes);
    forall p
      ensures Pending(states, writes, p) <==> Pending(states, writes[1..], p)
    {}
  }

  lemma ReportsOneMore(delta: Delta, added: seq<Delta>, states: map<Utf8, DocState>, writes: seq<Write>, final: Table)
    requires writes != [] && AllTargets(writes) && Targets(writes) <= states.Keys
    requires
      var q := TargetOf(writes[0]);
      && q in states && states[q].dirty
      && delta == Delta(q, states[q].before, Find(final, q))
      && Reports(added, states[q := states[q].(dirty := false)], writes[1..], final)
    ensures Reports([delta] + added, states, writes, final)
  {
    TargetsRest(writes);
    var q := TargetOf(writes[0]);
    var cleaned := states[q := states[q].(dirty := false)];
    forall p
      ensures Pending(states, writes, p) <==> p == q || Pending(cleaned, writes[1..], p)
    {}
    assert delta in [delta] + added;
  }
}
