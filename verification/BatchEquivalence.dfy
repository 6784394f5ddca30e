/** A batch against its writes committed one after another at the same time:
    exactly when the two agree, in fields and versions, and in create times. */
module BatchEquivalence {
  import opened Bytes
  import opened Bits
  import opened Results
  import opened Errors
  import opened Values
  import opened Fields
  import opened Transforms
  import opened Commits
  import opened CommitTheorems

  predicate NoVerify(writes: seq<Write>) {
    forall w :: w in writes ==> !w.operation.Verify?
  }

  predicate Verified(writes: seq<Write>, p: Utf8) {
    exists w :: w in writes && w.operation.Verify? && TargetOf(w) == p
  }

  predicate Deleted(writes: seq<Write>, p: Utf8) {
    exists w :: w in writes && w.operation.Delete? && TargetOf(w) == p
  }

  lemma OneMore(done: seq<Write>, w: Write, p: Utf8)
    ensures Changed(done + [w], p) <==> Changed(done, p) || (Changes(w) && TargetOf(w) == p)
    ensures Verified(done + [w], p) <==> Verified(done, p) || (w.operation.Verify? && TargetOf(w) == p)
    ensures Deleted(done + [w], p) <==> Deleted(done, p) || (w.operation.Delete? && TargetOf(w) == p)
  {
    assert forall x :: x in done + [w] <==> x in done || x == w;
  }

  // ---- where they may part ----

  /** The version a precondition asks for, in microseconds. */
  function Stamp(pre: Precondition): int
    requires pre.UpdateTime?
  {
    pre.seconds * 1_000_000 + pre.nanos / 1000
  }

  /** A version check on a stored document that was verified but not written
      before it in the batch, and that tells the time of the batch from the
      stored version. */
  predicate Diverging(table: Table, done: seq<Write>, w: Write, now: i64) {
    var p := TargetOf(w);
    && w.precondition.Some? && w.precondition.value.UpdateTime?
    && p in table && Verified(done, p) && !Changed(done, p)
    && (Stamp(w.precondition.value) == now) != (Stamp(w.precondition.value) == table[p].updateTime)
  }

  // ---- one document, in both runs ----

  /** What the batch's view holds of a document, and the row the writes so far
      would have left one by one. Only a verified, unwritten document differs,
      in its version. */
  predicate Track(table: Table, state: DocState, row: Option<StoredRow>, done: seq<Write>, p: Utf8, now: i64) {
    && state.dirty == Changed(done, p)
    && (Changed(done, p) ==>
          && Alike(state.current, row) && (row.None? ==> Deleted(done, p))
          && (row.Some? ==> row.value.updateTime == now && row.value.createTime == RestartedAt(table, done, p, now)))
    && (!Changed(done, p) ==>
          row == Find(table, p) && state.current == if Verified(done, p) then Bumped(row, now) else row)
  }

  /** The create time a written document has when its writes run one by one. */
  function RestartedAt(table: Table, done: seq<Write>, p: Utf8, now: i64): i64 {
    if Deleted(done, p) || p !in table then now else table[p].createTime
  }

  /** The row a single write leaves. */
  function Left(row: Option<StoredRow>, state: DocState, now: i64): Option<StoredRow> {
    if !state.dirty then row
    else if state.current.None? then None
    else Some(StoredRow(CreateTime(row, now), now, state.current.value.fields))
  }

  /** Equal in everything but the version and the create time. */
  predicate Same(a: Option<StoredRow>, b: Option<StoredRow>) {
    a.Some? == b.Some? && (a.Some? ==> a.value.fields == b.value.fields)
  }

  lemma SameEffects(ops: FloatOps, w: Write, a: Option<StoredRow>, b: Option<StoredRow>, now: i64)
    requires Same(a, b)
    ensures
      match (EffectOf(ops, w, a, now), EffectOf(ops, w, b, now))
      case (Ok(x), Ok(y)) => Same(x.current, y.current) && x.results == y.results && x.dirty == y.dirty == Changes(w)
      case (Err(x), Err(y)) => x == y
      case _ => false
  {
    assert CurrentFields(a) == CurrentFields(b);
  }

  lemma {:induction false} TransformsRefuse(ops: FloatOps, start: Progress, transforms: seq<FieldTransform>, now: i64)
    ensures
      var r := ApplyTransforms(ops, start, transforms, now);
      r.Err? ==> r.error == InvalidArgument
    decreases |transforms|
  {
    if transforms != [] {
      var path := SplitPath(transforms[0].path);
      var t := Outcome(ops, GetField(start.fields, path), transforms[0].transform, now);
      if t.Ok? {
        TransformsRefuse(ops, Progress(SetField(start.fields, path, t.value.stored), start.results + [t.value.result]),
                         transforms[1..], now);
      }
    }
  }

  lemma EffectsRefuse(ops: FloatOps, w: Write, current: Option<StoredRow>, now: i64)
    ensures EffectOf(ops, w, current, now).Err? ==> EffectOf(ops, w, current, now).error == InvalidArgument
  {
    match w.operation
    case Update(_) => TransformsRefuse(ops, Progress(UpdatedFields(w, current), []), w.transforms, now);
    case TransformOnly(transforms) => TransformsRefuse(ops, Progress(CurrentFields(current), []), transforms, now);
    case _ =>
  }

  lemma TrackChecks(table: Table, state: DocState, row: Option<StoredRow>, done: seq<Write>, w: Write, now: i64)
    requires Track(table, state, row, done, TargetOf(w), now)
    ensures Same(state.current, row)
    ensures
      var a, b := CheckPrecondition(w.precondition, state.current), CheckPrecondition(w.precondition, row);
      if Diverging(table, done, w, now) then
        (a == None && b == Some(FailedPrecondition)) || (a == Some(FailedPrecondition) && b == None)
      else a == b
  {
    if w.precondition.Some? && w.precondition.value.UpdateTime? && row.Some? {
      var stamp := Stamp(w.precondition.value);
      var seen := state.current.value.updateTime;
      if Changed(done, TargetOf(w)) || !Verified(done, TargetOf(w)) {
        assert seen == row.value.updateTime;
      } else {
        assert seen == now && Find(table, TargetOf(w)) == row;
      }
      assert CheckPrecondition(w.precondition, row) == if row.value.updateTime == stamp then None else Some(FailedPrecondition);
    }
  }

  /** One write on one document: alike in both runs unless its precondition
      diverges, and then exactly one run refuses it. */
  lemma TrackStep(ops: FloatOps, table: Table, state: DocState, row: Option<StoredRow>, done: seq<Write>, w: Write, now: i64)
    requires Track(table, state, row, done, TargetOf(w), now)
    ensures
      var p := TargetOf(w);
      match (ApplyWrite(ops, w, state, now), ApplyWrite(ops, w, DocState(row, row, false), now))
      case (Ok(x), Ok(y)) =>
        && !Diverging(table, done, w, now) && x.outcome == y.outcome
        && Track(table, x.state, Left(row, y.state, now), done + [w], p, now)
      case (Err(x), Err(y)) => x == y <==> !Diverging(table, done, w, now)
      case _ => Diverging(table, done, w, now)
  {
    TrackChecks(table, state, row, done, w, now);
    SameEffects(ops, w, state.current, row, now);
    EffectsRefuse(ops, w, row, now);
    OneMore(done, w, TargetOf(w));
    DeletedIsChanged(done, TargetOf(w));
  }

  lemma DeletedIsChanged(done: seq<Write>, p: Utf8)
    ensures Deleted(done, p) ==> Changed(done, p)
  {}

  lemma TrackOther(table: Table, state: DocState, row: Option<StoredRow>, done: seq<Write>, w: Write, p: Utf8, now: i64)
    requires Track(table, state, row, done, p, now) && TargetOf(w) != p
    ensures Track(table, state, row, done + [w], p, now)
  {
    OneMore(done, w, p);
  }

  // ---- whole runs ----

  ghost predicate Tracks(table: Table, states: map<Utf8, DocState>, t: Table, done: seq<Write>, now: i64) {
    && (forall p :: p in states ==> Track(table, states[p], Find(t, p), done, p, now))
    && (forall p :: p !in states ==> Find(t, p) == Find(table, p))
  }

  ghost predicate InStep(table: Table, a: Result<Batch, EngineError>, b: Result<Applied, EngineError>, done: seq<Write>, now: i64) {
    match (a, b)
    case (Ok(x), Ok(y)) => Tracks(table, x.states, y.table, done, now) && x.outcomes == y.outcomes
    case (Err(x), Err(y)) => x == y
    case _ => false
  }

  /** The first writes of a batch, on a view loaded for all of it. */
  function Begins(ops: FloatOps, table: Table, writes: seq<Write>, n: nat, now: i64): Result<Batch, EngineError>
    requires AllTargets(writes) && n <= |writes|
  {
    TargetsOfFirst(writes, n);
    ApplyAll(ops, Batch(Loaded(table, writes), []), writes[..n], now)
  }

  lemma TargetsOfFirst(writes: seq<Write>, n: nat)
    requires AllTargets(writes) && n <= |writes|
    ensures AllTargets(writes[..n]) && Targets(writes[..n]) <= Targets(writes)
  {
    forall w | w in writes[..n]
      ensures w in writes
    {}
  }

  lemma {:induction false} ApplyOneMore(ops: FloatOps, batch: Batch, writes: seq<Write>, w: Write, now: i64)
    requires AllTargets(writes + [w]) && Targets(writes + [w]) <= batch.states.Keys
    ensures AllTargets(writes) && Targets(writes) <= batch.states.Keys && TargetOf(w) in batch.states
    ensures
      var r := ApplyAll(ops, batch, writes, now);
      ApplyAll(ops, batch, writes + [w], now)
      == if r.Err? then r
         else
           match ApplyWrite(ops, w, r.value.states[TargetOf(w)], now)
           case Err(e) => Err(e)
           case Ok(step) => Ok(Batch(r.value.states[TargetOf(w) := step.state], r.value.outcomes + [step.outcome]))
    decreases |writes|
  {
    LastTarget(writes, w);
    if writes == [] {
      assert [] + [w] == [w] + [];
      ApplyFirst(ops, batch, w, [], now);
    } else {
      var first, rest := writes[0], writes[1..];
      assert writes == [first] + rest && writes + [w] == [first] + (rest + [w]);
      TargetsRest(writes);
      LastTarget(rest, w);
      ApplyFirst(ops, batch, first, rest, now);
      ApplyFirst(ops, batch, first, rest + [w], now);
      var applied := ApplyWrite(ops, first, batch.states[TargetOf(first)], now);
      if applied.Ok? {
        var next := Batch(batch.states[TargetOf(first) := applied.value.state], batch.outcomes + [applied.value.outcome]);
        ApplyOneMore(ops, next, rest, w, now);
      }
    }
  }

  lemma LastTarget(writes: seq<Write>, w: Write)
    ensures AllTargets(writes + [w]) <==> AllTargets(writes) && HasTarget(w)
    ensures AllTargets(writes + [w]) ==> Targets(writes + [w]) == Targets(writes) + {TargetOf(w)}
  {
    assert forall x :: x in writes + [w] <==> x in writes || x == w;
  }

  /** A run, and the same run with one more commit behind it. */
  predicate Extends(r: Result<Applied, EngineError>, last: Result<Applied, EngineError>, all: Result<Applied, EngineError>) {
    if r.Err? then all == r
    else if last.Err? then all == last
    else
      && all.Ok? && all.value.table == last.value.table
      && all.value.outcomes == r.value.outcomes + last.value.outcomes
  }

  lemma ExtendsBehind(first: Applied, r: Result<Applied, EngineError>, last: Result<Applied, EngineError>,
                      all: Result<Applied, EngineError>)
    requires Extends(r, last, all)
    ensures Extends(Following(first, r), last, Following(first, all))
  {
    if r.Ok? && last.Ok? {
      assert first.outcomes + (r.value.outcomes + last.value.outcomes)
          == first.outcomes + r.value.outcomes + last.value.outcomes;
    }
  }

  /** The last of the commits one by one. */
  function Last(ops: FloatOps, r: Result<Applied, EngineError>, w: Write, now: i64): Result<Applied, EngineError> {
    if r.Err? then r else Commit(ops, r.value.table, [w], now)
  }

  lemma {:induction false} OneByOneMore(ops: FloatOps, t: Table, writes: seq<Write>, w: Write, now: i64)
    ensures
      var r := OneByOne(ops, t, writes, now);
      Extends(r, Last(ops, r, w, now), OneByOne(ops, t, writes + [w], now))
    decreases |writes|
  {
    if writes == [] {
      assert [] + [w] == [w] + [];
      OneByOneFirst(ops, t, w, [], now);
    } else {
      var first, rest := writes[0], writes[1..];
      assert writes == [first] + rest && writes + [w] == [first] + (rest + [w]);
      OneByOneFirst(ops, t, first, rest, now);
      OneByOneFirst(ops, t, first, rest + [w], now);
      var r := Commit(ops, t, [first], now);
      if r.Ok? {
        OneByOneMore(ops, r.value.table, rest, w, now);
        var s := OneByOne(ops, r.value.table, rest, now);
        ExtendsBehind(r.value, s, Last(ops, s, w, now), OneByOne(ops, r.value.table, rest + [w], now));
      }
    }
  }

  lemma TracksAfter(table: Table, states: map<Utf8, DocState>, t: Table, u: Table, done: seq<Write>, w: Write,
                    state: DocState, now: i64)
    requires Tracks(table, states, t, done, now) && TargetOf(w) in states
    requires forall q :: q != TargetOf(w) ==> Find(u, q) == Find(t, q)
    requires Track(table, state, Find(u, TargetOf(w)), done + [w], TargetOf(w), now)
    ensures Tracks(table, states[TargetOf(w) := state], u, done + [w], now)
  {
    forall q | q in states && q != TargetOf(w)
      ensures Track(table, states[q], Find(u, q), done + [w], q, now)
    {
      TrackOther(table, states[q], Find(t, q), done, w, q, now);
    }
  }

  /** One write more, in both runs. */
  lemma TracksStep(ops: FloatOps, table: Table, states: map<Utf8, DocState>, t: Table, done: seq<Write>, w: Write, now: i64)
    requires Tracks(table, states, t, done, now) && HasTarget(w) && TargetOf(w) in states
    ensures
      var p := TargetOf(w);
      match (ApplyWrite(ops, w, states[p], now), Commit(ops, t, [w], now))
      case (Ok(x), Ok(y)) =>
        && !Diverging(table, done, w, now) && y.outcomes == [x.outcome]
        && Tracks(table, states[p := x.state], y.table, done + [w], now)
      case (Err(x), Err(y)) => x == y <==> !Diverging(table, done, w, now)
      case _ => Diverging(table, done, w, now)
  {
    var p := TargetOf(w);
    SingleCommit(ops, t, w, now);
    TrackStep(ops, table, states[p], Find(t, p), done, w, now);
    var x, y := ApplyWrite(ops, w, states[p], now), Commit(ops, t, [w], now);
    if x.Ok? && y.Ok? {
      assert Find(y.value.table, p) == Left(Find(t, p), ApplyWrite(ops, w, Fresh(t, p), now).value.state, now);
      TracksAfter(table, states, t, y.value.table, done, w, x.value.state, now);
    }
  }

  /** No write that is reached, one by one, has a diverging precondition. */
  ghost predicate NoDivergence(ops: FloatOps, table: Table, writes: seq<Write>, n: nat, now: i64)
    requires n <= |writes|
  {
    forall i :: 0 <= i < n && OneByOne(ops, table, writes[..i], now).Ok? ==> !Diverging(table, writes[..i], writes[i], now)
  }

  lemma LoadedTracks(table: Table, writes: seq<Write>, now: i64)
    ensures Tracks(table, Loaded(table, writes), table, [], now)
  {}

  lemma {:induction false} StaysInStep(ops: FloatOps, table: Table, writes: seq<Write>, n: nat, now: i64)
    requires AllTargets(writes) && n <= |writes| && NoDivergence(ops, table, writes, n, now)
    ensures InStep(table, Begins(ops, table, writes, n, now), OneByOne(ops, table, writes[..n], now), writes[..n], now)
    decreases n
  {
    if n == 0 {
      assert writes[..0] == [];
      LoadedTracks(table, writes, now);
    } else {
      StaysInStep(ops, table, writes, n - 1, now);
      StepAt(ops, table, writes, n - 1, now);
    }
  }

  /** From one prefix to the next: in step, unless the next write diverges. */
  lemma StepAt(ops: FloatOps, table: Table, writes: seq<Write>, i: nat, now: i64)
    requires AllTargets(writes) && i < |writes|
    requires InStep(table, Begins(ops, table, writes, i, now), OneByOne(ops, table, writes[..i], now), writes[..i], now)
    ensures
      var a, b := Begins(ops, table, writes, i + 1, now), OneByOne(ops, table, writes[..i + 1], now);
      if OneByOne(ops, table, writes[..i], now).Ok? && Diverging(table, writes[..i], writes[i], now) then
        (a.Err? || b.Err?) && (a.Err? && b.Err? ==> a.error != b.error)
      else InStep(table, a, b, writes[..i + 1], now)
  {
    var w := writes[i];
    assert writes[..i + 1] == writes[..i] + [w] && w in writes;
    TargetsOfFirst(writes, i + 1);
    ApplyOneMore(ops, Batch(Loaded(table, writes), []), writes[..i], w, now);
    OneByOneMore(ops, table, writes[..i], w, now);
    var a, b := Begins(ops, table, writes, i, now), OneByOne(ops, table, writes[..i], now);
    if a.Ok? {
      TracksStep(ops, table, a.value.states, b.value.table, writes[..i], w, now);
    }
  }

  // ---- the theorems ----

  /** Same documents but for create times, same versions and results, or the
      same error. */
  ghost predicate SameRun(a: Result<Applied, EngineError>, b: Result<Applied, EngineError>) {
    match (a, b)
    case (Ok(x), Ok(y)) => AlikeTables(x.table, y.table) && x.outcomes == y.outcomes
    case (Err(x), Err(y)) => x == y
    case _ => false
  }

  lemma CommitIs(ops: FloatOps, table: Table, writes: seq<Write>, now: i64)
    requires AllTargets(writes)
    ensures
      var a := Begins(ops, table, writes, |writes|, now);
      match Commit(ops, table, writes, now)
      case Err(e) => a == Err(e)
      case Ok(r) =>
        && a.Ok? && r.outcomes == a.value.outcomes
        && forall p :: Find(r.table, p)
             == if Pending(a.value.states, writes, p) then Find(Put(table, p, a.value.states[p].current, now), p)
                else Find(table, p)
  {
    assert writes[..|writes|] == writes;
    var a := Begins(ops, table, writes, |writes|, now);
    if a.Ok? {
      forall p {
        PersistFinds(Persisted(table, []), a.value.states, writes, now, p);
      }
    }
  }

  lemma InStepIsSame(ops: FloatOps, table: Table, writes: seq<Write>, now: i64)
    requires AllTargets(writes)
    requires
      var a, b := Begins(ops, table, writes, |writes|, now), OneByOne(ops, table, writes, now);
      InStep(table, a, b, writes, now)
    ensures SameRun(Commit(ops, table, writes, now), OneByOne(ops, table, writes, now))
  {
    CommitIs(ops, table, writes, now);
    var a, b := Begins(ops, table, writes, |writes|, now), OneByOne(ops, table, writes, now);
    if a.Ok? {
      var r := Commit(ops, table, writes, now).value;
      forall p
        ensures Alike(Find(r.table, p), Find(b.value.table, p))
      {
        assert p in a.value.states <==> p in Targets(writes);
        if p in a.value.states {
          PersistedAlike(table, a.value.states[p], Find(b.value.table, p), writes, p, now);
        }
      }
    }
  }

  lemma PersistedAlike(table: Table, state: DocState, row: Option<StoredRow>, writes: seq<Write>, p: Utf8, now: i64)
    requires Track(table, state, row, writes, p, now)
    ensures Alike(if state.dirty then Find(Put(table, p, state.current, now), p) else Find(table, p), row)
  {}

  /** A batch that no reached precondition diverges in runs as its writes do
      one by one. */
  lemma UndividedBatch(ops: FloatOps, table: Table, writes: seq<Write>, now: i64)
    requires AllTargets(writes) && NoDivergence(ops, table, writes, |writes|, now)
    ensures SameRun(Commit(ops, table, writes, now), OneByOne(ops, table, writes, now))
  {
    assert writes[..|writes|] == writes;
    StaysInStep(ops, table, writes, |writes|, now);
    InStepIsSame(ops, table, writes, now);
  }

  ghost predicate EachPrefixSame(ops: FloatOps, table: Table, writes: seq<Write>, n: nat, now: i64)
    requires n <= |writes|
  {
    forall k :: 0 <= k <= n ==> SameRun(Commit(ops, table, writes[..k], now), OneByOne(ops, table, writes[..k], now))
  }

  lemma PrefixOfPrefix(writes: seq<Write>, k: nat, i: nat)
    requires i <= k <= |writes|
    ensures writes[..k][..i] == writes[..i]
  {}

  lemma NoDivergenceIn(ops: FloatOps, table: Table, writes: seq<Write>, k: nat, n: nat, now: i64)
    requires n <= k <= |writes|
    ensures NoDivergence(ops, table, writes[..k], n, now) <==> NoDivergence(ops, table, writes, n, now)
  {
    forall i | 0 <= i < n
      ensures writes[..k][..i] == writes[..i] && writes[..k][i] == writes[i]
    {
      PrefixOfPrefix(writes, k, i);
    }
  }

  /** What a divergence at the last write shows of the whole. */
  lemma NotSame(ops: FloatOps, table: Table, prefix: seq<Write>, n: nat, now: i64)
    requires AllTargets(prefix) && n == |prefix| && prefix[..n] == prefix
    requires
      var a, b := Begins(ops, table, prefix, n, now), OneByOne(ops, table, prefix[..n], now);
      (a.Err? || b.Err?) && (a.Err? && b.Err? ==> a.error != b.error)
    ensures !SameRun(Commit(ops, table, prefix, now), OneByOne(ops, table, prefix, now))
  {
    CommitIs(ops, table, prefix, now);
  }

  lemma {:induction false} SameMeansUndivided(ops: FloatOps, table: Table, writes: seq<Write>, n: nat, now: i64)
    requires AllTargets(writes) && n <= |writes| && EachPrefixSame(ops, table, writes, n, now)
    ensures NoDivergence(ops, table, writes, n, now)
    decreases n
  {
    if n > 0 {
      SameMeansUndivided(ops, table, writes, n - 1, now);
      var prefix := writes[..n];
      TargetsOfFirst(writes, n);
      PrefixOfPrefix(writes, n, n - 1);
      assert prefix[..n] == prefix;
      NoDivergenceIn(ops, table, writes, n, n - 1, now);
      StaysInStep(ops, table, prefix, n - 1, now);
      StepAt(ops, table, prefix, n - 1, now);
      if OneByOne(ops, table, writes[..n - 1], now).Ok? && Diverging(table, writes[..n - 1], writes[n - 1], now) {
        NotSame(ops, table, prefix, n, now);
        assert false;
      }
    }
  }

  /** A batch, Verify writes and all, agrees with its writes one by one at
      every write if and only if no precondition reached one by one diverges:
      a version check on a stored document that the batch has verified but not
      yet written, met by just one of the time of the batch and the stored
      version. */
  lemma BatchIsSequenceExactly(ops: FloatOps, table: Table, writes: seq<Write>, now: i64)
    requires AllTargets(writes)
    ensures EachPrefixSame(ops, table, writes, |writes|, now) <==> NoDivergence(ops, table, writes, |writes|, now)
    ensures NoDivergence(ops, table, writes, |writes|, now) ==>
      SameRun(Commit(ops, table, writes, now), OneByOne(ops, table, writes, now))
  {
    if EachPrefixSame(ops, table, writes, |writes|, now) {
      SameMeansUndivided(ops, table, writes, |writes|, now);
    }
    if NoDivergence(ops, table, writes, |writes|, now) {
      UndividedBatch(ops, table, writes, now);
      forall k | 0 <= k <= |writes|
        ensures SameRun(Commit(ops, table, writes[..k], now), OneByOne(ops, table, writes[..k], now))
      {
        TargetsOfFirst(writes, k);
        NoDivergenceIn(ops, table, writes, k, k, now);
        UndividedBatch(ops, table, writes[..k], now);
      }
    }
  }

  /** A batch without Verify writes succeeds exactly when its writes do one
      after another at the same time, and then leaves the same documents, the
      same versions and the same results. (Only a bad target, found before
      anything runs, can make them fail differently.) */
  lemma BatchIsSequence(ops: FloatOps, table: Table, writes: seq<Write>, now: i64)
    requires AllTargets(writes) && NoVerify(writes)
    ensures SameRun(Commit(ops, table, writes, now), OneByOne(ops, table, writes, now))
  {
    forall i | 0 <= i < |writes|
      ensures !Diverging(table, writes[..i], writes[i], now)
    {
      assert forall w :: w in writes[..i] ==> w in writes;
    }
    UndividedBatch(ops, table, writes, now);
  }

  /** With a bad target both fail. */
  lemma BatchFailsTogether(ops: FloatOps, table: Table, writes: seq<Write>, now: i64)
    requires NoVerify(writes)
    ensures Commit(ops, table, writes, now).Ok? <==> OneByOne(ops, table, writes, now).Ok?
  {
    if AllTargets(writes) {
      BatchIsSequence(ops, table, writes, now);
    } else {
      OneByOneTargets(ops, table, writes, now);
    }
  }

  // ---- create times ----

  predicate SameCreation(a: Option<StoredRow>, b: Option<StoredRow>) {
    a.Some? && b.Some? ==> a.value.createTime == b.value.createTime
  }

  /** Both runs succeeded, so nothing diverged. */
  lemma {:induction false} SuccessMeansUndivided(ops: FloatOps, table: Table, writes: seq<Write>, n: nat, now: i64)
    requires AllTargets(writes) && n <= |writes|
    requires Begins(ops, table, writes, n, now).Ok? && OneByOne(ops, table, writes[..n], now).Ok?
    ensures NoDivergence(ops, table, writes, n, now)
    decreases n
  {
    if n > 0 {
      var w := writes[n - 1];
      assert writes[..n] == writes[..n - 1] + [w];
      TargetsOfFirst(writes, n);
      ApplyOneMore(ops, Batch(Loaded(table, writes), []), writes[..n - 1], w, now);
      OneByOneMore(ops, table, writes[..n - 1], w, now);
      SuccessMeansUndivided(ops, table, writes, n - 1, now);
      StaysInStep(ops, table, writes, n - 1, now);
      StepAt(ops, table, writes, n - 1, now);
    }
  }

  /** The two runs leave a document with the same create time if and only if
      it is gone in the end, was not stored, was not deleted on the way, or was
      created at the time of the batch. */
  lemma CreationAgreesExactly(ops: FloatOps, table: Table, writes: seq<Write>, now: i64, p: Utf8)
    requires Commit(ops, table, writes, now).Ok? && OneByOne(ops, table, writes, now).Ok?
    ensures
      var a, b := Commit(ops, table, writes, now).value.table, OneByOne(ops, table, writes, now).value.table;
      SameCreation(Find(a, p), Find(b, p))
      <==> !(p in table && table[p].createTime != now && Deleted(writes, p) && p in a)
  {
    assert writes[..|writes|] == writes;
    CommitIs(ops, table, writes, now);
    SuccessMeansUndivided(ops, table, writes, |writes|, now);
    StaysInStep(ops, table, writes, |writes|, now);
    var states := Begins(ops, table, writes, |writes|, now).value.states;
    assert p in states <==> p in Targets(writes);
    if p !in states {
      assert forall w :: w in writes && HasTarget(w) ==> TargetOf(w) in Targets(writes);
      assert !Deleted(writes, p);
    } else {
      assert Deleted(writes, p) ==> Changed(writes, p);
    }
  }
}
