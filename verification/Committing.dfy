/** Applying a commit step by step against the stored documents. */
module Committing {
  import opened Bytes
  import opened Bits
  import opened Results
  import opened Errors
  import opened Values
  import opened Fields
  import opened Transforms
  import opened Commits

  // ---- transforms ----

  method AppendMissingElements(current: Option<Value>, operands: seq<Value>) returns (elements: seq<Value>)
    ensures elements == Union(Elements(current), operands)
  {
    elements := Elements(current);
    var i := 0;
    while i < |operands|
      invariant 0 <= i <= |operands|
      invariant Union(elements, operands[i..]) == Union(Elements(current), operands)
    {
      assert operands[i..][1..] == operands[i + 1..];
      if !HasEqual(elements, operands[i]) {
        elements := elements + [operands[i]];
      }
      i := i + 1;
    }
  }

  lemma WithoutNext(rest: seq<Value>, elements: seq<Value>, operands: seq<Value>)
    requires elements != []
    ensures rest + Without(elements, operands)
         == (if HasEqual(operands, elements[0]) then rest else rest + [elements[0]]) + Without(elements[1..], operands)
  {
    var tail := Without(elements[1..], operands);
    assert [] + tail == tail;
    assert rest + ([elements[0]] + tail) == rest + [elements[0]] + tail;
  }

  method RemoveAllElements(current: Option<Value>, operands: seq<Value>) returns (rest: seq<Value>)
    ensures rest == Without(Elements(current), operands)
  {
    rest := [];
    var elements := Elements(current);
    var i := 0;
    while i < |elements|
      invariant 0 <= i <= |elements|
      invariant rest + Without(elements[i..], operands) == Without(elements, operands)
    {
      WithoutNext(rest, elements[i..], operands);
      assert elements[i..][1..] == elements[i + 1..];
      if !HasEqual(operands, elements[i]) {
        rest := rest + [elements[i]];
      }
      i := i + 1;
    }
  }

  method TransformOutcome(ops: FloatOps, current: Option<Value>, t: Transform, now: i64)
    returns (r: Result<Transformed, EngineError>)
    ensures r == Outcome(ops, current, t, now)
  {
    match t
    case AppendMissing(operands) =>
      var elements := AppendMissingElements(current, operands);
      r := Ok(Transformed(Null, Array(elements)));
    case RemoveAll(operands) =>
      var elements := RemoveAllElements(current, operands);
      r := Ok(Transformed(Null, Array(elements)));
    case _ =>
      r := Outcome(ops, current, t, now);
  }

  /** Each transform sees what the ones before it stored. */
  method RunTransforms(ops: FloatOps, tree: FieldTree, transforms: seq<FieldTransform>, now: i64)
    returns (r: Result<seq<Value>, EngineError>)
    modifies tree
    ensures match ApplyTransforms(ops, Progress(old(tree.fields), []), transforms, now)
      case Ok(p) => r == Ok(p.results) && tree.fields == p.fields
      case Err(e) => r == Err(e)
  {
    var results: seq<Value> := [];
    var i := 0;
    while i < |transforms|
      invariant 0 <= i <= |transforms|
      invariant ApplyTransforms(ops, Progress(tree.fields, results), transforms[i..], now)
             == ApplyTransforms(ops, Progress(old(tree.fields), []), transforms, now)
    {
      assert transforms[i..][1..] == transforms[i + 1..];
      var current := tree.Get(transforms[i].path);
      var t := TransformOutcome(ops, current, transforms[i].transform, now);
      if t.Err? {
        return Err(t.error);
      }
      tree.Set(transforms[i].path, t.value.stored);
      results := results + [t.value.result];
      i := i + 1;
    }
    return Ok(results);
  }

  /** Each mask path is set from the incoming fields, or deleted when absent there. */
  method RunMask(tree: FieldTree, incoming: FieldMap, mask: seq<Utf8>)
    modifies tree
    ensures tree.fields == Merge(old(tree.fields), incoming, mask)
  {
    var source := new FieldTree(incoming);
    var i := 0;
    while i < |mask|
      invariant 0 <= i <= |mask|
      invariant source.fields == incoming
      invariant tree.fields == Merge(old(tree.fields), incoming, mask[..i])
    {
      assert mask[..i + 1][..i] == mask[..i];
      var v := source.Get(mask[i]);
      if v.Some? {
        tree.Set(mask[i], v.value);
      } else {
        tree.Delete(mask[i]);
      }
      i := i + 1;
    }
    assert mask[..i] == mask;
  }

  method ReadMasked(fields: FieldMap, mask: seq<Utf8>) returns (out: FieldMap)
    ensures out == MaskFields(fields, mask)
  {
    var source := new FieldTree(fields);
    var target := new FieldTree(map[]);
    var i := 0;
    while i < |mask|
      invariant 0 <= i <= |mask|
      invariant source.fields == fields
      invariant target.fields == MaskFields(fields, mask[..i])
    {
      assert mask[..i + 1][..i] == mask[..i];
      var v := source.Get(mask[i]);
      if v.Some? {
        target.Set(mask[i], v.value);
      }
      i := i + 1;
    }
    assert mask[..i] == mask;
    return target.fields;
  }

  // ---- writes ----

  method RunUpdate(ops: FloatOps, w: Write, current: Option<StoredRow>, now: i64) returns (r: Result<Effect, EngineError>)
    requires w.operation.Update?
    ensures r == EffectOf(ops, w, current, now)
  {
    var tree: FieldTree;
    if w.mask.None? {
      tree := new FieldTree(w.operation.fields);
    } else {
      tree := new FieldTree(CurrentFields(current));
      RunMask(tree, w.operation.fields, w.mask.value);
    }
    var results := RunTransforms(ops, tree, w.transforms, now);
    if results.Err? {
      return Err(results.error);
    }
    return Ok(Effect(Some(StoredRow(CreateTime(current, now), now, tree.fields)), results.value, true));
  }

  method RunTransformOnly(ops: FloatOps, w: Write, current: Option<StoredRow>, now: i64) returns (r: Result<Effect, EngineError>)
    requires w.operation.TransformOnly?
    ensures r == EffectOf(ops, w, current, now)
  {
    var tree := new FieldTree(CurrentFields(current));
    var results := RunTransforms(ops, tree, w.operation.fieldTransforms, now);
    if results.Err? {
      return Err(results.error);
    }
    return Ok(Effect(Some(StoredRow(CreateTime(current, now), now, tree.fields)), results.value, true));
  }

  method RunWrite(ops: FloatOps, w: Write, state: DocState, now: i64) returns (r: Result<Stepped, EngineError>)
    ensures r == ApplyWrite(ops, w, state, now)
  {
    var error := CheckPrecondition(w.precondition, state.current);
    if error.Some? {
      return Err(error.value);
    }
    var effect: Result<Effect, EngineError>;
    match w.operation {
      case Update(_) => effect := RunUpdate(ops, w, state.current, now);
      case TransformOnly(_) => effect := RunTransformOnly(ops, w, state.current, now);
      case Delete => effect := Ok(Effect(None, [], true));
      case Verify => effect := Ok(Effect(state.current, [], false));
      case NoOperation => effect := Err(InvalidArgument);
    }
    if effect.Err? {
      return Err(effect.error);
    }
    var bumped := Bumped(effect.value.current, now);
    return Ok(Stepped(DocState(bumped, state.before, state.dirty || effect.value.dirty),
                      WriteOutcome(now, effect.value.results)));
  }

  // ---- commits ----

  datatype Reply = Reply(outcomes: seq<WriteOutcome>, changes: seq<Delta>)

  class Database {
    var rows: Table

    constructor (rows: Table)
      ensures this.rows == rows
    {
      this.rows := rows;
    }

    method Get(path: Utf8) returns (row: Option<StoredRow>)
      ensures row == Find(rows, path)
    {
      return Find(rows, path);
    }

    /** An upsert: the create time is only set on insert. */
    method Set(path: Utf8, fields: FieldMap, now: i64) returns (row: StoredRow)
      modifies this
      ensures rows == old(rows)[path := Stored(old(rows), path, fields, now)] && row == rows[path]
    {
      row := Stored(rows, path, fields, now);
      rows := rows[path := row];
    }

    method Remove(path: Utf8)
      modifies this
      ensures rows == old(rows) - {path}
    {
      rows := rows - {path};
    }

    method Load(writes: seq<Write>) returns (states: Option<map<Utf8, DocState>>)
      ensures states == if AllTargets(writes) then Some(Loaded(rows, writes)) else None
    {
      var loaded: map<Utf8, DocState> := map[];
      var i := 0;
      while i < |writes|
        invariant 0 <= i <= |writes|
        invariant AllTargets(writes[..i]) && loaded == Loaded(rows, writes[..i])
      {
        var w := writes[i];
        if !HasTarget(w) {
          assert w in writes;
          return None;
        }
        LoadedNext(rows, writes, i);
        if w.target.value !in loaded {
          var row := Get(w.target.value);
          loaded := loaded[w.target.value := DocState(row, row, false)];
        }
        i := i + 1;
      }
      assert writes[..i] == writes;
      return Some(loaded);
    }

    method PersistAll(states: map<Utf8, DocState>, writes: seq<Write>, now: i64) returns (changes: seq<Delta>)
      requires AllTargets(writes) && Targets(writes) <= states.Keys
      modifies this
      ensures Persisted(rows, changes) == Persist(Persisted(old(rows), []), states, writes, now)
    {
      changes := [];
      var left := states;
      var i := 0;
      while i < |writes|
        invariant 0 <= i <= |writes|
        invariant AllTargets(writes[i..]) && Targets(writes[i..]) <= left.Keys
        invariant Persist(Persisted(rows, changes), left, writes[i..], now)
               == Persist(Persisted(old(rows), []), states, writes, now)
      {
        TargetsRest(writes[i..]);
        assert writes[i..][1..] == writes[i + 1..];
        var p := TargetOf(writes[i]);
        var state := left[p];
        if state.dirty {
          left := left[p := state.(dirty := false)];
          if state.current.Some? {
            var row := Set(p, state.current.value.fields, now);
            changes := changes + [Delta(p, state.before, Some(row))];
          } else {
            Remove(p);
            changes := changes + [Delta(p, state.before, None)];
          }
        }
        i := i + 1;
      }
    }

    /** All of a commit, or none of it. */
    method ApplyCommit(ops: FloatOps, writes: seq<Write>, now: i64) returns (r: Result<Reply, EngineError>)
      modifies this
      ensures match Commit(ops, old(rows), writes, now)
        case Ok(a) => r == Ok(Reply(a.outcomes, a.changes)) && rows == a.table
        case Err(e) => r == Err(e) && rows == old(rows)
    {
      var loaded := Load(writes);
      if loaded.None? {
        return Err(InvalidArgument);
      }
      var batch := RunWrites(ops, Batch(loaded.value, []), writes, now);
      if batch.Err? {
        return Err(batch.error);
      }
      var changes := PersistAll(batch.value.states, writes, now);
      return Ok(Reply(batch.value.outcomes, changes));
    }
  }

  lemma LoadedNext(rows: Table, writes: seq<Write>, i: nat)
    requires i < |writes| && AllTargets(writes[..i]) && HasTarget(writes[i])
    ensures AllTargets(writes[..i + 1])
    ensures
      var p, loaded := TargetOf(writes[i]), Loaded(rows, writes[..i]);
      Loaded(rows, writes[..i + 1])
      == if p in loaded then loaded else loaded[p := DocState(Find(rows, p), Find(rows, p), false)]
  {
    var front := writes[..i];
    assert writes[..i + 1] == front + [writes[i]];
    assert Targets(writes[..i + 1]) == Targets(front) + {TargetOf(writes[i])} by {
      forall p | p in Targets(front)
        ensures p in Targets(writes[..i + 1])
      {
        var w :| w in front && w.target.Some? && TargetOf(w) == p;
        assert w in writes[..i + 1];
      }
      assert writes[i] in writes[..i + 1];
    }
  }

  /** Writes run in order against the in-memory view. */
  method RunWrites(ops: FloatOps, start: Batch, writes: seq<Write>, now: i64) returns (r: Result<Batch, EngineError>)
    requires AllTargets(writes) && Targets(writes) <= start.states.Keys
    ensures r == ApplyAll(ops, start, writes, now)
  {
    var batch := start;
    var i := 0;
    while i < |writes|
      invariant 0 <= i <= |writes|
      invariant AllTargets(writes[i..]) && Targets(writes[i..]) <= batch.states.Keys
      invariant ApplyAll(ops, batch, writes[i..], now) == ApplyAll(ops, start, writes, now)
    {
      TargetsRest(writes[i..]);
      assert writes[i..][1..] == writes[i + 1..];
      var p := TargetOf(writes[i]);
      var step := RunWrite(ops, writes[i], batch.states[p], now);
      if step.Err? {
        return Err(step.error);
      }
      batch := Batch(batch.states[p := step.value.state], batch.outcomes + [step.value.outcome]);
      i := i + 1;
    }
    return Ok(batch);
  }
}
