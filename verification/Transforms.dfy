/** Update masks and field transforms. */
module Transforms {
  import opened Orderings
  import opened Bytes
  import opened Bits
  import opened Numbers
  import opened Results
  import opened Errors
  import opened Values
  import opened Order
  import opened IndexKey
  import opened KeyOrdering
  import opened Fields

  /** IEEE arithmetic the engine takes from the machine. */
  datatype FloatOps = FloatOps(fromInt: i64 -> F64, add: (F64, F64) -> F64)

  datatype Transform =
    | NoTransform
    | ServerTime
    | Increment(operand: Value)
    | Maximum(operand: Value)
    | Minimum(operand: Value)
    | AppendMissing(elements: seq<Value>)
    | RemoveAll(elements: seq<Value>)

  datatype FieldTransform = FieldTransform(path: Utf8, transform: Transform)

  // ---- masks ----

  /** One mask path: set from the incoming fields, or deleted when absent there. */
  function MergePath(fields: FieldMap, incoming: FieldMap, p: seq<Utf8>): FieldMap
    requires p != []
  {
    var v := GetField(incoming, p);
    if v.Some? then SetField(fields, p, v.value) else DeleteField(fields, p)
  }

  function Merge(fields: FieldMap, incoming: FieldMap, mask: seq<Utf8>): FieldMap {
    if mask == [] then fields
    else MergePath(Merge(fields, incoming, mask[..|mask| - 1]), incoming, SplitPath(mask[|mask| - 1]))
  }

  /** The read side: only the masked fields of a document. */
  function MaskFields(fields: FieldMap, mask: seq<Utf8>): FieldMap {
    if mask == [] then map[]
    else
      var front, p := MaskFields(fields, mask[..|mask| - 1]), SplitPath(mask[|mask| - 1]);
      var v := GetField(fields, p);
      if v.Some? then SetField(front, p, v.value) else front
  }

  lemma {:induction false} SetSame(fields: FieldMap, p: seq<Utf8>, v: Value)
    requires p != [] && GetField(fields, p) == Some(v)
    ensures SetField(fields, p, v) == fields
    decreases |p|
  {
    if |p| > 1 {
      SetSame(fields[p[0]].fields, p[1..], v);
    }
  }

  lemma {:induction false} DescendOn(v: Value, p: seq<Utf8>, rest: seq<Utf8>)
    ensures Descend(v, p + rest)
         == if Descend(v, p).Some? then Descend(Descend(v, p).value, rest) else None
  {
    if p == [] {
      assert p + rest == rest;
    } else {
      assert (p + rest)[1..] == p[1..] + rest;
      if v.Map? && p[0] in v.fields {
        DescendOn(v.fields[p[0]], p[1..], rest);
      }
    }
  }

  lemma GetBelow(fields: FieldMap, p: seq<Utf8>, rest: seq<Utf8>)
    requires p != []
    ensures GetField(fields, p + rest)
         == if GetField(fields, p).Some? then Descend(GetField(fields, p).value, rest) else None
  {
    assert (p + rest)[1..] == p[1..] + rest;
    if p[0] in fields {
      DescendOn(fields[p[0]], p[1..], rest);
    }
  }

  /** A path that already reads as incoming still does after another path is
      merged, whether above, below or beside it. */
  lemma MergeKeepsReading(fields: FieldMap, incoming: FieldMap, p: seq<Utf8>, q: seq<Utf8>)
    requires p != [] && q != []
    requires GetField(fields, p) == GetField(incoming, p)
    ensures GetField(MergePath(fields, incoming, q), p) == GetField(incoming, p)
  {
    IncomparablePrefixes(q, p);
    if q <= p {
      var rest := p[|q|..];
      assert p == q + rest;
      GetBelow(incoming, q, rest);
      if GetField(incoming, q).Some? {
        GetSet(fields, q, GetField(incoming, q).value, rest);
      } else {
        GetDelete(fields, q, rest);
      }
    } else if p <= q {
      var rest := q[|p|..];
      assert q == p + rest;
      GetBelow(fields, p, rest);
      GetBelow(incoming, p, rest);
      if GetField(incoming, q).Some? {
        SetSame(fields, q, GetField(incoming, q).value);
      } else {
        DeleteAbsent(fields, q);
      }
    } else {
      MergeElsewhere(fields, incoming, q, p);
    }
  }

  lemma MergeElsewhere(fields: FieldMap, incoming: FieldMap, q: seq<Utf8>, p: seq<Utf8>)
    requires Incomparable(q, p)
    ensures GetField(MergePath(fields, incoming, q), p) == GetField(fields, p)
  {
    if GetField(incoming, q).Some? {
      GetSetElsewhere(fields, q, GetField(incoming, q).value, p);
    } else {
      GetDeleteElsewhere(fields, q, p);
    }
  }

  lemma MergeReadsOwn(fields: FieldMap, incoming: FieldMap, q: seq<Utf8>)
    requires q != []
    ensures GetField(MergePath(fields, incoming, q), q) == GetField(incoming, q)
  {
    assert q + [] == q;
    if GetField(incoming, q).Some? {
      GetSet(fields, q, GetField(incoming, q).value, []);
    } else {
      GetDelete(fields, q, []);
    }
  }

  /** After a masked update every mask path reads as in the incoming document,
      present or absent, even where mask paths overlap. */
  lemma {:induction false} MergeReads(fields: FieldMap, incoming: FieldMap, mask: seq<Utf8>, path: Utf8)
    requires path in mask
    ensures GetField(Merge(fields, incoming, mask), SplitPath(path)) == GetField(incoming, SplitPath(path))
  {
    var front, last := mask[..|mask| - 1], mask[|mask| - 1];
    assert mask == front + [last];
    var merged := Merge(fields, incoming, front);
    if path in front {
      MergeReads(fields, incoming, front, path);
      MergeKeepsReading(merged, incoming, SplitPath(path), SplitPath(last));
    } else {
      MergeReadsOwn(merged, incoming, SplitPath(last));
    }
  }

  /** And every path beside all of them reads as before. */
  lemma {:induction false} MergeLeaves(fields: FieldMap, incoming: FieldMap, mask: seq<Utf8>, q: seq<Utf8>)
    requires q != [] && forall path :: path in mask ==> Incomparable(SplitPath(path), q)
    ensures GetField(Merge(fields, incoming, mask), q) == GetField(fields, q)
  {
    if mask != [] {
      var front, last := mask[..|mask| - 1], mask[|mask| - 1];
      assert mask == front + [last];
      MergeLeaves(fields, incoming, front, q);
      MergeElsewhere(Merge(fields, incoming, front), incoming, SplitPath(last), q);
    }
  }

  // ---- masked reads ----

  /** A masked document reads as the whole one at every mask path. */
  lemma {:induction false} MaskReads(fields: FieldMap, mask: seq<Utf8>, path: Utf8)
    requires path in mask
    ensures GetField(MaskFields(fields, mask), SplitPath(path)) == GetField(fields, SplitPath(path))
  {
    if GetField(fields, SplitPath(path)).Some? {
      MaskHolds(fields, mask, path);
    } else {
      MaskIsPart(fields, mask, SplitPath(path));
    }
  }

  lemma {:induction false} MaskHolds(fields: FieldMap, mask: seq<Utf8>, path: Utf8)
    requires path in mask && GetField(fields, SplitPath(path)).Some?
    ensures GetField(MaskFields(fields, mask), SplitPath(path)) == GetField(fields, SplitPath(path))
  {
    var front, last := mask[..|mask| - 1], mask[|mask| - 1];
    assert mask == front + [last];
    var masked, p, q := MaskFields(fields, front), SplitPath(path), SplitPath(last);
    if path in front {
      MaskHolds(fields, front, path);
      if GetField(fields, q).Some? {
        MergeKeepsReading(masked, fields, p, q);
      }
    } else {
      MergeReadsOwn(masked, fields, q);
    }
  }

  /** Nothing is readable in a masked document that was not in the whole one. */
  lemma {:induction false} MaskIsPart(fields: FieldMap, mask: seq<Utf8>, p: seq<Utf8>)
    requires p != [] && GetField(fields, p) == None
    ensures GetField(MaskFields(fields, mask), p) == None
  {
    if mask != [] {
      var front, q := mask[..|mask| - 1], SplitPath(mask[|mask| - 1]);
      MaskIsPart(fields, front, p);
      if GetField(fields, q).Some? {
        MergeKeepsReading(MaskFields(fields, front), fields, p, q);
      }
    }
  }

  /** And nothing beside the mask. */
  lemma {:induction false} MaskHides(fields: FieldMap, mask: seq<Utf8>, q: seq<Utf8>)
    requires q != [] && forall path :: path in mask ==> Incomparable(SplitPath(path), q)
    ensures GetField(MaskFields(fields, mask), q) == None
  {
    if mask != [] {
      var front, last := mask[..|mask| - 1], mask[|mask| - 1];
      assert mask == front + [last];
      MaskHides(fields, front, q);
      if GetField(fields, SplitPath(last)).Some? {
        MergeElsewhere(MaskFields(fields, front), fields, SplitPath(last), q);
      }
    }
  }

  // ---- arithmetic ----

  const MAX_I64: i64 := 0x7FFF_FFFF_FFFF_FFFF
  const MIN_I64: i64 := -0x8000_0000_0000_0000

  function SaturatingAdd(a: i64, b: i64): i64 {
    if MIN_I64 <= a + b <= MAX_I64 then a + b else if b >= 0 then MAX_I64 else MIN_I64
  }

  function AddNumbers(ops: FloatOps, x: Number, y: Number): Number {
    match (x, y)
    case (Int(a), Int(b)) => Int(SaturatingAdd(a, b))
    case (Int(a), Double(b)) => Double(ops.add(ops.fromInt(a), b))
    case (Double(a), Int(b)) => Double(ops.add(a, ops.fromInt(b)))
    case (Double(a), Double(b)) => Double(ops.add(a, b))
  }

  /** A missing or non-numeric current value gives way to the operand. */
  function Incremented(ops: FloatOps, current: Option<Value>, operand: Value): Result<Value, EngineError> {
    if !operand.Num? then Err(InvalidArgument)
    else if current.None? || !current.value.Num? then Ok(operand)
    else Ok(Num(AddNumbers(ops, current.value.number, operand.number)))
  }

  function MaxMin(current: Option<Value>, operand: Value, wantMax: bool): Result<Value, EngineError> {
    if !operand.Num? then Err(InvalidArgument)
    else if current.None? || !current.value.Num? || operand.number.IsNaN() then Ok(operand)
    else if current.value.number.IsNaN() then Ok(current.value)
    else
      var c := CompareValues(current.value, operand);
      Ok(if (if wantMax then c != Less else c != Greater) then current.value else operand)
  }

  /** Integer increments clamp the exact sum, so they never wrap and never
      move against the operand's sign. */
  lemma IncrementClamps(a: i64, b: i64)
    ensures
      var s := SaturatingAdd(a, b);
      && (s == a + b || (a + b > MAX_I64 && s == MAX_I64) || (a + b < MIN_I64 && s == MIN_I64))
      && (b >= 0 ==> s >= a) && (b <= 0 ==> s <= a)
  {}

  /** The winner bounds both numbers, is one of them, and the current value
      stays on ties; NaN absorbs. */
  lemma MaxMinBounds(current: Value, operand: Value, wantMax: bool)
    requires current.Num? && operand.Num?
    ensures
      var r := MaxMin(Some(current), operand, wantMax);
      && r.Ok? && (r.value == current || r.value == operand)
      && (current.number.IsNaN() || operand.number.IsNaN() <==> r.value.Num? && r.value.number.IsNaN())
      && (!current.number.IsNaN() && !operand.number.IsNaN() ==>
            var worse := if wantMax then Less else Greater;
            && CompareValues(r.value, current) != worse && CompareValues(r.value, operand) != worse
            && (CompareValues(current, operand) == Equal ==> r.value == current))
  {
    Reflexive(current);
    Reflexive(operand);
    KeyOrder(current, operand);
  }

  /** Applying the same bound again changes nothing. */
  lemma MaxMinIdempotent(current: Option<Value>, operand: Value, wantMax: bool)
    requires operand.Num?
    ensures
      var once := MaxMin(current, operand, wantMax);
      once.Ok? && MaxMin(Some(once.value), operand, wantMax) == once
  {
    Reflexive(operand);
  }

  // ---- arrays ----

  predicate IndexEqual(a: Value, b: Value) {
    Key(a) == Key(b)
  }

  predicate HasEqual(elements: seq<Value>, v: Value) {
    exists e :: e in elements && IndexEqual(e, v)
  }

  function Elements(current: Option<Value>): seq<Value> {
    if current.Some? && current.value.Array? then current.value.values else []
  }

  function Union(elements: seq<Value>, operands: seq<Value>): seq<Value>
    decreases |operands|
  {
    if operands == [] then elements
    else Union(if HasEqual(elements, operands[0]) then elements else elements + [operands[0]], operands[1..])
  }

  function Without(elements: seq<Value>, operands: seq<Value>): (rest: seq<Value>)
    ensures forall e :: e in rest <==> e in elements && !HasEqual(operands, e)
  {
    if elements == [] then []
    else (if HasEqual(operands, elements[0]) then [] else [elements[0]]) + Without(elements[1..], operands)
  }

  /** An append keeps what was there, adds operands only, and leaves every
      operand present under value equality exactly as the order has it. */
  lemma {:induction false} UnionHolds(elements: seq<Value>, operands: seq<Value>)
    ensures
      var all := Union(elements, operands);
      && elements <= all
      && (forall e :: e in all[|elements|..] ==> e in operands && !HasEqual(elements, e))
      && (forall o :: o in operands ==> HasEqual(all, o))
    decreases |operands|
  {
    if operands != [] {
      var o := operands[0];
      var next := if HasEqual(elements, o) then elements else elements + [o];
      UnionHolds(next, operands[1..]);
      var all := Union(next, operands[1..]);
      if HasEqual(elements, o) {
        var e :| e in elements && IndexEqual(e, o);
        assert e in all;
      } else {
        assert all[|elements|] == o && IndexEqual(o, o);
        assert HasEqual(all, o);
        assert all[|elements|..] == [o] + all[|next|..];
        forall e | e in all[|next|..]
          ensures !HasEqual(elements, e)
        {
          forall x | x in elements
            ensures !IndexEqual(x, e)
          {
            assert x in next;
          }
        }
      }
    }
  }

  /** No two appended elements are equal: duplicates are recognised as they
      go in, `1` against `1.0` included. */
  lemma {:induction false} UnionDistinct(elements: seq<Value>, operands: seq<Value>)
    ensures
      var all := Union(elements, operands);
      && |elements| <= |all|
      && forall i, j :: 0 <= i < j < |all| && |elements| <= j ==> !IndexEqual(all[i], all[j])
    decreases |operands|
  {
    if operands != [] {
      var o := operands[0];
      var next := if HasEqual(elements, o) then elements else elements + [o];
      UnionDistinct(next, operands[1..]);
      if !HasEqual(elements, o) {
        UnionHolds(next, operands[1..]);
        var all := Union(next, operands[1..]);
        forall i | 0 <= i < |elements|
          ensures !IndexEqual(all[i], o)
        {
          assert all[i] == elements[i] && elements[i] in elements;
        }
      }
    }
  }

  lemma {:induction false} UnionOfPresent(elements: seq<Value>, operands: seq<Value>)
    requires forall o :: o in operands ==> HasEqual(elements, o)
    ensures Union(elements, operands) == elements
    decreases |operands|
  {
    if operands != [] {
      UnionOfPresent(elements, operands[1..]);
    }
  }

  lemma UnionIdempotent(elements: seq<Value>, operands: seq<Value>)
    ensures Union(Union(elements, operands), operands) == Union(elements, operands)
  {
    UnionHolds(elements, operands);
    UnionOfPresent(Union(elements, operands), operands);
  }

  lemma {:induction false} WithoutNothing(elements: seq<Value>, operands: seq<Value>)
    requires forall e :: e in elements ==> !HasEqual(operands, e)
    ensures Without(elements, operands) == elements
  {
    if elements != [] {
      WithoutNothing(elements[1..], operands);
      assert elements == [elements[0]] + elements[1..];
    }
  }

  lemma WithoutIdempotent(elements: seq<Value>, operands: seq<Value>)
    ensures Without(Without(elements, operands), operands) == Without(elements, operands)
  {
    WithoutNothing(Without(elements, operands), operands);
  }

  // ---- one transform ----

  /** The value a transform stores and the result it reports. */
  datatype Transformed = Transformed(result: Value, stored: Value)

  function Outcome(ops: FloatOps, current: Option<Value>, t: Transform, now: i64): Result<Transformed, EngineError> {
    match t
    case NoTransform => Err(InvalidArgument)
    // Microseconds floored to seconds, the rest in nanoseconds.
    case ServerTime =>
      var stamp := Timestamp(now / 1_000_000, now % 1_000_000 * 1000);
      Ok(Transformed(stamp, stamp))
    case Increment(operand) => Both(Incremented(ops, current, operand))
    case Maximum(operand) => Both(MaxMin(current, operand, true))
    case Minimum(operand) => Both(MaxMin(current, operand, false))
    case AppendMissing(operands) => Ok(Transformed(Null, Array(Union(Elements(current), operands))))
    case RemoveAll(operands) => Ok(Transformed(Null, Array(Without(Elements(current), operands))))
  }

  function Both(v: Result<Value, EngineError>): Result<Transformed, EngineError> {
    if v.Ok? then Ok(Transformed(v.value, v.value)) else Err(v.error)
  }
}
