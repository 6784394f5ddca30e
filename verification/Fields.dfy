/** Dotted field paths into a document's nested maps. */
module Fields {
  import opened Bytes
  import opened Results
  import opened Values

  const DOT: byte := 0x2E

  type FieldMap = map<Utf8, Value>

  function SplitPath(path: Utf8): (segments: seq<Utf8>)
    ensures segments != []
  {
    Split(path, DOT)
  }

  /** The value below `v`, one map entry per segment. */
  function Descend(v: Value, segments: seq<Utf8>): Option<Value> {
    if segments == [] then Some(v)
    else if v.Map? && segments[0] in v.fields then Descend(v.fields[segments[0]], segments[1..])
    else None
  }

  function GetField(fields: FieldMap, segments: seq<Utf8>): Option<Value>
    requires segments != []
  {
    if segments[0] in fields then Descend(fields[segments[0]], segments[1..]) else None
  }

  /** The entries of a map at `key`, and none where there is no map. */
  function Inner(fields: FieldMap, key: Utf8): FieldMap {
    if key in fields && fields[key].Map? then fields[key].fields else map[]
  }

  function SetField(fields: FieldMap, segments: seq<Utf8>, value: Value): FieldMap
    requires segments != []
    decreases |segments|
  {
    if |segments| == 1 then fields[segments[0] := value]
    else fields[segments[0] := Map(SetField(Inner(fields, segments[0]), segments[1..], value))]
  }

  function DeleteField(fields: FieldMap, segments: seq<Utf8>): FieldMap
    requires segments != []
    decreases |segments|
  {
    if |segments| == 1 then fields - {segments[0]}
    else if segments[0] in fields && fields[segments[0]].Map?
    then fields[segments[0] := Map(DeleteField(fields[segments[0]].fields, segments[1..]))]
    else fields
  }

  // ---- laws ----

  /** Neither path leads through the other. */
  ghost predicate Incomparable(p: seq<Utf8>, q: seq<Utf8>) {
    p != [] && q != [] && (p[0] != q[0] || Incomparable(p[1..], q[1..]))
  }

  lemma {:induction false} IncomparablePrefixes(p: seq<Utf8>, q: seq<Utf8>)
    ensures Incomparable(p, q) <==> !(p <= q) && !(q <= p)
  {
    if p != [] && q != [] {
      IncomparablePrefixes(p[1..], q[1..]);
      assert p == [p[0]] + p[1..] && q == [q[0]] + q[1..];
    }
  }

  /** What was set is there, and its own parts are below it. */
  lemma {:induction false} GetSet(fields: FieldMap, p: seq<Utf8>, value: Value, below: seq<Utf8>)
    requires p != []
    ensures GetField(SetField(fields, p, value), p + below) == Descend(value, below)
    decreases |p|
  {
    if |p| == 1 {
      assert (p + below)[1..] == below;
    } else {
      GetSet(Inner(fields, p[0]), p[1..], value, below);
      assert (p + below)[1..] == p[1..] + below;
    }
  }

  /** Setting creates and replaces maps on the way, yet no path beside it can tell. */
  lemma {:induction false} GetSetElsewhere(fields: FieldMap, p: seq<Utf8>, value: Value, q: seq<Utf8>)
    requires Incomparable(p, q)
    ensures GetField(SetField(fields, p, value), q) == GetField(fields, q)
    decreases |p|
  {
    if p[0] == q[0] {
      GetSetElsewhere(Inner(fields, p[0]), p[1..], value, q[1..]);
    }
  }

  lemma {:induction false} GetDelete(fields: FieldMap, p: seq<Utf8>, below: seq<Utf8>)
    requires p != []
    ensures GetField(DeleteField(fields, p), p + below) == None
    decreases |p|
  {
    if |p| > 1 {
      assert (p + below)[1..] == p[1..] + below;
      if p[0] in fields && fields[p[0]].Map? {
        GetDelete(fields[p[0]].fields, p[1..], below);
      }
    }
  }

  lemma {:induction false} GetDeleteElsewhere(fields: FieldMap, p: seq<Utf8>, q: seq<Utf8>)
    requires Incomparable(p, q)
    ensures GetField(DeleteField(fields, p), q) == GetField(fields, q)
    decreases |p|
  {
    if p[0] == q[0] && p[0] in fields && fields[p[0]].Map? {
      GetDeleteElsewhere(fields[p[0]].fields, p[1..], q[1..]);
    }
  }

  /** Deleting what is not there changes nothing. */
  lemma {:induction false} DeleteAbsent(fields: FieldMap, p: seq<Utf8>)
    requires p != [] && GetField(fields, p) == None
    ensures DeleteField(fields, p) == fields
    decreases |p|
  {
    if |p| > 1 && p[0] in fields && fields[p[0]].Map? {
      DeleteAbsent(fields[p[0]].fields, p[1..]);
    }
  }

  /** Writes to incomparable paths commute. */
  lemma {:induction false} SetsCommute(fields: FieldMap, p: seq<Utf8>, v: Value, q: seq<Utf8>, w: Value)
    requires Incomparable(p, q)
    ensures SetField(SetField(fields, p, v), q, w) == SetField(SetField(fields, q, w), p, v)
    decreases |p|
  {
    if p[0] == q[0] {
      SetsCommute(Inner(fields, p[0]), p[1..], v, q[1..], w);
      SetTwice(fields, p, v, q, w);
      SetTwice(fields, q, w, p, v);
    } else {
      SetApart(fields, p, v, q, w);
    }
  }

  lemma SetTwice(fields: FieldMap, p: seq<Utf8>, v: Value, q: seq<Utf8>, w: Value)
    requires |p| > 1 && |q| > 1 && p[0] == q[0]
    ensures SetField(SetField(fields, p, v), q, w)
         == fields[p[0] := Map(SetField(SetField(Inner(fields, p[0]), p[1..], v), q[1..], w))]
  {
    var once := SetField(Inner(fields, p[0]), p[1..], v);
    assert SetField(fields, p, v) == fields[p[0] := Map(once)];
    assert Inner(fields[p[0] := Map(once)], q[0]) == once;
  }

  /** Setting a path touches its first segment's entry, and looks at no other. */
  lemma SetHead(fields: FieldMap, p: seq<Utf8>, v: Value, other: FieldMap)
    requires p != [] && Inner(fields, p[0]) == Inner(other, p[0])
    ensures var x := SetField(fields, p, v);
      p[0] in x && x == fields[p[0] := x[p[0]]] && SetField(other, p, v) == other[p[0] := x[p[0]]]
  {}

  lemma SetApart(fields: FieldMap, p: seq<Utf8>, v: Value, q: seq<Utf8>, w: Value)
    requires p != [] && q != [] && p[0] != q[0]
    ensures SetField(SetField(fields, p, v), q, w) == SetField(SetField(fields, q, w), p, v)
  {
    SetHead(fields, p, v, fields);
    SetHead(fields, q, w, fields);
    var x, y := SetField(fields, p, v)[p[0]], SetField(fields, q, w)[q[0]];
    SetHead(fields, p, v, fields[q[0] := y]);
    SetHead(fields, q, w, fields[p[0] := x]);
    assert fields[p[0] := x][q[0] := y] == fields[q[0] := y][p[0] := x];
  }

  /** Deleting a path that was there forgets what had been set at it. */
  lemma {:induction false} DeleteSet(fields: FieldMap, p: seq<Utf8>, v: Value)
    requires p != [] && GetField(fields, p).Some?
    ensures DeleteField(SetField(fields, p, v), p) == DeleteField(fields, p)
    decreases |p|
  {
    if |p| > 1 {
      DeleteSet(fields[p[0]].fields, p[1..], v);
    }
  }

  // ---- the walks ----

  /** A document's field map, edited by path. */
  class FieldTree {
    var fields: FieldMap

    constructor (fields: FieldMap)
      ensures this.fields == fields
    {
      this.fields := fields;
    }

    method Get(path: Utf8) returns (found: Option<Value>)
      ensures found == GetField(fields, SplitPath(path))
    {
      var segments := SplitPath(path);
      if segments[0] !in fields {
        return None;
      }
      var current := fields[segments[0]];
      var i := 1;
      while i < |segments|
        invariant 1 <= i <= |segments|
        invariant GetField(fields, segments) == Descend(current, segments[i..])
      {
        assert segments[i..][1..] == segments[i + 1..];
        if !current.Map? || segments[i] !in current.fields {
          return None;
        }
        current := current.fields[segments[i]];
        i := i + 1;
      }
      return Some(current);
    }

    /** Walks down, making maps where there are none, and writes the parents
        back on the way up. */
    method Set(path: Utf8, value: Value)
      modifies this
      ensures fields == SetField(old(fields), SplitPath(path), value)
    {
      var segments := SplitPath(path);
      var levels := [fields];
      while |levels| < |segments|
        invariant 0 < |levels| <= |segments| && levels[0] == fields
        invariant forall i, j :: 0 <= i < |levels| && 0 <= j < |levels| && j == i + 1 ==>
          levels[j] == Inner(levels[i], segments[i])
      {
        var last := |levels| - 1;
        levels := levels + [Inner(levels[last], segments[last])];
      }
      var i := |segments| - 1;
      var current := levels[i][segments[i] := value];
      while i > 0
        invariant 0 <= i < |segments|
        invariant current == SetField(levels[i], segments[i..], value)
      {
        i := i - 1;
        assert segments[i..][1..] == segments[i + 1..];
        assert segments[i..][0] == segments[i] && levels[i + 1] == Inner(levels[i], segments[i]);
        current := levels[i][segments[i] := Map(current)];
      }
      assert segments[0..] == segments;
      fields := current;
    }

    /** Stops where a parent is missing or no map: nothing to delete. */
    method Delete(path: Utf8)
      modifies this
      ensures fields == DeleteField(old(fields), SplitPath(path))
    {
      var segments := SplitPath(path);
      var levels := [fields];
      while |levels| < |segments|
        invariant 0 < |levels| <= |segments| && levels[0] == fields == old(fields)
        invariant Nested(levels, segments)
      {
        var last := |levels| - 1;
        var key := segments[last];
        if key !in levels[last] || !levels[last][key].Map? {
          NothingToDelete(levels, segments, 0);
          assert segments[0..] == segments;
          return;
        }
        var next := levels[last][key].fields;
        NestedDeeper(levels, segments, next);
        levels := levels + [next];
      }
      var i := |segments| - 1;
      var current := levels[i] - {segments[i]};
      while i > 0
        invariant 0 <= i < |segments|
        invariant current == DeleteField(levels[i], segments[i..])
      {
        i := i - 1;
        assert segments[i..][1..] == segments[i + 1..];
        assert segments[i..][0] == segments[i] && Holds(levels[i], segments[i], levels[i + 1]);
        current := levels[i][segments[i] := Map(current)];
      }
      assert segments[0..] == segments;
      fields := current;
    }
  }

  ghost predicate Holds(outer: FieldMap, key: Utf8, inner: FieldMap) {
    key in outer && outer[key].Map? && outer[key].fields == inner
  }

  /** Each level is the map the one before it holds at its segment. */
  ghost predicate Nested(levels: seq<FieldMap>, segments: seq<Utf8>) {
    && |levels| <= |segments|
    && forall j :: 0 < j < |levels| ==> Holds(levels[j - 1], segments[j - 1], levels[j])
  }

  lemma NestedDeeper(levels: seq<FieldMap>, segments: seq<Utf8>, next: FieldMap)
    requires levels != [] && |levels| < |segments| && Nested(levels, segments)
    requires Holds(levels[|levels| - 1], segments[|levels| - 1], next)
    ensures Nested(levels + [next], segments)
  {
    var deeper := levels + [next];
    forall j | 0 < j < |deeper|
      ensures Holds(deeper[j - 1], segments[j - 1], deeper[j])
    {
      assert deeper[j - 1] == levels[j - 1];
    }
  }

  lemma {:induction false} NothingToDelete(levels: seq<FieldMap>, segments: seq<Utf8>, i: nat)
    requires i < |levels| < |segments| && Nested(levels, segments)
    requires var last := |levels| - 1; segments[last] !in levels[last] || !levels[last][segments[last]].Map?
    ensures DeleteField(levels[i], segments[i..]) == levels[i]
    decreases |levels| - i
  {
    if i + 1 < |levels| {
      NothingToDelete(levels, segments, i + 1);
      assert segments[i..][1..] == segments[i + 1..];
      assert Holds(levels[i], segments[i], levels[i + 1]);
    }
  }
}
