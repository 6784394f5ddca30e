/** The index columns of a stored document: the nested mirror of its fields,
    the entries of its arrays, and its name. */
module Mirror {
  import opened Bytes
  import opened Results
  import opened Values
  import opened KeyOrdering
  import opened Fields

  /** "__val__", "keys" and "name_key". */
  const VALUE_KEY: Utf8 := [0x5F, 0x5F, 0x76, 0x61, 0x6C, 0x5F, 0x5F]
  const KEYS: Utf8 := [0x6B, 0x65, 0x79, 0x73]
  const NAME_KEY: Utf8 := [0x6E, 0x61, 0x6D, 0x65, 0x5F, 0x6B, 0x65, 0x79]

  datatype Bson = Str(text: Utf8) | Doc(fields: map<Utf8, Bson>)

  /** One array element: the dotted path of its array, and its key. */
  datatype Entry = Entry(path: Utf8, key: Utf8)

  datatype Row = Row(columns: map<Utf8, Bson>, elements: set<Entry>)

  /** The string stored at a path of nested documents, if there is one. */
  function Stored(fields: map<Utf8, Bson>, segments: seq<Utf8>): Option<Utf8>
    decreases |segments|
  {
    if segments == [] || segments[0] !in fields then None
    else
      match fields[segments[0]]
      case Str(text) => if |segments| == 1 then Some(text) else None
      case Doc(inner) => Stored(inner, segments[1..])
  }

  function Column(row: Row, column: Utf8): Option<Utf8> {
    Stored(row.columns, SplitPath(column))
  }

  /** A node holds its own key under `__val__` and a child per map entry; a
      child of that very name overwrites it. */
  function MirrorNode(v: Value): (node: Bson)
    ensures node.Doc?
  {
    var own := map[VALUE_KEY := Str(IndexString(v))];
    Doc(if v.Map? then own + map k | k in v.fields :: MirrorNode(v.fields[k]) else own)
  }

  function ElementEntries(values: seq<Value>, path: Utf8): set<Entry> {
    set x | x in values :: Entry(path, IndexString(x))
  }

  function Entries(v: Value, path: Utf8): set<Entry> {
    if v.Array? then ElementEntries(v.values, path)
    else if v.Map? then
      set k, e | k in v.fields && e in Entries(v.fields[k], path + [DOT] + k) :: e
    else {}
  }

  function MirrorFields(fields: FieldMap): map<Utf8, Bson> {
    map k | k in fields :: MirrorNode(fields[k])
  }

  function IndexRow(name: Value, fields: FieldMap): Row {
    Row(
      map[
        KEYS := Doc(MirrorFields(fields)),
        NAME_KEY := Str(IndexString(name))
      ],
      set k, e | k in fields && e in Entries(fields[k], k) :: e)
  }

  // ---- names the mirror can tell apart ----

  /** No map inside the value has an entry called `__val__`, or with a dot in
      its name. */
  predicate WellNamed(v: Value) {
    v.Map? ==> forall k :: k in v.fields ==> k != VALUE_KEY && DOT !in k && WellNamed(v.fields[k])
  }

  predicate WellNamedFields(fields: FieldMap) {
    forall k :: k in fields ==> DOT !in k && WellNamed(fields[k])
  }

  // ---- the mirror answers as the document does ----

  function KeyOf(v: Option<Value>): Option<Utf8> {
    if v.Some? then Some(IndexString(v.value)) else None
  }

  lemma {:induction false} NodeFinds(v: Value, segments: seq<Utf8>)
    requires WellNamed(v)
    ensures Stored(MirrorNode(v).fields, segments + [VALUE_KEY]) == KeyOf(Descend(v, segments))
    decreases |segments|
  {
    var path := segments + [VALUE_KEY];
    if segments == [] {
      assert path == [VALUE_KEY];
    } else {
      assert path[1..] == segments[1..] + [VALUE_KEY];
      if v.Map? && segments[0] in v.fields {
        NodeFinds(v.fields[segments[0]], segments[1..]);
      }
    }
  }

  lemma FieldsFind(fields: FieldMap, segments: seq<Utf8>)
    requires WellNamedFields(fields) && segments != []
    ensures Stored(MirrorFields(fields), segments + [VALUE_KEY]) == KeyOf(GetField(fields, segments))
  {
    assert (segments + [VALUE_KEY])[1..] == segments[1..] + [VALUE_KEY];
    if segments[0] in fields {
      NodeFinds(fields[segments[0]], segments[1..]);
    }
  }

  lemma StoredBelow(fields: map<Utf8, Bson>, key: Utf8, rest: seq<Utf8>)
    requires key in fields && fields[key].Doc?
    ensures Stored(fields, [key] + rest) == Stored(fields[key].fields, rest)
  {
    assert ([key] + rest)[1..] == rest;
  }

  /** `keys` holds a path's key exactly when the document has the field. */
  lemma MirrorFinds(name: Value, fields: FieldMap, segments: seq<Utf8>)
    requires WellNamedFields(fields) && segments != []
    ensures Stored(IndexRow(name, fields).columns, [KEYS] + (segments + [VALUE_KEY]))
         == KeyOf(GetField(fields, segments))
  {
    FieldsFind(fields, segments);
    StoredBelow(IndexRow(name, fields).columns, KEYS, segments + [VALUE_KEY]);
  }

  /** An array element's key, below a value. */
  predicate HasElement(v: Option<Value>, key: Utf8) {
    v.Some? && v.value.Array? && exists x :: x in v.value.values && IndexString(x) == key
  }

  lemma {:induction false} JoinMore(segments: seq<Utf8>, k: Utf8)
    requires segments != []
    ensures Join(segments + [k], DOT) == Join(segments, DOT) + [DOT] + k
  {
    if |segments| == 1 {
      assert segments + [k] == [segments[0], k];
      assert [segments[0], k][1..] == [k];
    } else {
      JoinMore(segments[1..], k);
      assert (segments + [k])[1..] == segments[1..] + [k];
      var head, tail := segments[0] + [DOT], Join(segments[1..], DOT);
      assert head + (tail + [DOT] + k) == head + tail + [DOT] + k;
    }
  }

  /** The entries made below a prefix: exactly the elements of the array at
      the rest of the entry's path. */
  lemma {:induction false} EntriesAt(v: Value, prefix: seq<Utf8>, path: Utf8, key: Utf8)
    requires WellNamed(v) && prefix != [] && forall s :: s in prefix ==> DOT !in s
    ensures
      var p := SplitPath(path);
      Entry(path, key) in Entries(v, Join(prefix, DOT))
      <==> prefix <= p && HasElement(Descend(v, p[|prefix|..]), key)
    decreases v
  {
    var p := SplitPath(path);
    JoinSplit(path, DOT);
    SplitJoin(prefix, DOT);
    if v.Map? {
      forall k | k in v.fields
        ensures Entry(path, key) in Entries(v.fields[k], Join(prefix, DOT) + [DOT] + k)
          <==> prefix + [k] <= p && HasElement(Descend(v.fields[k], p[|prefix| + 1..]), key)
      {
        JoinMore(prefix, k);
        EntriesAt(v.fields[k], prefix + [k], path, key);
      }
      if prefix < p {
        MapEntriesAt(v, prefix, p);
      }
    } else if prefix <= p {
      assert p[|prefix|..] == [] ==> p == prefix;
    }
  }

  lemma MapEntriesAt(v: Value, prefix: seq<Utf8>, p: seq<Utf8>)
    requires v.Map? && prefix < p
    ensures
      var k := p[|prefix|];
      && (forall j :: prefix + [j] <= p <==> j == k)
      && Descend(v, p[|prefix|..]) == if k in v.fields then Descend(v.fields[k], p[|prefix| + 1..]) else None
  {
    assert p[|prefix|..][1..] == p[|prefix| + 1..];
    assert prefix + [p[|prefix|]] <= p;
  }

  /** `elements` holds a path's keys exactly as the array there does. */
  lemma ElementsFind(name: Value, fields: FieldMap, path: Utf8, key: Utf8)
    requires WellNamedFields(fields)
    ensures Entry(path, key) in IndexRow(name, fields).elements
      <==> HasElement(GetField(fields, SplitPath(path)), key)
  {
    var p := SplitPath(path);
    forall k | k in fields
      ensures Entry(path, key) in Entries(fields[k], k) <==> [k] <= p && HasElement(Descend(fields[k], p[1..]), key)
    {
      EntriesAt(fields[k], [k], path, key);
    }
    assert [p[0]] <= p;
  }
}
