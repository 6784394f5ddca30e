/** Building a document's index columns: nodes are filled entry by entry, in
    whatever order the map gives them, and array entries are pushed along the
    way. */
module Indexer {
  import opened Bytes
  import opened Values
  import opened KeyOrdering
  import opened Fields
  import opened Mirror

  function Pushed(entries: seq<Entry>): set<Entry> {
    set e | e in entries
  }

  /** The children done so far, over the node's own key. */
  function PartNode(v: Value, done: set<Utf8>): map<Utf8, Bson>
    requires v.Map? && done <= v.fields.Keys
  {
    map[VALUE_KEY := Str(IndexString(v))] + map k | k in done :: MirrorNode(v.fields[k])
  }

  function PartEntries(fields: FieldMap, prefix: Utf8, done: set<Utf8>): set<Entry>
    requires done <= fields.Keys
  {
    set k, e | k in done && e in Entries(fields[k], prefix + k) :: e
  }

  lemma NodeGrows(v: Value, done: set<Utf8>, k: Utf8)
    requires v.Map? && done <= v.fields.Keys && k in v.fields
    ensures PartNode(v, done)[k := MirrorNode(v.fields[k])] == PartNode(v, done + {k})
  {}

  function PartFields(fields: FieldMap, done: set<Utf8>): map<Utf8, Bson>
    requires done <= fields.Keys
  {
    map k | k in done :: MirrorNode(fields[k])
  }

  lemma FieldsGrow(fields: FieldMap, done: set<Utf8>, k: Utf8)
    requires done <= fields.Keys && k in fields
    ensures PartFields(fields, done)[k := MirrorNode(fields[k])] == PartFields(fields, done + {k})
  {}

  lemma EntriesGrow(fields: FieldMap, prefix: Utf8, done: set<Utf8>, k: Utf8)
    requires done <= fields.Keys && k in fields
    ensures PartEntries(fields, prefix, done) + Entries(fields[k], prefix + k)
         == PartEntries(fields, prefix, done + {k})
  {
    var more := PartEntries(fields, prefix, done + {k});
    forall e | e in Entries(fields[k], prefix + k)
      ensures e in more
    {
      assert k in done + {k};
    }
    forall e | e in PartEntries(fields, prefix, done)
      ensures e in more
    {
      var j :| j in done && e in Entries(fields[j], prefix + j);
      assert j in done + {k};
    }
  }

  lemma AllDone(v: Value, path: Utf8)
    requires v.Map?
    ensures MirrorNode(v) == Doc(PartNode(v, v.fields.Keys))
    ensures Entries(v, path) == PartEntries(v.fields, path + [DOT], v.fields.Keys)
  {
    var all := PartEntries(v.fields, path + [DOT], v.fields.Keys);
    forall e | e in Entries(v, path)
      ensures e in all
    {
      var k :| k in v.fields && e in Entries(v.fields[k], path + [DOT] + k);
    }
    forall e | e in all
      ensures e in Entries(v, path)
    {
      var k :| k in v.fields.Keys && e in Entries(v.fields[k], path + [DOT] + k);
    }
  }

  lemma TopEntries(name: Value, fields: FieldMap)
    ensures IndexRow(name, fields).elements == PartEntries(fields, [], fields.Keys)
  {
    var all := PartEntries(fields, [], fields.Keys);
    forall e | e in IndexRow(name, fields).elements
      ensures e in all
    {
      var k :| k in fields && e in Entries(fields[k], k);
      assert [] + k == k;
    }
    forall e | e in all
      ensures e in IndexRow(name, fields).elements
    {
      var k :| k in fields.Keys && e in Entries(fields[k], [] + k);
      assert [] + k == k;
    }
  }

  lemma ElementPushed(values: seq<Value>, i: nat, path: Utf8)
    requires i < |values|
    ensures ElementEntries(values[..i + 1], path)
         == ElementEntries(values[..i], path) + {Entry(path, IndexString(values[i]))}
  {
    assert values[..i + 1] == values[..i] + [values[i]];
    forall e | e in ElementEntries(values[..i], path)
      ensures e in ElementEntries(values[..i + 1], path)
    {
      var x :| x in values[..i] && e == Entry(path, IndexString(x));
      assert x in values[..i + 1];
    }
  }

  lemma PushedOne(entries: seq<Entry>, e: Entry)
    ensures Pushed(entries + [e]) == Pushed(entries) + {e}
  {}

  lemma Regroup(before: set<Entry>, x: set<Entry>, y: set<Entry>)
    ensures before + x + y == before + (x + y)
  {}

  class Indexer {
    var elements: seq<Entry>

    constructor ()
      ensures elements == []
    {
      elements := [];
    }

    method PushElements(values: seq<Value>, path: Utf8)
      modifies this
      ensures Pushed(elements) == Pushed(old(elements)) + ElementEntries(values, path)
    {
      var i := 0;
      while i < |values|
        invariant 0 <= i <= |values|
        invariant Pushed(elements) == Pushed(old(elements)) + ElementEntries(values[..i], path)
      {
        var e := Entry(path, IndexString(values[i]));
        PushedOne(elements, e);
        ElementPushed(values, i, path);
        Regroup(Pushed(old(elements)), ElementEntries(values[..i], path), {e});
        elements := elements + [e];
        i := i + 1;
      }
      assert values[..i] == values;
    }

    /** One node of the mirror; the entries of every array below it are pushed. */
    method KeyNode(v: Value, path: Utf8) returns (node: Bson)
      modifies this
      ensures node == MirrorNode(v)
      ensures Pushed(elements) == Pushed(old(elements)) + Entries(v, path)
      decreases v, 1
    {
      if v.Map? {
        node := MapNode(v, path);
        return;
      }
      if v.Array? {
        PushElements(v.values, path);
      }
      return Doc(map[VALUE_KEY := Str(IndexString(v))]);
    }

    method MapNode(v: Value, path: Utf8) returns (node: Bson)
      requires v.Map?
      modifies this
      ensures node == MirrorNode(v)
      ensures Pushed(elements) == Pushed(old(elements)) + Entries(v, path)
      decreases v, 0
    {
      var columns, waiting := map[VALUE_KEY := Str(IndexString(v))], v.fields.Keys;
      ghost var done: set<Utf8> := {};
      while waiting != {}
        invariant waiting !! done && waiting + done == v.fields.Keys
        invariant columns == PartNode(v, done)
        invariant Pushed(elements) == Pushed(old(elements)) + PartEntries(v.fields, path + [DOT], done)
        decreases |waiting|
      {
        var k :| k in waiting;
        NodeGrows(v, done, k);
        EntriesGrow(v.fields, path + [DOT], done, k);
        Regroup(Pushed(old(elements)), PartEntries(v.fields, path + [DOT], done),
                Entries(v.fields[k], path + [DOT] + k));
        var child := KeyNode(v.fields[k], path + [DOT] + k);
        columns := columns[k := child];
        waiting, done := waiting - {k}, done + {k};
      }
      assert done == v.fields.Keys;
      AllDone(v, path);
      return Doc(columns);
    }

    method FieldNodes(fields: FieldMap) returns (keys: map<Utf8, Bson>)
      requires elements == []
      modifies this
      ensures keys == MirrorFields(fields)
      ensures Pushed(elements) == PartEntries(fields, [], fields.Keys)
    {
      var waiting := fields.Keys;
      keys := map[];
      ghost var done: set<Utf8> := {};
      while waiting != {}
        invariant waiting !! done && waiting + done == fields.Keys
        invariant keys == PartFields(fields, done)
        invariant Pushed(elements) == PartEntries(fields, [], done)
        decreases |waiting|
      {
        var k :| k in waiting;
        FieldsGrow(fields, done, k);
        EntriesGrow(fields, [], done, k);
        assert [] + k == k;
        var node := KeyNode(fields[k], k);
        keys := keys[k := node];
        waiting, done := waiting - {k}, done + {k};
      }
      assert done == fields.Keys;
    }
  }

  method IndexDocument(name: Value, fields: FieldMap) returns (columns: map<Utf8, Bson>, elements: seq<Entry>)
    ensures Row(columns, Pushed(elements)) == IndexRow(name, fields)
  {
    var indexer := new Indexer();
    var keys := indexer.FieldNodes(fields);
    TopEntries(name, fields);
    columns := map[KEYS := Doc(keys), NAME_KEY := Str(IndexString(name))];
    elements := indexer.elements;
  }
}
