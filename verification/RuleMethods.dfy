/** The methods of lists and maps, and what they keep. */
module RuleMethods {
  import opened Results
  import opened RuleValues
  import opened RuleEval
  import opened RuleLaws

  /** A map's keys in their order, each of them listed. */
  type Listing = set<string> -> seq<string>

  ghost predicate Lists(inOrder: Listing) {
    forall keys: set<string>, k: string :: k in inOrder(keys) <==> k in keys
  }

  predicate HasItem(fl: Floats, items: seq<Val>, x: Val) {
    exists i :: i in items && Equals(fl, i, x)
  }

  function Without(fl: Floats, items: seq<Val>, other: seq<Val>): (kept: seq<Val>)
    ensures forall x :: x in kept <==> x in items && !HasItem(fl, other, x)
  {
    if items == [] then []
    else
      assert forall x :: x in items <==> x == items[0] || x in items[1..];
      (if HasItem(fl, other, items[0]) then [] else [items[0]]) + Without(fl, items[1..], other)
  }

  /** Each item unless an equal one is kept already. */
  function Deduplicated(fl: Floats, kept: seq<Val>, items: seq<Val>): seq<Val>
    decreases |items|
  {
    if items == [] then kept
    else Deduplicated(fl, if HasItem(fl, kept, items[0]) then kept else kept + [items[0]], items[1..])
  }

  function Joined(items: seq<Val>, separator: string): Option<string> {
    if items == [] then Some("")
    else if !items[0].Str? then None
    else
      var rest := Joined(items[1..], separator);
      if rest.None? then None else Some(items[0].s + (if |items| == 1 then "" else separator) + rest.value)
  }

  function Names(keys: seq<string>): (v: Val)
    ensures v.List? && forall x :: x in v.items <==> x.Str? && x.s in keys
  {
    if keys == [] then List([])
    else
      assert forall k :: k in keys <==> k == keys[0] || k in keys[1..];
      List([Str(keys[0])] + Names(keys[1..]).items)
  }

  function Entries(entries: map<string, Val>, keys: seq<string>): (values: seq<Val>)
    requires forall k :: k in keys ==> k in entries
    ensures forall v :: v in values ==> exists k :: k in keys && entries[k] == v
  {
    if keys == [] then [] else [entries[keys[0]]] + Entries(entries, keys[1..])
  }

  function Chosen(keys: seq<string>, wanted: string -> bool): (chosen: seq<string>)
    ensures forall k :: k in chosen <==> k in keys && wanted(k)
  {
    if keys == [] then []
    else
      assert forall k :: k in keys <==> k == keys[0] || k in keys[1..];
      (if wanted(keys[0]) then [keys[0]] else []) + Chosen(keys[1..], wanted)
  }

  const AFFECTED := "affectedKeys"

  /** The four key lists of a difference. */
  function Diff(fl: Floats, inOrder: Listing, a: map<string, Val>, b: map<string, Val>): Val {
    var before, after := inOrder(a.Keys), inOrder(b.Keys);
    var removed := Chosen(before, k => k !in b);
    var changed := Chosen(before, k => k in a && k in b && !Equals(fl, a[k], b[k]));
    var added := Chosen(after, k => k !in a);
    var touched := Chosen(before, k => k !in b || (k in a && !Equals(fl, a[k], b[k])));
    Map(map["addedKeys" := Names(added), "removedKeys" := Names(removed), "changedKeys" := Names(changed),
            AFFECTED := Names(touched + added)])
  }

  function ListMethod(fl: Floats, items: seq<Val>, name: string, argv: seq<Val>): Val {
    if name == "size" && argv == [] then InRange(|items|)
    else if name == "toSet" && argv == [] then List(Deduplicated(fl, [], items))
    else if |argv| != 1 then Undefined
    else if name == "join" then
      if !argv[0].Str? || Joined(items, argv[0].s).None? then Undefined else Str(Joined(items, argv[0].s).value)
    else if !argv[0].List? then Undefined
    else
      var other := argv[0].items;
      if name == "hasAll" then Bool(forall o :: o in other ==> HasItem(fl, items, o))
      else if name == "hasAny" then Bool(exists o :: o in other && HasItem(fl, items, o))
      else if name == "hasOnly" then Bool(forall i :: i in items ==> HasItem(fl, other, i))
      else if name == "concat" then List(items + other)
      else if name == "removeAll" then List(Without(fl, items, other))
      else Undefined
  }

  function MapMethod(fl: Floats, inOrder: Listing, m: map<string, Val>, name: string, argv: seq<Val>): Val {
    if name == "size" && argv == [] then InRange(|m|)
    else if name == "keys" && argv == [] then Names(inOrder(m.Keys))
    else if name == "values" && argv == [] then
      List(Entries(m, Chosen(inOrder(m.Keys), k => k in m)))
    else if name == "get" && |argv| == 2 then
      if !argv[0].Str? then Undefined else if argv[0].s in m then m[argv[0].s] else argv[1]
    else if name == "diff" && |argv| == 1 && argv[0].Map? then Diff(fl, inOrder, m, argv[0].entries)
    else if (name == "addedKeys" || name == "removedKeys" || name == "changedKeys" || name == AFFECTED)
      && argv == [] && AFFECTED in m
    then if name in m then m[name] else List([])
    else Undefined
  }

  /** A machine whose list and map methods are these. */
  function WithCollections(m: Machine, inOrder: Listing): Machine {
    m.(method_ := (v: Val, name: string, argv: seq<Val>) =>
      match v
      case List(items) => ListMethod(m.floats, items, name, argv)
      case Map(entries) => MapMethod(m.floats, inOrder, entries, name, argv)
      case _ => m.method_(v, name, argv))
  }

  // ---- no method buries an error ----

  lemma {:induction false} DeduplicatedFrom(fl: Floats, kept: seq<Val>, items: seq<Val>)
    ensures forall x :: x in Deduplicated(fl, kept, items) ==> x in kept || x in items
    ensures forall x :: x in kept ==> x in Deduplicated(fl, kept, items)
    decreases |items|
  {
    if items != [] {
      DeduplicatedFrom(fl, if HasItem(fl, kept, items[0]) then kept else kept + [items[0]], items[1..]);
      assert forall x :: x in items <==> x == items[0] || x in items[1..];
    }
  }

  lemma ListMethodSolid(fl: Floats, items: seq<Val>, name: string, argv: seq<Val>)
    requires AllDefined(items) && AllDefined(argv)
    ensures Solid(ListMethod(fl, items, name, argv))
  {
    DeduplicatedFrom(fl, [], items);
    if |argv| == 1 && argv[0].List? {
      assert argv[0] in argv;
      assert forall x :: x in items + argv[0].items ==> x in items || x in argv[0].items;
    }
  }

  lemma DiffDefined(fl: Floats, inOrder: Listing, a: map<string, Val>, b: map<string, Val>)
    ensures Defined(Diff(fl, inOrder, a, b))
  {}

  lemma MapMethodSolid(fl: Floats, inOrder: Listing, m: map<string, Val>, name: string, argv: seq<Val>)
    requires Defined(Map(m)) && AllDefined(argv)
    ensures Solid(MapMethod(fl, inOrder, m, name, argv))
  {
    if name == "diff" && |argv| == 1 && argv[0].Map? {
      DiffDefined(fl, inOrder, m, argv[0].entries);
    }
  }

  /** Built-ins other than the methods of lists and maps, and the host, bury no
      error. */
  ghost predicate CleanElsewhere(m: Machine) {
    && (forall v: Val, name, argv :: !v.List? && !v.Map? && Defined(v) && AllDefined(argv) ==> Solid(m.method_(v, name, argv)))
    && (forall name, argv :: AllDefined(argv) ==> Solid(m.global(name, argv)))
    && (forall p, after :: m.getDocument(p, after).Ok? && m.getDocument(p, after).value.Some? ==>
          Solid(m.getDocument(p, after).value.value))
  }

  /** The collections need no assumption: no list or map method hides an error
      inside its result. */
  lemma CollectionsAreClean(m: Machine, inOrder: Listing)
    requires CleanElsewhere(m)
    ensures Clean(WithCollections(m, inOrder))
  {
    var w := WithCollections(m, inOrder);
    forall v, name, argv | Defined(v) && AllDefined(argv)
      ensures Solid(w.method_(v, name, argv))
    {
      match v
      case List(items) => ListMethodSolid(m.floats, items, name, argv);
      case Map(entries) => MapMethodSolid(m.floats, inOrder, entries, name, argv);
      case _ =>
    }
  }

  /** So evaluation with these methods never does. */
  lemma CollectionsSolid(m: Machine, inOrder: Listing, x: Expr, scope: Scope, st: State)
    requires Ready(st) && CleanElsewhere(m) && SolidScope(scope)
    ensures
      var r := Eval(WithCollections(m, inOrder), x, scope, st);
      r.Done? ==> Solid(r.value)
  {
    CollectionsAreClean(m, inOrder);
    EvalSolid(WithCollections(m, inOrder), x, scope, st);
  }

  // ---- what the methods are for ----

  predicate Represented(fl: Floats, all: seq<Val>, x: Val) {
    x in all || HasItem(fl, all, x)
  }

  predicate NoneAlike(fl: Floats, items: seq<Val>) {
    forall i, j :: 0 <= i < j < |items| ==> !Equals(fl, items[i], items[j])
  }

  /** `toSet` keeps one of each: whatever it drops has an equal among the kept,
      and no kept item equals a later one. */
  lemma {:induction false} DeduplicatedMeans(fl: Floats, kept: seq<Val>, items: seq<Val>)
    requires NoneAlike(fl, kept)
    ensures NoneAlike(fl, Deduplicated(fl, kept, items))
    ensures forall x :: x in items ==> Represented(fl, Deduplicated(fl, kept, items), x)
    decreases |items|
  {
    if items != [] {
      var more := if HasItem(fl, kept, items[0]) then kept else kept + [items[0]];
      assert NoneAlike(fl, more);
      DeduplicatedMeans(fl, more, items[1..]);
      DeduplicatedFrom(fl, more, items[1..]);
      var all := Deduplicated(fl, more, items[1..]);
      assert Represented(fl, more, items[0]);
      RepresentedOn(fl, more, all, items[0]);
      assert forall x :: x in items <==> x == items[0] || x in items[1..];
    }
  }

  lemma RepresentedOn(fl: Floats, kept: seq<Val>, all: seq<Val>, x: Val)
    requires Represented(fl, kept, x) && forall k :: k in kept ==> k in all
    ensures Represented(fl, all, x)
  {}

  /** Two maps agree at a key. */
  predicate AgreeAt(fl: Floats, a: map<string, Val>, b: map<string, Val>, k: string) {
    (k in a <==> k in b) && (k in a && k in b ==> Equals(fl, a[k], b[k]))
  }

  lemma AffectedMeans(fl: Floats, inOrder: Listing, a: map<string, Val>, b: map<string, Val>, k: string)
    requires Lists(inOrder)
    ensures
      var d := Diff(fl, inOrder, a, b);
      && d.Map? && AFFECTED in d.entries && d.entries[AFFECTED].List?
      && (Str(k) in d.entries[AFFECTED].items <==> !AgreeAt(fl, a, b, k))
      && (forall x :: x in d.entries[AFFECTED].items ==> x.Str?)
  {}

  lemma NameListed(fl: Floats, names: seq<string>, k: string)
    ensures HasItem(fl, Names(names).items, Str(k)) <==> k in names
  {
    if k in names {
      assert Str(k) in Names(names).items;
    }
  }

  lemma OnlyMeans(fl: Floats, items: seq<Val>, names: seq<string>)
    requires forall x :: x in items ==> x.Str?
    ensures ListMethod(fl, items, "hasOnly", [Names(names)]) == Bool(true)
      <==> forall k :: Str(k) in items ==> k in names
  {
    var others := Names(names).items;
    assert ListMethod(fl, items, "hasOnly", [List(others)]) == Bool(forall i :: i in items ==> HasItem(fl, others, i));
    forall k: string
      ensures HasItem(fl, others, Str(k)) <==> k in names
    {
      NameListed(fl, names, k);
    }
    forall x | x in items
      ensures x == Str(x.s)
    {}
  }

  lemma DiffMethods(fl: Floats, inOrder: Listing, a: map<string, Val>, b: map<string, Val>)
    ensures MapMethod(fl, inOrder, a, "diff", [Map(b)]) == Diff(fl, inOrder, a, b)
    ensures MapMethod(fl, inOrder, Diff(fl, inOrder, a, b).entries, AFFECTED, [])
         == Diff(fl, inOrder, a, b).entries[AFFECTED]
  {}

  /** The idiom that guards an update, `after.diff(before).affectedKeys()
      .hasOnly(names)`, is true exactly when the two maps agree at every key
      outside the names. */
  lemma HasOnlyMeans(fl: Floats, inOrder: Listing, a: map<string, Val>, b: map<string, Val>, names: seq<string>)
    requires Lists(inOrder)
    ensures
      var d := MapMethod(fl, inOrder, a, "diff", [Map(b)]);
      d.Map?
      && var affected := MapMethod(fl, inOrder, d.entries, AFFECTED, []);
         affected.List?
         && (ListMethod(fl, affected.items, "hasOnly", [Names(names)]) == Bool(true)
             <==> forall k :: k !in names ==> AgreeAt(fl, a, b, k))
  {
    DiffMethods(fl, inOrder, a, b);
    AffectedMeans(fl, inOrder, a, b, "");
    var affected := Diff(fl, inOrder, a, b).entries[AFFECTED].items;
    forall k: string
      ensures Str(k) in affected <==> !AgreeAt(fl, a, b, k)
    {
      AffectedMeans(fl, inOrder, a, b, k);
    }
    OnlyMeans(fl, affected, names);
  }
}
