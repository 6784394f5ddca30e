/** What holds of every evaluation: logic is strong Kleene, errors never hide
    inside values, and defining what was undefined cannot change a verdict. */
module RuleLaws {
  import opened Bits
  import opened Results
  import opened RuleValues
  import opened RuleEval

  // ---- strong Kleene logic ----

  /** A boolean outcome, or none: an error, or a value of another type. */
  datatype Truth = True | False | Unknown

  function TruthOf(v: Val): Truth {
    if v == Bool(true) then True else if v == Bool(false) then False else Unknown
  }

  function KleeneOr(a: Truth, b: Truth): Truth {
    if a.True? || b.True? then True else if a.False? && b.False? then False else Unknown
  }

  function KleeneAnd(a: Truth, b: Truth): Truth {
    if a.False? || b.False? then False else if a.True? && b.True? then True else Unknown
  }

  /** `&&` and `||` are Kleene's connectives on outcomes. The right operand is
      run where the left does not decide, and then in the state left behind. */
  lemma LogicIsKleene(m: Machine, l: Expr, r: Expr, scope: Scope, st: State, isOr: bool)
    requires Ready(st) && Logical(m, l, r, scope, st, isOr).Done?
    ensures
      var left, o := Eval(m, l, scope, st), Logical(m, l, r, scope, st, isOr);
      && left.Done?
      && (TruthOf(left.value) == TruthOf(Bool(isOr)) ==> TruthOf(o.value) == TruthOf(Bool(isOr)))
      && (TruthOf(left.value) != TruthOf(Bool(isOr)) ==>
            var right := Eval(m, r, scope, Watched(left.st, left.value));
            && right.Done?
            && TruthOf(o.value) == if isOr then KleeneOr(TruthOf(left.value), TruthOf(right.value))
                                   else KleeneAnd(TruthOf(left.value), TruthOf(right.value)))
  {}

  // ---- errors never hide inside values ----

  ghost predicate AllDefined(values: seq<Val>) {
    forall v :: v in values ==> Defined(v)
  }

  /** Built-ins and the host bury no error either. */
  ghost predicate Clean(m: Machine) {
    && (forall v, name, argv :: Defined(v) && AllDefined(argv) ==> Solid(m.method_(v, name, argv)))
    && (forall name, argv :: AllDefined(argv) ==> Solid(m.global(name, argv)))
    && (forall p, after :: m.getDocument(p, after).Ok? && m.getDocument(p, after).value.Some? ==>
          Solid(m.getDocument(p, after).value.value))
  }

  ghost predicate SolidScope(scope: Scope) {
    forall b :: b in scope ==> Solid(b.1)
  }

  lemma {:induction false} LookupSolid(scope: Scope, name: string)
    requires SolidScope(scope) && Lookup(scope, name).Some?
    ensures Solid(Lookup(scope, name).value)
  {
    if scope[|scope| - 1].0 != name {
      LookupSolid(scope[..|scope| - 1], name);
    }
  }

  /** No result, of any expression over any solid variables, has an error
      inside a list or a map. */
  lemma {:induction false} EvalSolid(m: Machine, x: Expr, scope: Scope, st: State)
    requires Ready(st) && Clean(m) && SolidScope(scope)
    ensures Eval(m, x, scope, st).Done? ==> Solid(Eval(m, x, scope, st).value)
    decreases MAX_STEPS - st.steps + 1, 0, 0
  {
    var next := st.(steps := st.steps + 1);
    if next.steps <= MAX_STEPS {
      NodeSolid(m, x, scope, next);
    }
  }

  lemma {:induction false} NodeSolid(m: Machine, x: Expr, scope: Scope, st: State)
    requires Ready(st) && Clean(m) && SolidScope(scope)
    ensures Node(m, x, scope, st).Done? ==> Solid(Node(m, x, scope, st).value)
    decreases MAX_STEPS - st.steps + 1, 3, 0
  {
    match x
    case ListOf(items) => ManySolid(m, items, scope, st);
    case MapOf(entries) => EntriesSolid(m, entries, map[], scope, st);
    case PathOf(parts) => PartsSolid(m, parts, [], scope, st);
    case Ident(name) =>
      if Lookup(scope, name).Some? {
        LookupSolid(scope, name);
      }
    case MemberOf(target, field) =>
      EvalSolid(m, target, scope, st);
      var base := Eval(m, target, scope, st);
      if base.Done? && base.value.Map? {
        AccessSolid(base.value, Null, field, 0, None);
      }
    case IndexOf(target, index) =>
      ManySolid(m, [target, index], scope, st);
      var both := Many_(m, [target, index], scope, st);
      if both.All? {
        AccessSolid(both.values[0], both.values[1], "", 0, None);
      }
    case RangeOf(target, lo, hi) => RangeSolid(m, target, lo, hi, scope, st);
    case Binary(op, l, r) =>
      if op.And? || op.Or? {
        LogicalSolid(m, l, r, scope, st, op.Or?);
      } else {
        ManySolid(m, [l, r], scope, st);
        BinarySolid(m, op, l, r, scope, st);
      }
    case Ternary(cond, yes, no) =>
      var c := Eval(m, cond, scope, st);
      if c.Done? && c.value.Bool? {
        EvalSolid(m, if c.value.b then yes else no, scope, c.st);
      }
    case Call(receiver, name, args) => CallSolid(m, receiver, name, args, scope, st);
    case _ =>
  }

  lemma {:induction false} ManySolid(m: Machine, items: seq<Expr>, scope: Scope, st: State)
    requires Ready(st) && Clean(m) && SolidScope(scope)
    ensures
      var r := Many_(m, items, scope, st);
      && (r.All? ==> AllDefined(r.values))
      && (r.Stopped? && r.outcome.Done? ==> r.outcome.value == Undefined)
    decreases MAX_STEPS - st.steps + 1, 1, |items|
  {
    if items != [] {
      EvalSolid(m, items[0], scope, st);
      var first := Eval(m, items[0], scope, st);
      if first.Done? && !first.value.Undefined? {
        ManySolid(m, items[1..], scope, first.st);
      }
    }
  }

  lemma {:induction false} EntriesSolid(m: Machine, entries: seq<(string, Expr)>, done: map<string, Val>, scope: Scope, st: State)
    requires Ready(st) && Clean(m) && SolidScope(scope) && Defined(Map(done))
    ensures
      var r := Entries(m, entries, done, scope, st);
      r.Done? ==> Solid(r.value)
    decreases MAX_STEPS - st.steps + 1, 1, |entries|
  {
    if entries != [] {
      EvalSolid(m, entries[0].1, scope, st);
      var first := Eval(m, entries[0].1, scope, st);
      if first.Done? && !first.value.Undefined? {
        EntriesSolid(m, entries[1..], done[entries[0].0 := first.value], scope, first.st);
      }
    }
  }

  lemma {:induction false} PartsSolid(m: Machine, parts: seq<PathPart>, done: seq<string>, scope: Scope, st: State)
    requires Ready(st)
    ensures
      var r := Parts(m, parts, done, scope, st);
      r.Done? ==> Solid(r.value)
    decreases |parts|
  {
    if parts != [] {
      match parts[0]
      case Static(name) => PartsSolid(m, parts[1..], done + [name], scope, st);
      case Splice(x) =>
        var v := Eval(m, x, scope, st);
        if v.Done? && v.value.Str? {
          PartsSolid(m, parts[1..], done + [v.value.s], scope, v.st);
        } else if v.Done? && v.value.Path? {
          PartsSolid(m, parts[1..], done + v.value.segments, scope, v.st);
        }
    }
  }

  lemma {:induction false} RangeSolid(m: Machine, target: Expr, lo: Option<Expr>, hi: Option<Expr>, scope: Scope, st: State)
    requires Ready(st) && Clean(m) && SolidScope(scope)
    ensures
      var r := RangeNode(m, target, lo, hi, scope, st);
      r.Done? ==> Solid(r.value)
    decreases MAX_STEPS - st.steps + 1, 2, 0
  {
    EvalSolid(m, target, scope, st);
    var base := Eval(m, target, scope, st);
    if base.Done? && !base.value.Undefined? {
      var l := BoundOf(m, lo, scope, base.st);
      var h := if l.Bound? then BoundOf(m, hi, scope, l.st) else l;
      if l.Bound? && h.Bound? {
        AccessSolid(base.value, Null, "", if l.at.Some? then l.at.value else 0, h.at);
      }
    }
  }

  lemma BinarySolid(m: Machine, op: BinOp, l: Expr, r: Expr, scope: Scope, st: State)
    requires Ready(st)
    requires
      var both := Many_(m, [l, r], scope, st);
      both.All? ==> AllDefined(both.values)
    requires
      var both := Many_(m, [l, r], scope, st);
      both.Stopped? && both.outcome.Done? ==> both.outcome.value == Undefined
    ensures
      var o := BinaryNode(m, op, l, r, scope, st);
      o.Done? ==> Solid(o.value)
  {
    var both := Many_(m, [l, r], scope, st);
    if both.All? && op.Arith? {
      ArithmeticSolid(m.floats, op.arithmetic, both.values[0], both.values[1]);
    }
  }

  lemma {:induction false} LogicalSolid(m: Machine, l: Expr, r: Expr, scope: Scope, st: State, isOr: bool)
    requires Ready(st) && Clean(m) && SolidScope(scope)
    ensures
      var o := Logical(m, l, r, scope, st, isOr);
      o.Done? ==> Solid(o.value)
    decreases MAX_STEPS - st.steps + 1, 2, 0
  {
    EvalSolid(m, l, scope, st);
    var left := Eval(m, l, scope, st);
    if left.Done? && left.value != Bool(isOr) {
      EvalSolid(m, r, scope, Watched(left.st, left.value));
    }
  }

  lemma {:induction false} CallSolid(m: Machine, receiver: Option<Expr>, name: string, args: seq<Expr>, scope: Scope, st: State)
    requires Ready(st) && Clean(m) && SolidScope(scope)
    ensures
      var r := CallNode(m, receiver, name, args, scope, st);
      r.Done? ==> Solid(r.value)
    decreases MAX_STEPS - st.steps + 1, 2, 0
  {
    if receiver.Some? && !Namespaced(receiver, scope) {
      ManySolid(m, [receiver.value] + args, scope, st);
      var all := Many_(m, [receiver.value] + args, scope, st);
      if all.All? {
        assert all.values[0] in all.values;
        assert AllDefined(all.values[1..]);
      }
    } else {
      ManySolid(m, args, scope, st);
      var argv := Many_(m, args, scope, st);
      if argv.All? {
        if receiver.None? && FindFunction(m.functions, name).Some? {
          UserSolid(m, FindFunction(m.functions, name).value, argv.values, scope, argv.st);
        } else {
          GlobalSolid(m, if receiver.Some? then receiver.value.name + "." + name else name, argv.values, argv.st);
        }
      }
    }
  }

  lemma GlobalSolid(m: Machine, name: string, argv: seq<Val>, st: State)
    requires Ready(st) && Clean(m) && AllDefined(argv)
    ensures
      var r := GlobalCall(m, name, argv, st);
      r.Done? ==> Solid(r.value)
  {}

  lemma {:induction false} InheritedSolid(scope: Scope, params: seq<string>)
    requires SolidScope(scope)
    ensures SolidScope(Inherited(scope, params))
  {
    if scope != [] {
      InheritedSolid(scope[..|scope| - 1], params);
      assert scope[|scope| - 1] in scope;
    }
  }

  lemma {:induction false} BoundSolid(params: seq<string>, argv: seq<Val>)
    requires |params| == |argv| && AllDefined(argv)
    ensures SolidScope(Bound_(params, argv))
  {
    if params != [] {
      assert argv[0] in argv;
      BoundSolid(params[1..], argv[1..]);
    }
  }

  lemma {:induction false} LetsSolid(m: Machine, lets: seq<(string, Expr)>, scope: Scope, st: State)
    requires Ready(st) && Clean(m) && SolidScope(scope)
    ensures
      var r := Lets(m, lets, scope, st);
      r.Let? ==> SolidScope(r.scope)
    decreases MAX_STEPS - st.steps + 1, 1, |lets|
  {
    if lets != [] {
      EvalSolid(m, lets[0].1, scope, st);
      var v := Eval(m, lets[0].1, scope, st);
      if v.Done? {
        LetsSolid(m, lets[1..], scope + [(lets[0].0, v.value)], v.st);
      }
    }
  }

  lemma {:induction false} UserSolid(m: Machine, decl: FunctionDecl, argv: seq<Val>, scope: Scope, st: State)
    requires Ready(st) && Clean(m) && SolidScope(scope) && AllDefined(argv)
    ensures
      var r := UserCall(m, decl, argv, scope, st);
      r.Done? ==> Solid(r.value)
    decreases MAX_STEPS - st.steps + 1, 1, |decl.lets| + 1
  {
    if |decl.params| == |argv| && st.depth + 1 <= MAX_CALL_DEPTH {
      InheritedSolid(scope, decl.params);
      BoundSolid(decl.params, argv);
      var inner := Inherited(scope, decl.params) + Bound_(decl.params, argv);
      LetsSolid(m, decl.lets, inner, st.(depth := st.depth + 1));
      var lets := Lets(m, decl.lets, inner, st.(depth := st.depth + 1));
      if lets.Let? {
        EvalSolid(m, decl.body, lets.scope, lets.st);
      }
    }
  }
}
