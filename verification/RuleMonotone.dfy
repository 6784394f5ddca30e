/** Defining what was undefined: two runs of one expression, the second with
    values where the first had errors. Where no logical operand was a
    non-boolean value, a boolean verdict of the first run stands. */
module RuleMonotone {
  import opened Bits
  import opened Results
  import opened RuleValues
  import opened RuleEval

  /** `u` is an error that may have become anything, or the same value. */
  predicate Below(u: Val, v: Val) {
    u.Undefined? || u == v
  }

  ghost predicate ScopeBelow(u: Scope, v: Scope) {
    |u| == |v| && forall i :: 0 <= i < |u| ==> u[i].0 == v[i].0 && Below(u[i].1, v[i].1)
  }

  /** How two finished runs relate, if the first mixed nothing into logic. */
  predicate Agree(a: Outcome, b: Outcome) {
    a.Done? && !a.st.mixed && b.Done? ==> Below(a.value, b.value)
  }

  /** Lists: all values of the first run are those of the second. */
  predicate ManyAgree(a: Many, b: Many) {
    && (a.All? && !a.st.mixed && b.All? ==> a.values == b.values)
    && (a.All? && !a.st.mixed && b.Stopped? ==> b.outcome.Fatal?)
  }

  lemma {:induction false} LookupBelow(u: Scope, v: Scope, name: string)
    requires ScopeBelow(u, v)
    ensures Lookup(u, name).Some? <==> Lookup(v, name).Some?
    ensures Lookup(u, name).Some? ==> Below(Lookup(u, name).value, Lookup(v, name).value)
  {
    if u != [] {
      LookupBelow(u[..|u| - 1], v[..|v| - 1], name);
    }
  }

  lemma {:induction false} EvalAgree(m: Machine, x: Expr, u: Scope, v: Scope, s: State, t: State)
    requires Ready(s) && Ready(t) && ScopeBelow(u, v)
    ensures Agree(Eval(m, x, u, s), Eval(m, x, v, t))
    decreases MAX_STEPS - s.steps + 1, 0, 0
  {
    var next, other := s.(steps := s.steps + 1), t.(steps := t.steps + 1);
    if next.steps <= MAX_STEPS && other.steps <= MAX_STEPS {
      NodeAgree(m, x, u, v, next, other);
    }
  }

  lemma {:induction false} NodeAgree(m: Machine, x: Expr, u: Scope, v: Scope, s: State, t: State)
    requires Ready(s) && Ready(t) && ScopeBelow(u, v)
    ensures Agree(Node(m, x, u, s), Node(m, x, v, t))
    decreases MAX_STEPS - s.steps + 1, 3, 0
  {
    match x
    case Literal(_) =>
    case ListOf(items) => ManyValuesAgree(m, items, u, v, s, t);
    case MapOf(entries) => EntriesAgree(m, entries, map[], u, v, s, t);
    case PathOf(parts) => PartsAgree(m, parts, [], u, v, s, t);
    case Ident(name) => LookupBelow(u, v, name);
    case MemberOf(target, _) => EvalAgree(m, target, u, v, s, t);
    case IndexOf(target, index) => ManyValuesAgree(m, [target, index], u, v, s, t);
    case RangeOf(target, lo, hi) => RangeAgree(m, target, lo, hi, u, v, s, t);
    case Unary(_, operand) => EvalAgree(m, operand, u, v, s, t);
    case Binary(op, l, r) =>
      if op.And? || op.Or? {
        LogicalAgree(m, l, r, u, v, s, t, op.Or?);
      } else {
        ManyValuesAgree(m, [l, r], u, v, s, t);
      }
    case Ternary(cond, yes, no) => TernaryAgree(m, cond, yes, no, u, v, s, t);
    case Is(operand, _) => EvalAgree(m, operand, u, v, s, t);
    case Call(receiver, name, args) => CallAgree(m, receiver, name, args, u, v, s, t);
  }

  lemma {:induction false} ManyValuesAgree(m: Machine, items: seq<Expr>, u: Scope, v: Scope, s: State, t: State)
    requires Ready(s) && Ready(t) && ScopeBelow(u, v)
    ensures ManyAgree(Many_(m, items, u, s), Many_(m, items, v, t))
    decreases MAX_STEPS - s.steps + 1, 1, |items|
  {
    if items != [] {
      EvalAgree(m, items[0], u, v, s, t);
      var a, b := Eval(m, items[0], u, s), Eval(m, items[0], v, t);
      if a.Done? && !a.value.Undefined? && b.Done? && !b.value.Undefined? {
        ManyValuesAgree(m, items[1..], u, v, a.st, b.st);
      }
    }
  }

  lemma {:induction false} EntriesAgree(m: Machine, entries: seq<(string, Expr)>, done: map<string, Val>,
                                        u: Scope, v: Scope, s: State, t: State)
    requires Ready(s) && Ready(t) && ScopeBelow(u, v)
    ensures Agree(Entries(m, entries, done, u, s), Entries(m, entries, done, v, t))
    decreases MAX_STEPS - s.steps + 1, 1, |entries|
  {
    if entries != [] {
      EvalAgree(m, entries[0].1, u, v, s, t);
      var a, b := Eval(m, entries[0].1, u, s), Eval(m, entries[0].1, v, t);
      if a.Done? && !a.value.Undefined? && b.Done? && a.value == b.value {
        EntriesAgree(m, entries[1..], done[entries[0].0 := a.value], u, v, a.st, b.st);
      }
    }
  }

  lemma {:induction false} PartsAgree(m: Machine, parts: seq<PathPart>, done: seq<string>,
                                      u: Scope, v: Scope, s: State, t: State)
    requires Ready(s) && Ready(t) && ScopeBelow(u, v)
    ensures Agree(Parts(m, parts, done, u, s), Parts(m, parts, done, v, t))
    decreases MAX_STEPS - s.steps + 1, 1, |parts|
  {
    if parts != [] {
      match parts[0]
      case Static(name) => PartsAgree(m, parts[1..], done + [name], u, v, s, t);
      case Splice(x) =>
        EvalAgree(m, x, u, v, s, t);
        var a, b := Eval(m, x, u, s), Eval(m, x, v, t);
        if a.Done? && b.Done? && a.value == b.value {
          if a.value.Str? {
            PartsAgree(m, parts[1..], done + [a.value.s], u, v, a.st, b.st);
          } else if a.value.Path? {
            PartsAgree(m, parts[1..], done + a.value.segments, u, v, a.st, b.st);
          }
        }
    }
  }

  predicate BoundAgree(a: BoundResult, b: BoundResult) {
    && (a.Bound? && !a.st.mixed && b.Bound? ==> a.at == b.at)
    && (a.Bound? && !a.st.mixed && b.Failed? ==> b.outcome.Fatal?)
  }

  lemma {:induction false} BoundsAgree(m: Machine, x: Option<Expr>, u: Scope, v: Scope, s: State, t: State)
    requires Ready(s) && Ready(t) && ScopeBelow(u, v)
    ensures BoundAgree(BoundOf(m, x, u, s), BoundOf(m, x, v, t))
    decreases MAX_STEPS - s.steps + 1, 1, 0
  {
    if x.Some? {
      EvalAgree(m, x.value, u, v, s, t);
    }
  }

  lemma {:induction false} RangeAgree(m: Machine, target: Expr, lo: Option<Expr>, hi: Option<Expr>,
                                      u: Scope, v: Scope, s: State, t: State)
    requires Ready(s) && Ready(t) && ScopeBelow(u, v)
    ensures Agree(RangeNode(m, target, lo, hi, u, s), RangeNode(m, target, lo, hi, v, t))
    decreases MAX_STEPS - s.steps + 1, 2, 0
  {
    EvalAgree(m, target, u, v, s, t);
    var a, b := Eval(m, target, u, s), Eval(m, target, v, t);
    if a.Done? && b.Done? && a.value == b.value {
      SlicedAgree(m, a.value, lo, hi, u, v, a.st, b.st);
    }
  }

  lemma {:induction false} SlicedAgree(m: Machine, base: Val, lo: Option<Expr>, hi: Option<Expr>,
                                       u: Scope, v: Scope, s: State, t: State)
    requires Ready(s) && Ready(t) && ScopeBelow(u, v)
    ensures Agree(Sliced(m, base, lo, hi, u, s), Sliced(m, base, lo, hi, v, t))
    decreases MAX_STEPS - s.steps + 1, 2, 0
  {
    BoundsAgree(m, lo, u, v, s, t);
    var a, b := BoundOf(m, lo, u, s), BoundOf(m, lo, v, t);
    if a.Bound? && b.Bound? {
      BoundsAgree(m, hi, u, v, a.st, b.st);
    }
  }

  /** On booleans and errors, absorption is monotone; this is where a value of
      another type would break it. */
  lemma AbsorbedBelow(l: Val, r: Val, x: Val, y: Val, isOr: bool)
    requires BoolOrError(l) && BoolOrError(r) && Below(l, x) && Below(r, y)
    ensures Below(Absorbed(l, r, isOr), Absorbed(x, y, isOr))
    ensures l != Bool(isOr) && x == Bool(isOr) ==> Below(Absorbed(l, r, isOr), x)
  {}

  /** The parts of a logical run that does not stop at its left operand. */
  lemma LogicalParts(m: Machine, l: Expr, r: Expr, u: Scope, s: State, isOr: bool)
    requires Ready(s) && Logical(m, l, r, u, s, isOr).Done?
    ensures
      var a, o := Eval(m, l, u, s), Logical(m, l, r, u, s, isOr);
      && a.Done?
      && (a.value == Bool(isOr) ==> o == a)
      && (a.value != Bool(isOr) ==>
            var c := Eval(m, r, u, Watched(a.st, a.value));
            && c.Done? && o.value == Absorbed(a.value, c.value, isOr)
            && (!o.st.mixed ==> !c.st.mixed && !a.st.mixed && BoolOrError(a.value) && BoolOrError(c.value)))
  {}

  lemma {:induction false} LogicalAgree(m: Machine, l: Expr, r: Expr, u: Scope, v: Scope, s: State, t: State, isOr: bool)
    requires Ready(s) && Ready(t) && ScopeBelow(u, v)
    ensures Agree(Logical(m, l, r, u, s, isOr), Logical(m, l, r, v, t, isOr))
    decreases MAX_STEPS - s.steps + 1, 2, 0
  {
    var o, p := Logical(m, l, r, u, s, isOr), Logical(m, l, r, v, t, isOr);
    if o.Done? && !o.st.mixed && p.Done? {
      LogicalParts(m, l, r, u, s, isOr);
      LogicalParts(m, l, r, v, t, isOr);
      EvalAgree(m, l, u, v, s, t);
      var a, b := Eval(m, l, u, s), Eval(m, l, v, t);
      if a.value != Bool(isOr) {
        var c := Eval(m, r, u, Watched(a.st, a.value));
        if b.value == Bool(isOr) {
          AbsorbedBelow(a.value, c.value, b.value, c.value, isOr);
        } else {
          EvalAgree(m, r, u, v, Watched(a.st, a.value), Watched(b.st, b.value));
          AbsorbedBelow(a.value, c.value, b.value, Eval(m, r, v, Watched(b.st, b.value)).value, isOr);
        }
      }
    }
  }

  lemma {:induction false} TernaryAgree(m: Machine, cond: Expr, yes: Expr, no: Expr, u: Scope, v: Scope, s: State, t: State)
    requires Ready(s) && Ready(t) && ScopeBelow(u, v)
    ensures Agree(TernaryNode(m, cond, yes, no, u, s), TernaryNode(m, cond, yes, no, v, t))
    decreases MAX_STEPS - s.steps + 1, 2, 0
  {
    EvalAgree(m, cond, u, v, s, t);
    var a, b := Eval(m, cond, u, s), Eval(m, cond, v, t);
    if a.Done? && a.value.Bool? && b.Done? && b.value == a.value {
      var branch := if a.value.b then yes else no;
      EvalAgree(m, branch, u, v, a.st, b.st);
      TernaryTakes(m, cond, yes, no, u, s, a);
      TernaryTakes(m, cond, yes, no, v, t, b);
    } else {
      TernaryStops(m, cond, yes, no, u, v, s, t, a, b);
    }
  }

  lemma TernaryTakes(m: Machine, cond: Expr, yes: Expr, no: Expr, scope: Scope, st: State, c: Outcome)
    requires Ready(st) && c == Eval(m, cond, scope, st) && c.Done? && c.value.Bool?
    ensures TernaryNode(m, cond, yes, no, scope, st) == Eval(m, if c.value.b then yes else no, scope, c.st)
  {}

  lemma TernaryStops(m: Machine, cond: Expr, yes: Expr, no: Expr, u: Scope, v: Scope, s: State, t: State, a: Outcome,
                     b: Outcome)
    requires Ready(s) && Ready(t) && a == Eval(m, cond, u, s) && b == Eval(m, cond, v, t) && Agree(a, b)
    requires !(a.Done? && a.value.Bool? && b.Done? && b.value == a.value)
    ensures Agree(TernaryNode(m, cond, yes, no, u, s), TernaryNode(m, cond, yes, no, v, t))
  {
    if a.Done? && a.value.Bool? {
      TernaryTakes(m, cond, yes, no, u, s, a);
    }
  }

  lemma {:induction false} CallAgree(m: Machine, receiver: Option<Expr>, name: string, args: seq<Expr>,
                                     u: Scope, v: Scope, s: State, t: State)
    requires Ready(s) && Ready(t) && ScopeBelow(u, v)
    ensures Agree(CallNode(m, receiver, name, args, u, s), CallNode(m, receiver, name, args, v, t))
    decreases MAX_STEPS - s.steps + 1, 2, 0
  {
    if receiver.Some? && receiver.value.Ident? {
      LookupBelow(u, v, receiver.value.name);
    }
    assert Namespaced(receiver, u) <==> Namespaced(receiver, v);
    if receiver.Some? && !Namespaced(receiver, u) {
      ManyValuesAgree(m, [receiver.value] + args, u, v, s, t);
    } else {
      ManyValuesAgree(m, args, u, v, s, t);
      var a, b := Many_(m, args, u, s), Many_(m, args, v, t);
      if receiver.None? && a.All? && b.All? && a.values == b.values && FindFunction(m.functions, name).Some? {
        UserAgree(m, FindFunction(m.functions, name).value, a.values, u, v, a.st, b.st);
      }
    }
  }

  lemma {:induction false} InheritedBelow(u: Scope, v: Scope, params: seq<string>)
    requires ScopeBelow(u, v)
    ensures ScopeBelow(Inherited(u, params), Inherited(v, params))
  {
    if u != [] {
      InheritedBelow(u[..|u| - 1], v[..|v| - 1], params);
    }
  }

  ghost predicate LetsAgree(a: LetResult, b: LetResult) {
    a.Let? && !a.st.mixed && b.Let? ==> ScopeBelow(a.scope, b.scope)
  }

  lemma {:induction false} LetsBelow(m: Machine, lets: seq<(string, Expr)>, u: Scope, v: Scope, s: State, t: State)
    requires Ready(s) && Ready(t) && ScopeBelow(u, v)
    ensures LetsAgree(Lets(m, lets, u, s), Lets(m, lets, v, t))
    decreases MAX_STEPS - s.steps + 1, 1, |lets|
  {
    if lets != [] {
      EvalAgree(m, lets[0].1, u, v, s, t);
      var a, b := Eval(m, lets[0].1, u, s), Eval(m, lets[0].1, v, t);
      if a.Done? && b.Done? && Below(a.value, b.value) {
        LetsBelow(m, lets[1..], u + [(lets[0].0, a.value)], v + [(lets[0].0, b.value)], a.st, b.st);
      } else if a.Done? && b.Done? {
        LetsMixed(m, lets[1..], u + [(lets[0].0, a.value)], a.st);
      }
    }
  }

  lemma LetsMixed(m: Machine, lets: seq<(string, Expr)>, u: Scope, s: State)
    requires Ready(s) && s.mixed
    ensures var r := Lets(m, lets, u, s); r.st.mixed
  {}

  lemma {:induction false} UserAgree(m: Machine, decl: FunctionDecl, argv: seq<Val>, u: Scope, v: Scope, s: State, t: State)
    requires Ready(s) && Ready(t) && ScopeBelow(u, v)
    ensures Agree(UserCall(m, decl, argv, u, s), UserCall(m, decl, argv, v, t))
    decreases MAX_STEPS - s.steps + 1, 1, |decl.lets| + 1
  {
    if |decl.params| == |argv| && s.depth + 1 <= MAX_CALL_DEPTH && t.depth + 1 <= MAX_CALL_DEPTH {
      InheritedBelow(u, v, decl.params);
      var bound := Bound_(decl.params, argv);
      var p, q := Inherited(u, decl.params) + bound, Inherited(v, decl.params) + bound;
      var s1, t1 := s.(depth := s.depth + 1), t.(depth := t.depth + 1);
      LetsBelow(m, decl.lets, p, q, s1, t1);
      var a, b := Lets(m, decl.lets, p, s1), Lets(m, decl.lets, q, t1);
      if a.Let? && b.Let? && !a.st.mixed {
        EvalAgree(m, decl.body, a.scope, b.scope, a.st, b.st);
      }
    }
  }

  function Fresh(): (st: State)
    ensures Ready(st)
  {
    State(0, 0, 0, 0, false)
  }

  /** The theorem, for a condition evaluated with fresh budgets: whatever
      values take the place of errors among the variables, a boolean verdict
      stays as it was, if the second run finishes. */
  lemma VerdictStands(m: Machine, x: Expr, u: Scope, v: Scope)
    requires ScopeBelow(u, v)
    requires var a := Eval(m, x, u, Fresh()); a.Done? && a.value.Bool? && !a.st.mixed
    requires Eval(m, x, v, Fresh()).Done?
    ensures Eval(m, x, v, Fresh()).value == Eval(m, x, u, Fresh()).value
  {
    EvalAgree(m, x, u, v, Fresh(), Fresh());
  }

  /** Without that condition it may fall: `(5 || x) == 5` is true while `x` is
      an error, and false once `x` is true. */
  lemma MixedVerdictFalls(m: Machine, n: i64)
    ensures
      var x := Binary(Eq, Binary(Or, Literal(Int(n)), Ident("x")), Literal(Int(n)));
      var a, b := Eval(m, x, [("x", Undefined)], Fresh()), Eval(m, x, [("x", Bool(true))], Fresh());
      && a.Done? && a.value == Bool(true) && a.st.mixed
      && b.Done? && b.value == Bool(false)
  {
    var five := Literal(Int(n));
    var or := Binary(Or, five, Ident("x"));
    OrWithVariable(m, n, Undefined);
    OrWithVariable(m, n, Bool(true));
    EqualPair(m, or, five, [("x", Undefined)]);
    EqualPair(m, or, five, [("x", Bool(true))]);
  }

  lemma OrWithVariable(m: Machine, n: i64, v: Val)
    ensures
      var o := Eval(m, Binary(Or, Literal(Int(n)), Ident("x")), [("x", v)], State(1, 0, 0, 0, false));
      o == Done(Absorbed(Int(n), v, true), State(4, 0, 0, 0, true))
  {
    var scope, st := [("x", v)], State(2, 0, 0, 0, false);
    assert Lookup(scope, "x") == Some(v);
    assert Eval(m, Literal(Int(n)), scope, st) == Done(Int(n), State(3, 0, 0, 0, false));
    assert Eval(m, Ident("x"), scope, State(3, 0, 0, 0, true)) == Done(v, State(4, 0, 0, 0, true));
    assert Node(m, Binary(Or, Literal(Int(n)), Ident("x")), scope, st)
        == Logical(m, Literal(Int(n)), Ident("x"), scope, st, true);
  }

  lemma EqualPair(m: Machine, or: Expr, five: Expr, scope: Scope)
    requires five.Literal? && five.value.Int?
    requires
      var o := Eval(m, or, scope, State(1, 0, 0, 0, false));
      o.Done? && !o.value.Undefined? && o.st == State(4, 0, 0, 0, true)
    ensures
      var o := Eval(m, or, scope, State(1, 0, 0, 0, false));
      Eval(m, Binary(Eq, or, five), scope, Fresh())
      == Done(Bool(Equals(m.floats, o.value, five.value)), State(5, 0, 0, 0, true))
  {
    var st := State(1, 0, 0, 0, false);
    var o := Eval(m, or, scope, st);
    PairValues(m, or, five, scope, st);
    assert Node(m, Binary(Eq, or, five), scope, st) == BinaryNode(m, Eq, or, five, scope, st);
  }

  lemma PairValues(m: Machine, first: Expr, second: Expr, scope: Scope, st: State)
    requires Ready(st) && second.Literal?
    requires var o := Eval(m, first, scope, st); o.Done? && !o.value.Undefined? && o.st.steps < MAX_STEPS
    ensures
      var o := Eval(m, first, scope, st);
      Many_(m, [first, second], scope, st) == All([o.value, second.value], o.st.(steps := o.st.steps + 1))
  {
    var o := Eval(m, first, scope, st);
    assert [first, second][1..] == [second] && [second][1..] == [];
    assert Eval(m, second, scope, o.st) == Done(second.value, o.st.(steps := o.st.steps + 1));
    assert Many_(m, [second], scope, o.st) == All([second.value], o.st.(steps := o.st.steps + 1));
  }
}
