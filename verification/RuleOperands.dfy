/** Rules whose logic only ever combines conditions: a form anyone can check in
    the text, under which verdicts stand when errors become values. */
module RuleOperands {
  import opened Results
  import opened RuleValues
  import opened RuleEval
  import opened RuleMonotone
  import opened RuleMatcher

  /** Names of functions that answer with a condition. */
  type Names = set<string>

  /** An expression that is a condition by its form: a comparison, a membership
      or type test, a negation, a boolean, such expressions combined, or a call
      of a function that answers with one. */
  predicate Condition(s: Names, x: Expr)
    decreases x
  {
    match x
    case Literal(v) => v.Bool?
    case Unary(op, _) => op.Not?
    case Is(_, _) => true
    case Binary(op, l, r) =>
      op.Eq? || op.Ne? || op.In? || op.Comparing? || ((op.And? || op.Or?) && Condition(s, l) && Condition(s, r))
    case Ternary(_, yes, no) => Condition(s, yes) && Condition(s, no)
    case Call(receiver, name, _) => receiver.None? && name in s
    case _ => false
  }

  /** Everywhere in the expression, `&&` and `||` combine conditions. */
  predicate Clear(s: Names, x: Expr)
    decreases x
  {
    match x
    case Literal(_) => true
    case ListOf(items) => forall i :: i in items ==> Clear(s, i)
    case MapOf(entries) => forall e :: e in entries ==> Clear(s, e.1)
    case PathOf(parts) => forall p :: p in parts && p.Splice? ==> Clear(s, p.expr)
    case Ident(_) => true
    case MemberOf(target, _) => Clear(s, target)
    case IndexOf(target, index) => Clear(s, target) && Clear(s, index)
    case RangeOf(target, lo, hi) =>
      Clear(s, target) && (lo.Some? ==> Clear(s, lo.value)) && (hi.Some? ==> Clear(s, hi.value))
    case Call(receiver, _, args) =>
      (receiver.Some? ==> Clear(s, receiver.value)) && forall a :: a in args ==> Clear(s, a)
    case Unary(_, operand) => Clear(s, operand)
    case Binary(op, l, r) => Clear(s, l) && Clear(s, r) && (op.And? || op.Or? ==> Condition(s, l) && Condition(s, r))
    case Ternary(cond, yes, no) => Clear(s, cond) && Clear(s, yes) && Clear(s, no)
    case Is(operand, _) => Clear(s, operand)
  }

  predicate ClearFunction(s: Names, f: FunctionDecl) {
    && (forall l :: l in f.lets ==> Clear(s, l.1))
    && Clear(s, f.body) && (f.name in s ==> Condition(s, f.body))
  }

  /** The named functions are declared with conditions for bodies, or are the
      host's tests of existence. */
  predicate ClearMachine(s: Names, functions: seq<FunctionDecl>) {
    && (forall f :: f in functions ==> ClearFunction(s, f))
    && (forall name :: name in s ==> FindFunction(functions, name).Some? || name == "exists" || name == "existsAfter")
  }

  lemma {:induction false} FoundIsOne(functions: seq<FunctionDecl>, name: string)
    requires FindFunction(functions, name).Some?
    ensures FindFunction(functions, name).value in functions && FindFunction(functions, name).value.name == name
  {
    if functions[0].name != name {
      FoundIsOne(functions[1..], name);
    }
  }

  /** Nothing new was mixed into logic, and a condition came out as one. */
  predicate Tidy(s: Names, x: Expr, st: State, r: Outcome) {
    (r.st.mixed ==> st.mixed) && (r.Done? && Condition(s, x) ==> BoolOrError(r.value))
  }

  lemma {:induction false} EvalTidy(m: Machine, s: Names, x: Expr, scope: Scope, st: State)
    requires Ready(st) && ClearMachine(s, m.functions) && Clear(s, x)
    ensures Tidy(s, x, st, Eval(m, x, scope, st))
    decreases MAX_STEPS - st.steps + 1, 0, 0
  {
    var next := st.(steps := st.steps + 1);
    if next.steps <= MAX_STEPS {
      NodeTidy(m, s, x, scope, next);
    }
  }

  lemma {:induction false} NodeTidy(m: Machine, s: Names, x: Expr, scope: Scope, st: State)
    requires Ready(st) && ClearMachine(s, m.functions) && Clear(s, x)
    ensures Tidy(s, x, st, Node(m, x, scope, st))
    decreases MAX_STEPS - st.steps + 1, 3, 0
  {
    match x
    case ListOf(items) =>
      ManyTidy(m, s, items, scope, st);
      assert ListNode(m, items, scope, st).st.mixed ==> st.mixed;
    case MapOf(entries) => EntriesTidy(m, s, entries, map[], scope, st);
    case PathOf(parts) => PartsTidy(m, s, parts, [], scope, st);
    case MemberOf(target, field) =>
      EvalTidy(m, s, target, scope, st);
      assert MemberNode(m, target, field, scope, st).st.mixed ==> st.mixed;
    case IndexOf(target, index) =>
      ManyTidy(m, s, [target, index], scope, st);
      assert IndexNode(m, target, index, scope, st).st.mixed ==> st.mixed;
    case RangeOf(target, lo, hi) => RangeTidy(m, s, target, lo, hi, scope, st);
    case Call(receiver, name, args) => CallTidy(m, s, receiver, name, args, scope, st);
    case Unary(op, operand) =>
      EvalTidy(m, s, operand, scope, st);
      assert UnaryNode(m, op, operand, scope, st).st.mixed ==> st.mixed;
    case Binary(op, l, r) =>
      if op.And? || op.Or? {
        LogicalTidy(m, s, l, r, scope, st, op.Or?);
      } else {
        ManyTidy(m, s, [l, r], scope, st);
        assert BinaryNode(m, op, l, r, scope, st).st.mixed ==> st.mixed;
        ComparisonTidy(m, s, op, l, r, scope, st);
      }
    case Ternary(cond, yes, no) => TernaryTidy(m, s, cond, yes, no, scope, st);
    case Is(operand, ty) =>
      EvalTidy(m, s, operand, scope, st);
      assert IsNode(m, operand, ty, scope, st).st.mixed ==> st.mixed;
    case _ =>
  }

  lemma ComparisonTidy(m: Machine, s: Names, op: BinOp, l: Expr, r: Expr, scope: Scope, st: State)
    requires Ready(st) && !op.And? && !op.Or?
    ensures
      var o := BinaryNode(m, op, l, r, scope, st);
      o.Done? && Condition(s, Binary(op, l, r)) ==> BoolOrError(o.value)
  {}

  lemma {:induction false} ManyTidy(m: Machine, s: Names, items: seq<Expr>, scope: Scope, st: State)
    requires Ready(st) && ClearMachine(s, m.functions) && forall i :: i in items ==> Clear(s, i)
    ensures
      var r := Many_(m, items, scope, st);
      (if r.All? then r.st else r.outcome.st).mixed ==> st.mixed
    decreases MAX_STEPS - st.steps + 1, 1, |items|
  {
    if items != [] {
      EvalTidy(m, s, items[0], scope, st);
      var first := Eval(m, items[0], scope, st);
      if first.Done? && !first.value.Undefined? {
        ManyTidy(m, s, items[1..], scope, first.st);
      }
    }
  }

  lemma {:induction false} EntriesTidy(m: Machine, s: Names, entries: seq<(string, Expr)>, done: map<string, Val>,
                                       scope: Scope, st: State)
    requires Ready(st) && ClearMachine(s, m.functions) && forall e :: e in entries ==> Clear(s, e.1)
    ensures Entries(m, entries, done, scope, st).st.mixed ==> st.mixed
    decreases MAX_STEPS - st.steps + 1, 1, |entries|
  {
    if entries != [] {
      assert entries[0] in entries;
      EvalTidy(m, s, entries[0].1, scope, st);
      var first := Eval(m, entries[0].1, scope, st);
      if first.Done? && !first.value.Undefined? {
        EntriesTidy(m, s, entries[1..], done[entries[0].0 := first.value], scope, first.st);
      }
    }
  }

  lemma {:induction false} PartsTidy(m: Machine, s: Names, parts: seq<PathPart>, done: seq<string>, scope: Scope, st: State)
    requires Ready(st) && ClearMachine(s, m.functions) && forall p :: p in parts && p.Splice? ==> Clear(s, p.expr)
    ensures Parts(m, parts, done, scope, st).st.mixed ==> st.mixed
    decreases MAX_STEPS - st.steps + 1, 1, |parts|
  {
    if parts != [] {
      assert parts[0] in parts;
      match parts[0]
      case Static(name) => PartsTidy(m, s, parts[1..], done + [name], scope, st);
      case Splice(x) =>
        EvalTidy(m, s, x, scope, st);
        var v := Eval(m, x, scope, st);
        if v.Done? && v.value.Str? {
          PartsTidy(m, s, parts[1..], done + [v.value.s], scope, v.st);
        } else if v.Done? && v.value.Path? {
          PartsTidy(m, s, parts[1..], done + v.value.segments, scope, v.st);
        }
    }
  }

  lemma {:induction false} BoundTidy(m: Machine, s: Names, x: Option<Expr>, scope: Scope, st: State)
    requires Ready(st) && ClearMachine(s, m.functions) && (x.Some? ==> Clear(s, x.value))
    ensures
      var r := BoundOf(m, x, scope, st);
      (if r.Bound? then r.st else r.outcome.st).mixed ==> st.mixed
    decreases MAX_STEPS - st.steps + 1, 1, 0
  {
    if x.Some? {
      EvalTidy(m, s, x.value, scope, st);
    }
  }

  lemma {:induction false} RangeTidy(m: Machine, s: Names, target: Expr, lo: Option<Expr>, hi: Option<Expr>, scope: Scope,
                                     st: State)
    requires Ready(st) && ClearMachine(s, m.functions) && Clear(s, target)
    requires (lo.Some? ==> Clear(s, lo.value)) && (hi.Some? ==> Clear(s, hi.value))
    ensures RangeNode(m, target, lo, hi, scope, st).st.mixed ==> st.mixed
    decreases MAX_STEPS - st.steps + 1, 2, 0
  {
    EvalTidy(m, s, target, scope, st);
    var base := Eval(m, target, scope, st);
    if base.Done? && !base.value.Undefined? {
      BoundTidy(m, s, lo, scope, base.st);
      var l := BoundOf(m, lo, scope, base.st);
      if l.Bound? {
        BoundTidy(m, s, hi, scope, l.st);
      }
      assert Sliced(m, base.value, lo, hi, scope, base.st).st.mixed ==> base.st.mixed;
    }
  }

  lemma {:induction false} TernaryTidy(m: Machine, s: Names, cond: Expr, yes: Expr, no: Expr, scope: Scope, st: State)
    requires Ready(st) && ClearMachine(s, m.functions) && Clear(s, cond) && Clear(s, yes) && Clear(s, no)
    ensures Tidy(s, Ternary(cond, yes, no), st, TernaryNode(m, cond, yes, no, scope, st))
    decreases MAX_STEPS - st.steps + 1, 2, 0
  {
    EvalTidy(m, s, cond, scope, st);
    var c := Eval(m, cond, scope, st);
    if c.Done? && c.value.Bool? {
      EvalTidy(m, s, if c.value.b then yes else no, scope, c.st);
    }
  }

  /** Both operands are conditions, so nothing is mixed, and so is the result. */
  lemma {:induction false} LogicalTidy(m: Machine, s: Names, l: Expr, r: Expr, scope: Scope, st: State, isOr: bool)
    requires Ready(st) && ClearMachine(s, m.functions) && Clear(s, l) && Clear(s, r) && Condition(s, l) && Condition(s, r)
    ensures
      var o := Logical(m, l, r, scope, st, isOr);
      (o.st.mixed ==> st.mixed) && (o.Done? ==> BoolOrError(o.value))
    decreases MAX_STEPS - st.steps + 1, 2, 0
  {
    EvalTidy(m, s, l, scope, st);
    var left := Eval(m, l, scope, st);
    if left.Done? && left.value != Bool(isOr) {
      EvalTidy(m, s, r, scope, Watched(left.st, left.value));
    }
  }

  lemma {:induction false} CallTidy(m: Machine, s: Names, receiver: Option<Expr>, name: string, args: seq<Expr>, scope: Scope,
                                    st: State)
    requires Ready(st) && ClearMachine(s, m.functions)
    requires (receiver.Some? ==> Clear(s, receiver.value)) && forall a :: a in args ==> Clear(s, a)
    ensures Tidy(s, Call(receiver, name, args), st, CallNode(m, receiver, name, args, scope, st))
    decreases MAX_STEPS - st.steps + 1, 2, 0
  {
    if receiver.Some? && !Namespaced(receiver, scope) {
      ManyTidy(m, s, [receiver.value] + args, scope, st);
    } else {
      ManyTidy(m, s, args, scope, st);
      var argv := Many_(m, args, scope, st);
      if argv.All? && receiver.None? {
        if FindFunction(m.functions, name).Some? {
          FoundIsOne(m.functions, name);
          UserTidy(m, s, FindFunction(m.functions, name).value, argv.values, scope, argv.st);
        } else {
          GlobalTidy(m, s, name, argv.values, argv.st);
        }
      }
    }
  }

  lemma GlobalTidy(m: Machine, s: Names, name: string, argv: seq<Val>, st: State)
    requires Ready(st) && ClearMachine(s, m.functions) && FindFunction(m.functions, name).None?
    ensures
      var r := GlobalCall(m, name, argv, st);
      (r.st.mixed ==> st.mixed) && (r.Done? && name in s ==> BoolOrError(r.value))
  {
    assert "exists"[0] == 'e' && "existsAfter"[0] == 'e' && "get"[0] == 'g' && "getAfter"[0] == 'g';
  }

  lemma {:induction false} LetsTidy(m: Machine, s: Names, lets: seq<(string, Expr)>, scope: Scope, st: State)
    requires Ready(st) && ClearMachine(s, m.functions) && forall l :: l in lets ==> Clear(s, l.1)
    ensures Lets(m, lets, scope, st).st.mixed ==> st.mixed
    decreases MAX_STEPS - st.steps + 1, 1, |lets|
  {
    if lets != [] {
      assert lets[0] in lets;
      EvalTidy(m, s, lets[0].1, scope, st);
      var v := Eval(m, lets[0].1, scope, st);
      if v.Done? {
        LetsTidy(m, s, lets[1..], scope + [(lets[0].0, v.value)], v.st);
      }
    }
  }

  lemma {:induction false} UserTidy(m: Machine, s: Names, decl: FunctionDecl, argv: seq<Val>, scope: Scope, st: State)
    requires Ready(st) && ClearMachine(s, m.functions) && ClearFunction(s, decl)
    ensures
      var r := UserCall(m, decl, argv, scope, st);
      (r.st.mixed ==> st.mixed) && (r.Done? && decl.name in s ==> BoolOrError(r.value))
    decreases MAX_STEPS - st.steps + 1, 1, |decl.lets| + 1
  {
    if |decl.params| == |argv| && st.depth + 1 <= MAX_CALL_DEPTH {
      var inner := Inherited(scope, decl.params) + Bound_(decl.params, argv);
      LetsTidy(m, s, decl.lets, inner, st.(depth := st.depth + 1));
      var lets := Lets(m, decl.lets, inner, st.(depth := st.depth + 1));
      if lets.Let? {
        EvalTidy(m, s, decl.body, lets.scope, lets.st);
      }
    }
  }

  // ---- verdicts ----

  /** Whatever values take the place of errors among the variables, a boolean
      verdict of a clear condition stays as it was, if the second run finishes. */
  lemma ClearVerdictStands(m: Machine, s: Names, x: Expr, u: Scope, v: Scope)
    requires ClearMachine(s, m.functions) && Clear(s, x) && ScopeBelow(u, v)
    requires Eval(m, x, u, Fresh()).Done? && Eval(m, x, u, Fresh()).value.Bool?
    requires Eval(m, x, v, Fresh()).Done?
    ensures Eval(m, x, v, Fresh()).value == Eval(m, x, u, Fresh()).value
  {
    EvalTidy(m, s, x, u, Fresh());
    VerdictStands(m, x, u, v);
  }

  /** Its functions, conditions and children are clear. */
  predicate ClearRule(s: Names, rule: MatchRule)
    decreases rule
  {
    && (forall f :: f in rule.functions ==> ClearFunction(s, f))
    && (forall a :: a in rule.allows ==> Clear(s, a.condition))
    && (forall c :: c in rule.children ==> ClearRule(s, c))
  }

  predicate ClearService(s: Names, service: Service) {
    ClearMachine(s, service.functions) && forall c :: c in service.matches ==> ClearRule(s, c)
  }

  lemma {:induction false} FindMore(functions: seq<FunctionDecl>, more: seq<FunctionDecl>, name: string)
    requires FindFunction(functions, name).Some?
    ensures FindFunction(functions + more, name).Some?
  {
    if functions[0].name != name {
      FindMore(functions[1..], more, name);
      assert (functions + more)[1..] == functions[1..] + more;
    }
  }

  lemma InnerClear(s: Names, functions: seq<FunctionDecl>, more: seq<FunctionDecl>)
    requires ClearMachine(s, functions) && forall f :: f in more ==> ClearFunction(s, f)
    ensures ClearMachine(s, functions + more)
  {
    forall name | name in s && FindFunction(functions, name).Some?
      ensures FindFunction(functions + more, name).Some?
    {
      FindMore(functions, more, name);
    }
  }

  predicate Unmixed(v: Verdict) {
    v.Ruled? ==> !v.mixed
  }

  lemma {:induction false} TryAllowsUnmixed(m: Machine, s: Names, allows: seq<Allow>, op: Operation, scope: Scope, soFar: Verdict)
    requires soFar.Ruled? && !soFar.mixed && ClearMachine(s, m.functions)
    requires forall a :: a in allows ==> Clear(s, a.condition)
    ensures Unmixed(TryAllows(m, allows, op, scope, soFar))
  {
    if allows != [] {
      assert allows[0] in allows;
      EvalTidy(m, s, allows[0].condition, scope, Fresh());
      var r := Eval(m, allows[0].condition, scope, Fresh());
      if !Applies(allows[0], op) {
        TryAllowsUnmixed(m, s, allows[1..], op, scope, soFar);
      } else if r.Done? && r.value != Bool(true) {
        TryAllowsUnmixed(m, s, allows[1..], op, scope, if r.value == Bool(false) then soFar else soFar.(errored := true));
      }
    }
  }

  lemma {:induction false} WalkUnmixed(m: Machine, s: Names, q: Request, rule: MatchRule, consumed: nat, captures: Scope,
                                       soFar: Verdict)
    requires soFar.Ruled? && !soFar.mixed && ClearMachine(s, m.functions) && ClearRule(s, rule)
    ensures Unmixed(Walk(m, q, rule, consumed, captures, soFar))
    decreases rule, 1, 0
  {
    var found := Matched(q.version, rule.path, q.path, consumed);
    if found.Match? {
      var inner, scope := m.(functions := m.functions + rule.functions), q.globals + captures + found.captures;
      InnerClear(s, m.functions, rule.functions);
      TryAllowsUnmixed(inner, s, rule.allows, q.op, scope, soFar);
      var own := if found.after == |q.path| then TryAllows(inner, rule.allows, q.op, scope, soFar) else soFar;
      if own.Ruled? && !own.granted {
        WalkAllUnmixed(inner, s, q, rule.children, found.after, captures + found.captures, own);
      }
    }
  }

  lemma {:induction false} WalkAllUnmixed(m: Machine, s: Names, q: Request, rules: seq<MatchRule>, consumed: nat,
                                          captures: Scope, soFar: Verdict)
    requires soFar.Ruled? && !soFar.mixed && ClearMachine(s, m.functions) && forall c :: c in rules ==> ClearRule(s, c)
    ensures Unmixed(WalkAll(m, q, rules, consumed, captures, soFar))
    decreases rules, 0, |rules|
  {
    if rules != [] {
      assert rules[0] in rules;
      WalkUnmixed(m, s, q, rules[0], consumed, captures, soFar);
      var first := Walk(m, q, rules[0], consumed, captures, soFar);
      if first.Ruled? && !first.granted {
        WalkAllUnmixed(m, s, q, rules[1..], consumed, captures, first);
      }
    }
  }

  /** What is allowed on a collection with an unspecified document is allowed
      on that collection with any document, under the same globals, for rules
      without globs whose logic combines conditions, if the second decision
      stays within its budgets. */
  lemma ClearListedMeansEach(m: Machine, s: Names, ruleset: Ruleset, service: string, op: Operation, collection: seq<string>,
                             id: string, globals: Scope)
    requires forall x :: x in ruleset.services ==> ClearService(s, x) && forall c :: c in x.matches ==> PlainRule(c)
    requires
      var v := Decide(m, ruleset, service, op, collection + [WILDCARD], globals);
      v.Ruled? && v.granted
    requires Decide(m, ruleset, service, op, collection + [id], globals).Ruled?
    ensures Decide(m, ruleset, service, op, collection + [id], globals).granted
  {
    var found := FindService(ruleset.services, service);
    ServiceFound(ruleset.services, service);
    WalkAllUnmixed(m.(functions := found.value.functions), s,
                   Request(ruleset.version, collection + [WILDCARD], op, globals), found.value.matches, 0, [], Start());
    ListedMeansEach(m, ruleset, service, op, collection, id, globals);
  }
}
