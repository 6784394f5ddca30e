/** The evaluator and the matcher as they run: budgets and captures are
    updated in place, and put back. */
module RuleEvaluator {
  import opened Results
  import opened RuleValues
  import opened RuleEval
  import opened RuleMonotone
  import opened RuleMatcher

  /** Values already computed, before those to come. */
  function Before(done: seq<Val>, rest: Many): Many {
    if rest.Stopped? then rest else All(done + rest.values, rest.st)
  }

  /** What an evaluation hands back: a value, or nothing once a budget is spent. */
  function Handed(r: Outcome): Option<Val> {
    if r.Done? then Some(r.value) else None
  }

  class Evaluator {
    const machine: Machine
    var steps: nat
    var lookups: nat
    var depth: nat
    /** What the proofs watch. */
    ghost var calls: nat
    ghost var mixed: bool

    ghost function Now(): State
      reads this
    {
      State(steps, lookups, depth, calls, mixed)
    }

    constructor (machine: Machine)
      ensures this.machine == machine && Now() == Fresh()
    {
      this.machine := machine;
      steps, lookups, depth, calls, mixed := 0, 0, 0, 0, false;
    }

    /** The method agrees with a specified outcome: same value and budgets. */
    ghost predicate Did(r: Option<Val>, spec: Outcome)
      reads this
    {
      r == Handed(spec) && (spec.Done? ==> Now() == spec.st)
    }

    method Evaluate(x: Expr, scope: Scope) returns (r: Option<Val>)
      requires Ready(Now())
      modifies this
      ensures Did(r, Eval(machine, x, scope, old(Now())))
      decreases MAX_STEPS - steps + 1, 0, 0
    {
      steps := steps + 1;
      if steps > MAX_STEPS {
        return None;
      }
      r := EvaluateNode(x, scope);
    }

    method EvaluateNode(x: Expr, scope: Scope) returns (r: Option<Val>)
      requires Ready(Now())
      modifies this
      ensures Did(r, Node(machine, x, scope, old(Now())))
      decreases MAX_STEPS - steps + 1, 3, 0
    {
      match x
      case Literal(v) => return Some(v);
      case Ident(name) =>
        var v := Lookup(scope, name);
        return Some(if v.Some? then v.value else Undefined);
      case ListOf(items) => r := EvaluateListNode(items, scope);
      case MapOf(entries) => r := EvaluateEntries(entries, scope);
      case PathOf(parts) => r := EvaluateParts(parts, scope);
      case Binary(op, left, right) =>
        if op.And? || op.Or? {
          r := EvaluateLogical(left, right, scope, op.Or?);
        } else {
          r := EvaluateBinary(op, left, right, scope);
        }
      case Call(receiver, name, args) => r := EvaluateCall(receiver, name, args, scope);
      case RangeOf(target, lo, hi) => r := EvaluateRange(target, lo, hi, scope);
      case IndexOf(target, index) => r := EvaluateIndex(target, index, scope);
      case Ternary(cond, yes, no) => r := EvaluateTernary(cond, yes, no, scope);
      case MemberOf(target, _) => r := EvaluateOne(x, target, scope);
      case Unary(_, operand) => r := EvaluateOne(x, operand, scope);
      case Is(operand, _) => r := EvaluateOne(x, operand, scope);
    }

    /** The operators of one operand. */
    method EvaluateOne(x: Expr, operand: Expr, scope: Scope) returns (r: Option<Val>)
      requires Ready(Now())
      requires (x.MemberOf? && x.target == operand) || (x.Unary? && x.operand == operand) || (x.Is? && x.operand == operand)
      modifies this
      ensures Did(r, Node(machine, x, scope, old(Now())))
      decreases MAX_STEPS - steps + 1, 2, 0
    {
      r := Evaluate(operand, scope);
      if r.None? || r.value.Undefined? {
        return;
      }
      match x
      case MemberOf(_, field) => return Some(Member(r.value, field));
      case Unary(op, _) => return Some(Negated(machine.floats, op, r.value));
      case Is(_, ty) => return Some(Bool(MatchesType(r.value, ty)));
    }

    /** Left to right; stops at the first error, and hands that back. */
    method EvaluateMany(items: seq<Expr>, scope: Scope) returns (values: seq<Val>, stop: bool, r: Option<Val>)
      requires Ready(Now())
      modifies this
      ensures var spec := Many_(machine, items, scope, old(Now()));
        if stop then spec.Stopped? && Did(r, spec.outcome) else spec == All(values, Now())
      decreases MAX_STEPS - steps + 1, 1, |items|
    {
      values, stop, r := [], false, None;
      ghost var start := Now();
      var i := 0;
      while i < |items|
        invariant 0 <= i <= |items| && Ready(Now()) && start.steps <= steps && !stop
        invariant Many_(machine, items, scope, start) == Before(values, Many_(machine, items[i..], scope, Now()))
      {
        assert items[i..][1..] == items[i + 1..];
        ghost var before := Now();
        r := Evaluate(items[i], scope);
        if r.None? || r.value.Undefined? {
          stop := true;
          return;
        }
        BeforeOne(values, r.value, Many_(machine, items[i + 1..], scope, Now()));
        values := values + [r.value];
        i := i + 1;
      }
    }

    method EvaluateListNode(items: seq<Expr>, scope: Scope) returns (r: Option<Val>)
      requires Ready(Now())
      modifies this
      ensures Did(r, ListNode(machine, items, scope, old(Now())))
      decreases MAX_STEPS - steps + 1, 2, 0
    {
      var values, stop, early := EvaluateMany(items, scope);
      return if stop then early else Some(List(values));
    }

    method EvaluateEntries(entries: seq<(string, Expr)>, scope: Scope) returns (r: Option<Val>)
      requires Ready(Now())
      modifies this
      ensures Did(r, Entries(machine, entries, map[], scope, old(Now())))
      decreases MAX_STEPS - steps + 1, 1, |entries|
    {
      var out: map<string, Val> := map[];
      ghost var start := Now();
      var i := 0;
      while i < |entries|
        invariant 0 <= i <= |entries| && Ready(Now()) && start.steps <= steps
        invariant Entries(machine, entries, map[], scope, start) == Entries(machine, entries[i..], out, scope, Now())
      {
        assert entries[i..][1..] == entries[i + 1..];
        r := Evaluate(entries[i].1, scope);
        if r.None? || r.value.Undefined? {
          return;
        }
        out := out[entries[i].0 := r.value];
        i := i + 1;
      }
      return Some(Map(out));
    }

    method EvaluateParts(parts: seq<PathPart>, scope: Scope) returns (r: Option<Val>)
      requires Ready(Now())
      modifies this
      ensures Did(r, Parts(machine, parts, [], scope, old(Now())))
      decreases MAX_STEPS - steps + 1, 1, |parts|
    {
      var segments: seq<string> := [];
      ghost var start := Now();
      var i := 0;
      while i < |parts|
        invariant 0 <= i <= |parts| && Ready(Now()) && start.steps <= steps
        invariant Parts(machine, parts, [], scope, start) == Parts(machine, parts[i..], segments, scope, Now())
      {
        assert parts[i..][1..] == parts[i + 1..];
        match parts[i] {
          case Static(name) => segments := segments + [name];
          case Splice(x) =>
            r := Evaluate(x, scope);
            if r.None? {
              return;
            }
            if r.value.Str? {
              segments := segments + [r.value.s];
            } else if r.value.Path? {
              segments := segments + r.value.segments;
            } else {
              return Some(Undefined);
            }
        }
        i := i + 1;
      }
      return Some(Path(segments));
    }

    method EvaluateIndex(target: Expr, index: Expr, scope: Scope) returns (r: Option<Val>)
      requires Ready(Now())
      modifies this
      ensures Did(r, IndexNode(machine, target, index, scope, old(Now())))
      decreases MAX_STEPS - steps + 1, 2, 0
    {
      var values, stop, early := EvaluateMany([target, index], scope);
      return if stop then early else Some(IndexValue(values[0], values[1]));
    }

    method EvaluateBinary(op: BinOp, left: Expr, right: Expr, scope: Scope) returns (r: Option<Val>)
      requires Ready(Now())
      modifies this
      ensures Did(r, BinaryNode(machine, op, left, right, scope, old(Now())))
      decreases MAX_STEPS - steps + 1, 2, 0
    {
      var values, stop, early := EvaluateMany([left, right], scope);
      return if stop then early else Some(BinaryValue(machine.floats, op, values[0], values[1]));
    }

    /** A bound's value, or an early result. */
    method EvaluateBound(x: Option<Expr>, scope: Scope) returns (at: Option<nat>, stop: bool, r: Option<Val>)
      requires Ready(Now())
      modifies this
      ensures var spec := BoundOf(machine, x, scope, old(Now()));
        if stop then spec.Failed? && Did(r, spec.outcome) else spec == RuleEval.BoundResult.Bound(at, Now())
      decreases MAX_STEPS - steps + 1, 1, 0
    {
      at, stop, r := None, false, None;
      if x.Some? {
        r := Evaluate(x.value, scope);
        if r.None? {
          stop := true;
        } else if r.value.Int? {
          at := Some(if r.value.i > 0 then r.value.i else 0);
        } else {
          stop, r := true, Some(Undefined);
        }
      }
    }

    method EvaluateRange(target: Expr, lo: Option<Expr>, hi: Option<Expr>, scope: Scope) returns (r: Option<Val>)
      requires Ready(Now())
      modifies this
      ensures Did(r, RangeNode(machine, target, lo, hi, scope, old(Now())))
      decreases MAX_STEPS - steps + 1, 2, 0
    {
      r := Evaluate(target, scope);
      if r.None? || r.value.Undefined? {
        return;
      }
      r := EvaluateSlice(r.value, lo, hi, scope);
    }

    method EvaluateSlice(base: Val, lo: Option<Expr>, hi: Option<Expr>, scope: Scope) returns (r: Option<Val>)
      requires Ready(Now())
      modifies this
      ensures Did(r, Sliced(machine, base, lo, hi, scope, old(Now())))
      decreases MAX_STEPS - steps + 1, 2, 0
    {
      var from, stop, early := EvaluateBound(lo, scope);
      if stop {
        return early;
      }
      var to;
      to, stop, early := EvaluateBound(hi, scope);
      if stop {
        return early;
      }
      return Some(RangeValue(base, if from.Some? then from.value else 0, to));
    }

    method EvaluateTernary(cond: Expr, yes: Expr, no: Expr, scope: Scope) returns (r: Option<Val>)
      requires Ready(Now())
      modifies this
      ensures Did(r, TernaryNode(machine, cond, yes, no, scope, old(Now())))
      decreases MAX_STEPS - steps + 1, 2, 0
    {
      var c := Evaluate(cond, scope);
      if c.None? {
        return None;
      }
      var b := AsBool(c.value);
      if b.None? {
        return Some(Undefined);
      }
      r := Evaluate(if b.value then yes else no, scope);
    }

    /** Short circuit, then absorption. */
    method EvaluateLogical(left: Expr, right: Expr, scope: Scope, isOr: bool) returns (r: Option<Val>)
      requires Ready(Now())
      modifies this
      ensures Did(r, Logical(machine, left, right, scope, old(Now()), isOr))
      decreases MAX_STEPS - steps + 1, 2, 0
    {
      r := Evaluate(left, scope);
      if r.None? || AsBool(r.value) == Some(isOr) {
        return;
      }
      r := EvaluateRight(r.value, right, scope, isOr);
    }

    method EvaluateRight(l: Val, right: Expr, scope: Scope, isOr: bool) returns (r: Option<Val>)
      requires Ready(Now())
      modifies this
      ensures Did(r, LogicalRight(machine, l, right, scope, old(Now()), isOr))
      decreases MAX_STEPS - steps + 1, 2, 0
    {
      mixed := mixed || !BoolOrError(l);
      ghost var spec := Eval(machine, right, scope, Now());
      r := Evaluate(right, scope);
      r := AbsorbRight(l, r, isOr, spec);
    }

    method AbsorbRight(l: Val, right: Option<Val>, isOr: bool, ghost spec: Outcome) returns (r: Option<Val>)
      requires Did(right, spec)
      modifies `mixed
      ensures Did(r, RightOutcome(l, spec, isOr))
    {
      if right.None? {
        return None;
      }
      mixed := mixed || !BoolOrError(right.value);
      var v := Absorb(l, right.value, isOr);
      return Some(v);
    }

    method EvaluateCall(receiver: Option<Expr>, name: string, args: seq<Expr>, scope: Scope) returns (r: Option<Val>)
      requires Ready(Now())
      modifies this
      ensures Did(r, CallNode(machine, receiver, name, args, scope, old(Now())))
      decreases MAX_STEPS - steps + 1, 2, 0
    {
      if receiver.Some? && !Namespaced(receiver, scope) {
        var values, stop, early := EvaluateMany([receiver.value] + args, scope);
        return if stop then early else Some(machine.method_(values[0], name, values[1..]));
      }
      var argv, stop, early := EvaluateMany(args, scope);
      if stop {
        return early;
      }
      if receiver.Some? {
        r := CallGlobal(receiver.value.name + "." + name, argv);
        return;
      }
      var decl := FindFunction(machine.functions, name);
      if decl.None? {
        r := CallGlobal(name, argv);
      } else {
        r := CallUser(decl.value, argv, scope);
      }
    }

    method CallGlobal(name: string, argv: seq<Val>) returns (r: Option<Val>)
      requires Ready(Now())
      modifies this
      ensures Did(r, GlobalCall(machine, name, argv, old(Now())))
    {
      if !IsHostCall(name) {
        return Some(machine.global(name, argv));
      }
      if argv == [] || !argv[0].Path? {
        return Some(Undefined);
      }
      lookups := lookups + 1;
      if lookups > MAX_LOOKUPS {
        return None;
      }
      calls := calls + 1;
      return Some(HostAnswer(machine, name, argv[0].segments));
    }

    /** One level deeper, and back up whatever the body gives. */
    method CallUser(decl: FunctionDecl, argv: seq<Val>, scope: Scope) returns (r: Option<Val>)
      requires Ready(Now())
      modifies this
      ensures Did(r, UserCall(machine, decl, argv, scope, old(Now())))
      decreases MAX_STEPS - steps + 1, 1, |decl.lets| + 1
    {
      if |decl.params| != |argv| {
        return Some(Undefined);
      }
      depth := depth + 1;
      if depth > MAX_CALL_DEPTH {
        depth := depth - 1;
        return None;
      }
      var inner := Inherited(scope, decl.params) + Bound_(decl.params, argv);
      ghost var start := Now();
      var i := 0;
      while i < |decl.lets|
        invariant 0 <= i <= |decl.lets| && Ready(Now()) && start.steps <= steps && depth == start.depth
        invariant Lets(machine, decl.lets, Inherited(scope, decl.params) + Bound_(decl.params, argv), start)
               == Lets(machine, decl.lets[i..], inner, Now())
      {
        assert decl.lets[i..][1..] == decl.lets[i + 1..];
        var v := Evaluate(decl.lets[i].1, inner);
        if v.None? {
          return None;
        }
        inner := inner + [(decl.lets[i].0, v.value)];
        i := i + 1;
      }
      r := Evaluate(decl.body, inner);
      if r.Some? {
        depth := depth - 1;
      }
    }
  }

  /** An error on the left gives way to a deciding value on the right. */
  method Absorb(l: Val, r: Val, isOr: bool) returns (v: Val)
    ensures v == Absorbed(l, r, isOr)
  {
    var lb, rb := AsBool(l), AsBool(r);
    if rb.Some? {
      return if lb.Some? || rb.value == isOr then Bool(rb.value) else l;
    }
    return if lb.Some? then r else l;
  }

  lemma BeforeOne(values: seq<Val>, v: Val, rest: Many)
    ensures Before(values, Before([v], rest)) == Before(values + [v], rest)
  {
    if rest.All? {
      assert values + ([v] + rest.values) == values + [v] + rest.values;
    }
  }

  // ---- the matcher ----

  /** `None` is a spent budget. */
  class Matcher {
    const machine: Machine
    const version: Version
    const path: seq<string>
    const op: Operation
    const globals: Scope
    var captures: Scope
    var functions: seq<FunctionDecl>
    var granted: bool
    var errored: bool

    constructor (machine: Machine, version: Version, path: seq<string>, op: Operation, globals: Scope, functions: seq<FunctionDecl>)
      ensures this.machine == machine && Asked() == Request(version, path, op, globals)
      ensures captures == [] && this.functions == functions && !granted && !errored
    {
      this.machine, this.version, this.path, this.op, this.globals := machine, version, path, op, globals;
      captures, this.functions, granted, errored := [], functions, false, false;
    }

    function Asked(): Request {
      Request(version, path, op, globals)
    }

    ghost predicate Reached(v: Verdict)
      reads this
    {
      v.Ruled? && v.granted == granted && v.errored == errored && (!granted ==> !v.mixed)
    }

    /** Captures are pushed as segments match; a mismatch leaves what was pushed. */
    method MatchSegments(segments: seq<MatchSeg>, consumed: nat) returns (after: Option<nat>)
      modifies `captures
      ensures match Matched(version, segments, path, consumed)
        case NoMatch => after == None && old(captures) <= captures
        case Match(n, bound) => after == Some(n) && captures == old(captures) + bound
    {
      var i := consumed;
      var k := 0;
      while k < |segments|
        invariant 0 <= k <= |segments| && old(captures) <= captures
        invariant Onto(captures, Matched(version, segments[k..], path, i))
               == Onto(old(captures), Matched(version, segments, path, consumed))
      {
        assert segments[k..][1..] == segments[k + 1..];
        ghost var rest := Matched(version, segments[k + 1..], path, i + 1);
        match segments[k] {
          case Text(text) =>
            if i >= |path| || path[i] != text {
              return None;
            }
            i := i + 1;
          case Capture(name) =>
            if i >= |path| {
              return None;
            }
            OntoOne(captures, name, Bound1(path[i]), rest);
            captures := captures + [(name, Bound1(path[i]))];
            i := i + 1;
          case Glob(name) =>
            var remaining := |segments| - k - 1;
            if |path| < i + remaining {
              return None;
            }
            var take := |path| - remaining - i;
            if version.V1? && take == 0 {
              return None;
            }
            OntoOne(captures, name, Path(path[i..i + take]), Matched(version, segments[k + 1..], path, i + take));
            captures := captures + [(name, Path(path[i..i + take]))];
            i := i + take;
        }
        k := k + 1;
      }
      return Some(i);
    }

    /** `false` once a budget is spent. */
    method RunAllows(allows: seq<Allow>, scope: Scope) returns (ok: bool)
      requires !granted
      modifies `granted, `errored
      ensures var v := TryAllows(machine.(functions := functions), allows, op, scope, Ruled(false, old(errored), false));
        if ok then Reached(v) else v.Exhausted?
    {
      ghost var m := machine.(functions := functions);
      ghost var start := Ruled(false, errored, false);
      var i := 0;
      while i < |allows|
        invariant 0 <= i <= |allows| && !granted
        invariant TryAllows(m, allows, op, scope, start) == TryAllows(m, allows[i..], op, scope, Ruled(false, errored, false))
      {
        assert allows[i..][1..] == allows[i + 1..];
        if Applies(allows[i], op) {
          var evaluator := new Evaluator(machine.(functions := functions));
          var v := evaluator.Evaluate(allows[i].condition, scope);
          if v.None? {
            return false;
          }
          if v.value == Bool(true) {
            granted := true;
            return true;
          }
          if v.value != Bool(false) {
            errored := true;
          }
        }
        i := i + 1;
      }
      return true;
    }

    /** Whatever is pushed on the way down is taken off again. */
    method WalkRule(rule: MatchRule, consumed: nat) returns (ok: bool)
      requires !granted
      modifies this
      ensures var v := Walk(machine.(functions := old(functions)), Asked(), rule, consumed, old(captures),
                            Ruled(false, old(errored), false));
        if ok then Reached(v) else v.Exhausted?
      ensures ok ==> captures == old(captures) && functions == old(functions)
      decreases rule, 1, 0
    {
      var capturesBefore, functionsBefore := |captures|, |functions|;
      var after := MatchSegments(rule.path, consumed);
      if after.None? {
        captures := captures[..capturesBefore];
        return true;
      }
      functions := functions + rule.functions;
      ok := true;
      if after.value == |path| {
        var scope := globals + captures;
        assert scope == globals + old(captures) + captures[capturesBefore..];
        ok := RunAllows(rule.allows, scope);
      }
      if ok && !granted {
        ok := WalkRules(rule.children, after.value);
      }
      if ok {
        captures := captures[..capturesBefore];
        functions := functions[..functionsBefore];
      }
    }

    method WalkRules(rules: seq<MatchRule>, consumed: nat) returns (ok: bool)
      requires !granted
      modifies this
      ensures var v := WalkAll(machine.(functions := old(functions)), Asked(), rules, consumed, old(captures),
                               Ruled(false, old(errored), false));
        if ok then Reached(v) else v.Exhausted?
      ensures ok ==> captures == old(captures) && functions == old(functions)
      decreases rules, 0, |rules|
    {
      ghost var m, start := machine.(functions := functions), Ruled(false, errored, false);
      var i := 0;
      while i < |rules|
        invariant 0 <= i <= |rules| && !granted && captures == old(captures) && functions == old(functions)
        invariant WalkAll(m, Asked(), rules, consumed, old(captures), start)
               == WalkAll(m, Asked(), rules[i..], consumed, old(captures), Ruled(false, errored, false))
      {
        assert rules[i..][1..] == rules[i + 1..];
        ok := WalkRule(rules[i], consumed);
        if !ok || granted {
          return;
        }
        i := i + 1;
      }
      return true;
    }
  }

  function Onto(captures: Scope, rest: Matching): Matching {
    if rest.NoMatch? then rest else rest.(captures := captures + rest.captures)
  }

  lemma OntoOne(captures: Scope, name: string, v: Val, rest: Matching)
    ensures Onto(captures, Capturing(name, v, rest)) == Onto(captures + [(name, v)], rest)
  {
    if rest.Match? {
      assert captures + ([(name, v)] + rest.captures) == captures + [(name, v)] + rest.captures;
    }
  }

  datatype Decision = Allowed | Denied

  /** `None` is a spent budget. */
  method Authorize(m: Machine, ruleset: Ruleset, service: string, op: Operation, path: seq<string>, globals: Scope)
    returns (decision: Option<Decision>)
    ensures var v := Decide(m, ruleset, service, op, path, globals);
      decision == if v.Exhausted? then None else Some(if v.granted then Allowed else Denied)
  {
    var found := FindService(ruleset.services, service);
    if found.None? {
      return Some(Denied);
    }
    var matcher := new Matcher(m, ruleset.version, path, op, globals, found.value.functions);
    var ok := matcher.WalkRules(found.value.matches, 0);
    if !ok {
      return None;
    }
    return Some(if matcher.granted then Allowed else Denied);
  }
}
