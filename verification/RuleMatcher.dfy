/** Matching a path against nested rules and deciding a request. */
module RuleMatcher {
  import opened Bits
  import opened Results
  import opened RuleValues
  import opened RuleEval
  import opened RuleMonotone

  /** Stands for an unspecified document in a list request; captures of it are
      left undefined. */
  const WILDCARD: string := ['\0', '*']

  datatype Operation = Get | List_ | Create | Update | Delete

  datatype Version = V1 | V2

  datatype MatchSeg = Text(text: string) | Capture(name: string) | Glob(name: string)

  datatype Allow = Allow(methods: seq<string>, condition: Expr)

  datatype MatchRule = MatchRule(path: seq<MatchSeg>, functions: seq<FunctionDecl>, allows: seq<Allow>, children: seq<MatchRule>)

  datatype Service = Service(name: string, functions: seq<FunctionDecl>, matches: seq<MatchRule>)

  datatype Ruleset = Ruleset(version: Version, services: seq<Service>)

  function OperationId(op: Operation): string {
    match op
    case Get => "get"
    case List_ => "list"
    case Create => "create"
    case Update => "update"
    case Delete => "delete"
  }

  function LowerCase(s: string): string {
    if s == "" then ""
    else [if 'A' <= s[0] <= 'Z' then s[0] + ' ' else s[0]] + LowerCase(s[1..])
  }

  predicate CoveredBy(op: Operation, method_: string) {
    var name := LowerCase(method_);
    name == OperationId(op) || name == if op.Get? || op.List_? then "read" else "write"
  }

  predicate Applies(a: Allow, op: Operation) {
    exists name :: name in a.methods && CoveredBy(op, name)
  }

  // ---- matching ----

  datatype Matching = NoMatch | Match(after: nat, captures: Scope)

  function Bound1(segment: string): Val {
    if segment == WILDCARD then Undefined else Str(segment)
  }

  function Capturing(name: string, v: Val, rest: Matching): Matching {
    if rest.NoMatch? then rest else rest.(captures := [(name, v)] + rest.captures)
  }

  /** Segments against the path from `i`. A glob takes what leaves one path
      segment for each rule segment after it, and in version 1 at least one. */
  function Matched(version: Version, segments: seq<MatchSeg>, path: seq<string>, i: nat): Matching
    decreases |segments|
  {
    if segments == [] then Match(i, [])
    else
      match segments[0]
      case Text(text) =>
        if i < |path| && path[i] == text then Matched(version, segments[1..], path, i + 1) else NoMatch
      case Capture(name) =>
        if i < |path| then Capturing(name, Bound1(path[i]), Matched(version, segments[1..], path, i + 1)) else NoMatch
      case Glob(name) =>
        var remaining := |segments| - 1;
        if |path| < i + remaining then NoMatch
        else
          var take := |path| - remaining - i;
          if version.V1? && take == 0 then NoMatch
          else Capturing(name, Path(path[i..i + take]), Matched(version, segments[1..], path, i + take))
  }

  // ---- deciding ----

  /** Where the walk stands; `mixed` is the granting condition's. */
  datatype Verdict = Ruled(granted: bool, errored: bool, mixed: bool) | Exhausted

  function TryAllows(m: Machine, allows: seq<Allow>, op: Operation, scope: Scope, soFar: Verdict): Verdict
    requires soFar.Ruled?
  {
    if allows == [] then soFar
    else if !Applies(allows[0], op) then TryAllows(m, allows[1..], op, scope, soFar)
    else
      // Every condition starts with budgets of its own.
      var r := Eval(m, allows[0].condition, scope, Fresh());
      if r.Fatal? then Exhausted
      else if r.value == Bool(true) then Ruled(true, soFar.errored, r.st.mixed)
      else TryAllows(m, allows[1..], op, scope, if r.value == Bool(false) then soFar else soFar.(errored := true))
  }

  /** What a walk carries down: everything but the rules themselves. */
  datatype Request = Request(version: Version, path: seq<string>, op: Operation, globals: Scope)

  function Walk(m: Machine, q: Request, rule: MatchRule, consumed: nat, captures: Scope, soFar: Verdict): Verdict
    requires soFar.Ruled?
    decreases rule, 1, 0
  {
    match Matched(q.version, rule.path, q.path, consumed)
    case NoMatch => soFar
    case Match(after, bound) =>
      var inner := m.(functions := m.functions + rule.functions);
      var own :=
        if after == |q.path| then TryAllows(inner, rule.allows, q.op, q.globals + captures + bound, soFar) else soFar;
      if own.Exhausted? || own.granted then own
      else WalkAll(inner, q, rule.children, after, captures + bound, own)
  }

  function WalkAll(m: Machine, q: Request, rules: seq<MatchRule>, consumed: nat, captures: Scope, soFar: Verdict): Verdict
    requires soFar.Ruled?
    decreases rules, 0, |rules|
  {
    if rules == [] then soFar
    else
      var first := Walk(m, q, rules[0], consumed, captures, soFar);
      if first.Exhausted? || first.granted then first
      else WalkAll(m, q, rules[1..], consumed, captures, first)
  }

  function FindService(services: seq<Service>, name: string): Option<Service> {
    if services == [] then None
    else if services[0].name == name then Some(services[0])
    else FindService(services[1..], name)
  }

  function Start(): (v: Verdict)
    ensures v.Ruled?
  {
    Ruled(false, false, false)
  }

  /** The request's verdict; errors deny, like no match. */
  function Decide(m: Machine, ruleset: Ruleset, service: string, op: Operation, path: seq<string>, globals: Scope): Verdict {
    var found := FindService(ruleset.services, service);
    if found.None? then Start()
    else
      WalkAll(m.(functions := found.value.functions), Request(ruleset.version, path, op, globals),
              found.value.matches, 0, [], Start())
  }

  // ---- what grants, in any order ----

  predicate AllowGrants(m: Machine, a: Allow, op: Operation, scope: Scope) {
    Applies(a, op) && var r := Eval(m, a.condition, scope, Fresh()); r.Done? && r.value == Bool(true)
  }

  /** A rule grants if an allow of its own does where it ends at the path, or a
      child grants further down. */
  predicate Grants(m: Machine, q: Request, rule: MatchRule, consumed: nat, captures: Scope)
    decreases rule
  {
    match Matched(q.version, rule.path, q.path, consumed)
    case NoMatch => false
    case Match(after, bound) =>
      var inner := m.(functions := m.functions + rule.functions);
      || (after == |q.path| && SomeAllow(inner, rule.allows, q.op, q.globals + captures + bound))
      || SomeChild(inner, q, rule.children, after, captures + bound)
  }

  predicate SomeChild(m: Machine, q: Request, rules: seq<MatchRule>, consumed: nat, captures: Scope)
    decreases rules
  {
    exists c :: c in rules && Grants(m, q, c, consumed, captures)
  }

  predicate SomeAllow(m: Machine, allows: seq<Allow>, op: Operation, scope: Scope) {
    exists a :: a in allows && AllowGrants(m, a, op, scope)
  }

  lemma {:induction false} TryAllowsGrants(m: Machine, allows: seq<Allow>, op: Operation, scope: Scope, soFar: Verdict)
    requires soFar.Ruled? && !soFar.granted
    ensures
      var v := TryAllows(m, allows, op, scope, soFar);
      v.Ruled? ==> (v.granted <==> SomeAllow(m, allows, op, scope))
  {
    if allows != [] {
      assert forall a :: a in allows <==> a == allows[0] || a in allows[1..];
      var r := Eval(m, allows[0].condition, scope, Fresh());
      if !Applies(allows[0], op) {
        TryAllowsGrants(m, allows[1..], op, scope, soFar);
      } else if r.Done? && r.value != Bool(true) {
        TryAllowsGrants(m, allows[1..], op, scope, if r.value == Bool(false) then soFar else soFar.(errored := true));
      } else if r.Done? {
        assert allows[0] in allows && AllowGrants(m, allows[0], op, scope);
      }
    }
  }

  lemma {:induction false} WalkGrants(m: Machine, q: Request, rule: MatchRule, consumed: nat, captures: Scope, soFar: Verdict)
    requires soFar.Ruled? && !soFar.granted
    ensures
      var v := Walk(m, q, rule, consumed, captures, soFar);
      v.Ruled? ==> (v.granted <==> Grants(m, q, rule, consumed, captures))
    decreases rule, 1, 0
  {
    var found := Matched(q.version, rule.path, q.path, consumed);
    if found.Match? {
      var inner, scope := m.(functions := m.functions + rule.functions), q.globals + captures + found.captures;
      TryAllowsGrants(inner, rule.allows, q.op, scope, soFar);
      var own := if found.after == |q.path| then TryAllows(inner, rule.allows, q.op, scope, soFar) else soFar;
      if own.Ruled? && !own.granted {
        WalkAllGrants(inner, q, rule.children, found.after, captures + found.captures, own);
      }
    }
  }

  lemma {:induction false} WalkAllGrants(m: Machine, q: Request, rules: seq<MatchRule>, consumed: nat, captures: Scope, soFar: Verdict)
    requires soFar.Ruled? && !soFar.granted
    ensures
      var v := WalkAll(m, q, rules, consumed, captures, soFar);
      v.Ruled? ==> (v.granted <==> SomeChild(m, q, rules, consumed, captures))
    decreases rules, 0, |rules|
  {
    if rules != [] {
      assert forall c :: c in rules <==> c == rules[0] || c in rules[1..];
      WalkGrants(m, q, rules[0], consumed, captures, soFar);
      var first := Walk(m, q, rules[0], consumed, captures, soFar);
      if first.Ruled? && !first.granted {
        WalkAllGrants(m, q, rules[1..], consumed, captures, first);
      }
    }
  }

  /** Unless a budget runs out, a request is allowed exactly when some chain of
      matching rules ends at its path with an applicable condition that is
      true: no order of rules, and no error beside it, takes that away. */
  lemma DecisionIsGrant(m: Machine, ruleset: Ruleset, service: string, op: Operation, path: seq<string>, globals: Scope)
    requires Decide(m, ruleset, service, op, path, globals).Ruled?
    ensures
      var found := FindService(ruleset.services, service);
      Decide(m, ruleset, service, op, path, globals).granted
      <==> found.Some?
           && SomeChild(m.(functions := found.value.functions), Request(ruleset.version, path, op, globals),
                        found.value.matches, 0, [])
  {
    var found := FindService(ruleset.services, service);
    if found.Some? {
      WalkAllGrants(m.(functions := found.value.functions), Request(ruleset.version, path, op, globals),
                    found.value.matches, 0, [], Start());
    }
  }

  // ---- an unspecified document stands for any ----

  predicate PlainSegment(s: MatchSeg) {
    !s.Glob? && (s.Text? ==> s.text != WILDCARD)
  }

  /** No globs, and no literal spelled like the sentinel. */
  predicate PlainRule(rule: MatchRule)
    decreases rule
  {
    && (forall s :: s in rule.path ==> PlainSegment(s))
    && forall c :: c in rule.children ==> PlainRule(c)
  }

  /** The second path spells out what the first leaves unspecified. */
  ghost predicate Spelled(p: seq<string>, q: seq<string>) {
    |p| == |q| && forall i :: 0 <= i < |p| ==> p[i] == q[i] || p[i] == WILDCARD
  }

  lemma {:induction false} MatchedBelow(version: Version, segments: seq<MatchSeg>, p: seq<string>, q: seq<string>, i: nat)
    requires Spelled(p, q) && forall s :: s in segments ==> PlainSegment(s)
    ensures
      var a, b := Matched(version, segments, p, i), Matched(version, segments, q, i);
      a.Match? ==> b.Match? && a.after == b.after && ScopeBelow(a.captures, b.captures)
    decreases |segments|
  {
    if segments != [] {
      assert segments[0] in segments;
      MatchedBelow(version, segments[1..], p, q, i + 1);
    }
  }

  lemma {:induction false} TryAllowsBelow(m: Machine, allows: seq<Allow>, op: Operation, u: Scope, v: Scope, a: Verdict, b: Verdict)
    requires a.Ruled? && b.Ruled? && ScopeBelow(u, v)
    ensures
      var x, y := TryAllows(m, allows, op, u, a), TryAllows(m, allows, op, v, b);
      !a.granted && x.Ruled? && x.granted && !x.mixed && y.Ruled? ==> y.granted
  {
    if allows != [] {
      var r, s := Eval(m, allows[0].condition, u, Fresh()), Eval(m, allows[0].condition, v, Fresh());
      EvalAgree(m, allows[0].condition, u, v, Fresh(), Fresh());
      if !Applies(allows[0], op) {
        TryAllowsBelow(m, allows[1..], op, u, v, a, b);
      } else if r.Done? && r.value != Bool(true) && s.Done? && s.value != Bool(true) {
        TryAllowsBelow(m, allows[1..], op, u, v, if r.value == Bool(false) then a else a.(errored := true),
                       if s.value == Bool(false) then b else b.(errored := true));
      }
    }
  }

  ghost predicate StillGranted(x: Verdict, y: Verdict) {
    x.Ruled? && x.granted && !x.mixed && y.Ruled? ==> y.granted
  }

  lemma {:induction false} WalkBelow(m: Machine, p: Request, q: Request, rule: MatchRule, consumed: nat,
                                     u: Scope, v: Scope, a: Verdict, b: Verdict)
    requires a.Ruled? && b.Ruled? && !a.granted && !b.granted && ScopeBelow(u, v) && PlainRule(rule)
    requires Spelled(p.path, q.path) && q == p.(path := q.path)
    ensures StillGranted(Walk(m, p, rule, consumed, u, a), Walk(m, q, rule, consumed, v, b))
    decreases rule, 1, 0
  {
    MatchedBelow(p.version, rule.path, p.path, q.path, consumed);
    var x, y := Matched(p.version, rule.path, p.path, consumed), Matched(q.version, rule.path, q.path, consumed);
    if x.Match? {
      var inner := m.(functions := m.functions + rule.functions);
      var s, t := p.globals + u + x.captures, q.globals + v + y.captures;
      assert ScopeBelow(s, t) && ScopeBelow(u + x.captures, v + y.captures);
      TryAllowsBelow(inner, rule.allows, p.op, s, t, a, b);
      var c := if x.after == |p.path| then TryAllows(inner, rule.allows, p.op, s, a) else a;
      var d := if y.after == |q.path| then TryAllows(inner, rule.allows, q.op, t, b) else b;
      if c.Ruled? && !c.granted && d.Ruled? && !d.granted {
        WalkAllBelow(inner, p, q, rule.children, x.after, u + x.captures, v + y.captures, c, d);
      }
    }
  }

  lemma {:induction false} WalkAllBelow(m: Machine, p: Request, q: Request, rules: seq<MatchRule>, consumed: nat,
                                        u: Scope, v: Scope, a: Verdict, b: Verdict)
    requires a.Ruled? && b.Ruled? && !a.granted && !b.granted && ScopeBelow(u, v)
    requires forall c :: c in rules ==> PlainRule(c)
    requires Spelled(p.path, q.path) && q == p.(path := q.path)
    ensures StillGranted(WalkAll(m, p, rules, consumed, u, a), WalkAll(m, q, rules, consumed, v, b))
    decreases rules, 0, |rules|
  {
    if rules != [] {
      assert rules[0] in rules;
      WalkBelow(m, p, q, rules[0], consumed, u, v, a, b);
      var c, d := Walk(m, p, rules[0], consumed, u, a), Walk(m, q, rules[0], consumed, v, b);
      if c.Ruled? && !c.granted && d.Ruled? && !d.granted {
        WalkAllBelow(m, p, q, rules[1..], consumed, u, v, c, d);
      }
    }
  }

  /** What is allowed on a collection with an unspecified document is allowed
      on that collection with any document, under the same globals: for plain
      rules, where the condition that granted mixed no other values into its
      logic and the second decision stays within its budgets. */
  lemma ListedMeansEach(m: Machine, ruleset: Ruleset, service: string, op: Operation, collection: seq<string>, id: string,
                        globals: Scope)
    requires forall s, c :: s in ruleset.services && c in s.matches ==> PlainRule(c)
    requires
      var v := Decide(m, ruleset, service, op, collection + [WILDCARD], globals);
      v.Ruled? && v.granted && !v.mixed
    requires Decide(m, ruleset, service, op, collection + [id], globals).Ruled?
    ensures Decide(m, ruleset, service, op, collection + [id], globals).granted
  {
    var found := FindService(ruleset.services, service);
    ServiceFound(ruleset.services, service);
    WalkAllBelow(m.(functions := found.value.functions),
                 Request(ruleset.version, collection + [WILDCARD], op, globals),
                 Request(ruleset.version, collection + [id], op, globals),
                 found.value.matches, 0, [], [], Start(), Start());
  }

  lemma {:induction false} ServiceFound(services: seq<Service>, name: string)
    ensures FindService(services, name).Some? ==> FindService(services, name).value in services
  {
    if services != [] && services[0].name != name {
      ServiceFound(services[1..], name);
    }
  }
}
