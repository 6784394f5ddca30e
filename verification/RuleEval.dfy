/** Evaluating rules expressions: errors as values, absorbed by `&&` and `||`,
    under budgets of steps, lookups and call depth. */
module RuleEval {
  import opened Bits
  import opened Results
  import opened RuleValues

  const MAX_STEPS := 10_000
  const MAX_CALL_DEPTH := 20
  const MAX_LOOKUPS := 20

  datatype UnOp = Not | Neg

  datatype BinOp =
    | Arith(arithmetic: ArithmeticOp) | Comparing(comparison: ComparisonOp) | Eq | Ne | And | Or | In

  datatype PathPart = Static(name: string) | Splice(expr: Expr)

  /** What a literal can be. */
  type Atom = v: Val | v.Null? || v.Bool? || v.Int? || v.Float? || v.Str? witness Null

  datatype Expr =
    | Literal(value: Atom)
    | ListOf(items: seq<Expr>)
    | MapOf(entries: seq<(string, Expr)>)
    | PathOf(parts: seq<PathPart>)
    | Ident(name: string)
    | MemberOf(target: Expr, field: string)
    | IndexOf(target: Expr, index: Expr)
    | RangeOf(target: Expr, lo: Option<Expr>, hi: Option<Expr>)
    | Call(receiver: Option<Expr>, function_: string, args: seq<Expr>)
    | Unary(un: UnOp, operand: Expr)
    | Binary(bin: BinOp, left: Expr, right: Expr)
    | Ternary(cond: Expr, yes: Expr, no: Expr)
    | Is(operand: Expr, type_: string)

  datatype FunctionDecl = FunctionDecl(name: string, params: seq<string>, lets: seq<(string, Expr)>, body: Expr)

  /** The functions in reach, the built-ins, and the host's answers. */
  datatype Machine = Machine(
    functions: seq<FunctionDecl>,
    floats: Floats,
    method_: (Val, string, seq<Val>) -> Val,
    global: (string, seq<Val>) -> Val,
    getDocument: (seq<string>, bool) -> Result<Option<Val>, string>,
    exists_: (seq<string>, bool) -> Result<bool, string>)

  /** Later bindings shadow earlier ones. */
  type Scope = seq<(string, Val)>

  function Lookup(scope: Scope, name: string): Option<Val> {
    if scope == [] then None
    else if scope[|scope| - 1].0 == name then Some(scope[|scope| - 1].1)
    else Lookup(scope[..|scope| - 1], name)
  }

  /** The budgets spent; besides them, what the proofs watch: how often the
      host was called, and whether a logical operand was ever neither boolean
      nor error. */
  datatype State = State(steps: nat, lookups: nat, depth: nat, calls: nat, mixed: bool)

  datatype Outcome = Done(value: Val, st: State) | Fatal(st: State)

  /** The outcome of a list of expressions: all their values, or the error or
      exhaustion that stopped it. */
  datatype Many = All(values: seq<Val>, st: State) | Stopped(outcome: Outcome)

  predicate Ready(st: State) {
    st.steps <= MAX_STEPS && st.lookups <= MAX_LOOKUPS && st.calls <= st.lookups && st.depth <= MAX_CALL_DEPTH
  }

  /** Budgets only grow, and a finished evaluation is within them at the depth
      it started from. */
  predicate Within(st: State, r: Outcome) {
    && st.steps <= r.st.steps <= MAX_STEPS + 1 && r.st.calls <= MAX_LOOKUPS && (st.mixed ==> r.st.mixed)
    && (r.Done? ==> Ready(r.st) && r.st.depth == st.depth)
  }

  predicate ManyWithin(st: State, r: Many) {
    if r.Stopped? then Within(st, r.outcome) else Within(st, Done(Undefined, r.st))
  }

  // ---- expressions ----

  /** Every expression costs a step. */
  function Eval(m: Machine, x: Expr, scope: Scope, st: State): (r: Outcome)
    requires Ready(st)
    ensures Within(st, r) && st.steps < r.st.steps
    decreases MAX_STEPS - st.steps + 1, 0, 0
  {
    var next := st.(steps := st.steps + 1);
    if next.steps > MAX_STEPS then Fatal(next) else Node(m, x, scope, next)
  }

  function Node(m: Machine, x: Expr, scope: Scope, st: State): (r: Outcome)
    requires Ready(st)
    ensures Within(st, r)
    decreases MAX_STEPS - st.steps + 1, 3, 0
  {
    match x
    case Literal(v) => Done(v, st)
    case ListOf(items) => ListNode(m, items, scope, st)
    case MapOf(entries) => Entries(m, entries, map[], scope, st)
    case PathOf(parts) => Parts(m, parts, [], scope, st)
    case Ident(name) => Done(if Lookup(scope, name).Some? then Lookup(scope, name).value else Undefined, st)
    case MemberOf(target, field) => MemberNode(m, target, field, scope, st)
    case IndexOf(target, index) => IndexNode(m, target, index, scope, st)
    case RangeOf(target, lo, hi) => RangeNode(m, target, lo, hi, scope, st)
    case Call(receiver, name, args) => CallNode(m, receiver, name, args, scope, st)
    case Unary(op, operand) => UnaryNode(m, op, operand, scope, st)
    case Binary(op, l, r) =>
      if op.And? then Logical(m, l, r, scope, st, false)
      else if op.Or? then Logical(m, l, r, scope, st, true)
      else BinaryNode(m, op, l, r, scope, st)
    case Ternary(cond, yes, no) => TernaryNode(m, cond, yes, no, scope, st)
    case Is(operand, ty) => IsNode(m, operand, ty, scope, st)
  }

  /** Left to right, up to the first error. */
  function Many_(m: Machine, items: seq<Expr>, scope: Scope, st: State): (r: Many)
    requires Ready(st)
    ensures ManyWithin(st, r)
    ensures r.All? ==> |r.values| == |items| && Undefined !in r.values
    ensures r.Stopped? && r.outcome.Done? ==> r.outcome.value.Undefined?
    decreases MAX_STEPS - st.steps + 1, 1, |items|
  {
    if items == [] then All([], st)
    else
      var first := Eval(m, items[0], scope, st);
      if first.Fatal? || first.value.Undefined? then Stopped(first)
      else
        var rest := Many_(m, items[1..], scope, first.st);
        if rest.Stopped? then rest else All([first.value] + rest.values, rest.st)
  }

  function ListNode(m: Machine, items: seq<Expr>, scope: Scope, st: State): (r: Outcome)
    requires Ready(st)
    ensures Within(st, r)
    decreases MAX_STEPS - st.steps + 1, 2, 0
  {
    var values := Many_(m, items, scope, st);
    if values.Stopped? then values.outcome else Done(List(values.values), values.st)
  }

  function Entries(m: Machine, entries: seq<(string, Expr)>, done: map<string, Val>, scope: Scope, st: State): (r: Outcome)
    requires Ready(st)
    ensures Within(st, r)
    decreases MAX_STEPS - st.steps + 1, 1, |entries|
  {
    if entries == [] then Done(Map(done), st)
    else
      var first := Eval(m, entries[0].1, scope, st);
      if first.Fatal? || first.value.Undefined? then first
      else Entries(m, entries[1..], done[entries[0].0 := first.value], scope, first.st)
  }

  function Parts(m: Machine, parts: seq<PathPart>, done: seq<string>, scope: Scope, st: State): (r: Outcome)
    requires Ready(st)
    ensures Within(st, r)
    decreases MAX_STEPS - st.steps + 1, 1, |parts|
  {
    if parts == [] then Done(Path(done), st)
    else
      match parts[0]
      case Static(name) => Parts(m, parts[1..], done + [name], scope, st)
      case Splice(x) =>
        var v := Eval(m, x, scope, st);
        if v.Fatal? then v
        else if v.value.Str? then Parts(m, parts[1..], done + [v.value.s], scope, v.st)
        else if v.value.Path? then Parts(m, parts[1..], done + v.value.segments, scope, v.st)
        else Done(Undefined, v.st)
  }

  function MemberNode(m: Machine, target: Expr, field: string, scope: Scope, st: State): (r: Outcome)
    requires Ready(st)
    ensures Within(st, r)
    decreases MAX_STEPS - st.steps + 1, 2, 0
  {
    var base := Eval(m, target, scope, st);
    if base.Fatal? then base else Done(Member(base.value, field), base.st)
  }

  function IndexNode(m: Machine, target: Expr, index: Expr, scope: Scope, st: State): (r: Outcome)
    requires Ready(st)
    ensures Within(st, r)
    decreases MAX_STEPS - st.steps + 1, 2, 0
  {
    var both := Many_(m, [target, index], scope, st);
    if both.Stopped? then both.outcome else Done(IndexValue(both.values[0], both.values[1]), both.st)
  }

  /** A range bound: absent, an int cut off at zero, or an error. */
  datatype BoundResult = Bound(at: Option<nat>, st: State) | Failed(outcome: Outcome)

  function BoundOf(m: Machine, x: Option<Expr>, scope: Scope, st: State): (r: BoundResult)
    requires Ready(st)
    ensures if r.Failed? then Within(st, r.outcome) else Within(st, Done(Undefined, r.st))
    ensures r.Failed? && r.outcome.Done? ==> r.outcome.value.Undefined?
    decreases MAX_STEPS - st.steps + 1, 1, 0
  {
    match x
    case None => Bound(None, st)
    case Some(e) =>
      var v := Eval(m, e, scope, st);
      if v.Fatal? then Failed(v)
      else if v.value.Int? then Bound(Some(if v.value.i > 0 then v.value.i else 0), v.st)
      else Failed(Done(Undefined, v.st))
  }

  function RangeNode(m: Machine, target: Expr, lo: Option<Expr>, hi: Option<Expr>, scope: Scope, st: State): (r: Outcome)
    requires Ready(st)
    ensures Within(st, r)
    decreases MAX_STEPS - st.steps + 1, 2, 0
  {
    var base := Eval(m, target, scope, st);
    if base.Fatal? || base.value.Undefined? then base else Sliced(m, base.value, lo, hi, scope, base.st)
  }

  function Sliced(m: Machine, base: Val, lo: Option<Expr>, hi: Option<Expr>, scope: Scope, st: State): (r: Outcome)
    requires Ready(st)
    ensures Within(st, r)
    decreases MAX_STEPS - st.steps + 1, 2, 0
  {
    var l := BoundOf(m, lo, scope, st);
    if l.Failed? then l.outcome
    else
      var h := BoundOf(m, hi, scope, l.st);
      if h.Failed? then h.outcome
      else Done(RangeValue(base, if l.at.Some? then l.at.value else 0, h.at), h.st)
  }

  function Negated(fl: Floats, op: UnOp, v: Val): Val {
    match (op, v)
    case (Not, Bool(b)) => Bool(!b)
    case (Neg, Int(i)) => InRange(0 - i)
    case (Neg, Float(f)) => Float(fl.negate(f))
    case _ => Undefined
  }

  function UnaryNode(m: Machine, op: UnOp, operand: Expr, scope: Scope, st: State): (r: Outcome)
    requires Ready(st)
    ensures Within(st, r)
    decreases MAX_STEPS - st.steps + 1, 2, 0
  {
    var v := Eval(m, operand, scope, st);
    if v.Fatal? then v else Done(Negated(m.floats, op, v.value), v.st)
  }

  function BinaryValue(fl: Floats, op: BinOp, l: Val, r: Val): Val {
    match op
    case Arith(a) => Arithmetic(fl, a, l, r)
    case Comparing(c) => Compared(fl, c, l, r)
    case Eq => Bool(Equals(fl, l, r))
    case Ne => Bool(!Equals(fl, l, r))
    case In => Contained(fl, l, r)
    case _ => Undefined
  }

  function BinaryNode(m: Machine, op: BinOp, l: Expr, r: Expr, scope: Scope, st: State): (o: Outcome)
    requires Ready(st)
    ensures Within(st, o)
    decreases MAX_STEPS - st.steps + 1, 2, 0
  {
    var both := Many_(m, [l, r], scope, st);
    if both.Stopped? then both.outcome
    else Done(BinaryValue(m.floats, op, both.values[0], both.values[1]), both.st)
  }

  function TernaryNode(m: Machine, cond: Expr, yes: Expr, no: Expr, scope: Scope, st: State): (r: Outcome)
    requires Ready(st)
    ensures Within(st, r)
    decreases MAX_STEPS - st.steps + 1, 2, 0
  {
    var c := Eval(m, cond, scope, st);
    if c.Fatal? then c
    else if !c.value.Bool? then Done(Undefined, c.st)
    else Eval(m, if c.value.b then yes else no, scope, c.st)
  }

  function IsNode(m: Machine, operand: Expr, ty: string, scope: Scope, st: State): (r: Outcome)
    requires Ready(st)
    ensures Within(st, r)
    decreases MAX_STEPS - st.steps + 1, 2, 0
  {
    var v := Eval(m, operand, scope, st);
    if v.Fatal? || v.value.Undefined? then v else Done(Bool(MatchesType(v.value, ty)), v.st)
  }

  // ---- logic ----

  predicate BoolOrError(v: Val) {
    v.Bool? || v.Undefined?
  }

  function Watched(st: State, v: Val): State {
    st.(mixed := st.mixed || !BoolOrError(v))
  }

  /** What `&&` (isOr false) and `||` make of two evaluated operands. */
  function Absorbed(l: Val, r: Val, isOr: bool): Val {
    if l.Bool? && r.Bool? then r
    else if r.Bool? && r.b == isOr then r
    else if r.Bool? then l
    else if l.Bool? then r
    else l
  }

  /** Short circuit first; then an error on one side gives way to a deciding
      value on the other. */
  function Logical(m: Machine, l: Expr, r: Expr, scope: Scope, st: State, isOr: bool): (o: Outcome)
    requires Ready(st)
    ensures Within(st, o)
    decreases MAX_STEPS - st.steps + 1, 2, 0
  {
    var left := Eval(m, l, scope, st);
    if left.Fatal? then left
    else if left.value == Bool(isOr) then left
    else LogicalRight(m, left.value, r, scope, left.st, isOr)
  }

  function LogicalRight(m: Machine, l: Val, r: Expr, scope: Scope, st: State, isOr: bool): (o: Outcome)
    requires Ready(st)
    ensures Within(st, o)
    decreases MAX_STEPS - st.steps + 1, 2, 0
  {
    RightOutcome(l, Eval(m, r, scope, Watched(st, l)), isOr)
  }

  function RightOutcome(l: Val, right: Outcome, isOr: bool): Outcome {
    if right.Fatal? then right else Done(Absorbed(l, right.value, isOr), Watched(right.st, right.value))
  }

  // ---- calls ----

  predicate IsNamespace(name: string) {
    name == "math" || name == "duration" || name == "latlng" || name == "timestamp" || name == "hashing"
  }

  /** `math.round` and friends, unless the name is a variable. */
  predicate Namespaced(receiver: Option<Expr>, scope: Scope) {
    && receiver.Some? && receiver.value.Ident? && IsNamespace(receiver.value.name)
    && Lookup(scope, receiver.value.name).None?
  }

  /** Receiver and arguments first; any error stops the call before it is made. */
  function CallNode(m: Machine, receiver: Option<Expr>, name: string, args: seq<Expr>, scope: Scope, st: State): (r: Outcome)
    requires Ready(st)
    ensures Within(st, r)
    decreases MAX_STEPS - st.steps + 1, 2, 0
  {
    if Namespaced(receiver, scope) then
      var argv := Many_(m, args, scope, st);
      if argv.Stopped? then argv.outcome
      else GlobalCall(m, receiver.value.name + "." + name, argv.values, argv.st)
    else if receiver.Some? then
      var all := Many_(m, [receiver.value] + args, scope, st);
      if all.Stopped? then all.outcome
      else Done(m.method_(all.values[0], name, all.values[1..]), all.st)
    else
      var argv := Many_(m, args, scope, st);
      if argv.Stopped? then argv.outcome
      else
        var decl := FindFunction(m.functions, name);
        if decl.None? then GlobalCall(m, name, argv.values, argv.st)
        else UserCall(m, decl.value, argv.values, scope, argv.st)
  }

  function FindFunction(functions: seq<FunctionDecl>, name: string): Option<FunctionDecl> {
    if functions == [] then None
    else if functions[0].name == name then Some(functions[0])
    else FindFunction(functions[1..], name)
  }

  predicate IsHostCall(name: string) {
    name == "get" || name == "getAfter" || name == "exists" || name == "existsAfter"
  }

  function HostAnswer(m: Machine, name: string, path: seq<string>): Val {
    var after := name == "getAfter" || name == "existsAfter";
    if name == "get" || name == "getAfter" then
      match m.getDocument(path, after)
      case Ok(Some(v)) => v
      case Ok(None) => Null
      case Err(_) => Undefined
    else
      match m.exists_(path, after)
      case Ok(b) => Bool(b)
      case Err(_) => Undefined
  }

  /** Host calls count against the lookup budget, which is checked first. */
  function GlobalCall(m: Machine, name: string, argv: seq<Val>, st: State): (r: Outcome)
    requires Ready(st)
    ensures Within(st, r)
  {
    if !IsHostCall(name) then Done(m.global(name, argv), st)
    else if argv == [] || !argv[0].Path? then Done(Undefined, st)
    else if st.lookups + 1 > MAX_LOOKUPS then Fatal(st.(lookups := st.lookups + 1))
    else Done(HostAnswer(m, name, argv[0].segments), st.(lookups := st.lookups + 1, calls := st.calls + 1))
  }

  /** The caller's variables stay visible, except under parameter names. */
  function Inherited(scope: Scope, params: seq<string>): Scope {
    if scope == [] then []
    else
      Inherited(scope[..|scope| - 1], params)
      + if scope[|scope| - 1].0 in params then [] else [scope[|scope| - 1]]
  }

  function Bound_(params: seq<string>, argv: seq<Val>): Scope
    requires |params| == |argv|
  {
    if params == [] then [] else [(params[0], argv[0])] + Bound_(params[1..], argv[1..])
  }

  datatype LetResult = Let(scope: Scope, st: State) | LetFatal(st: State)

  /** A `let` may bind an error. */
  function Lets(m: Machine, lets: seq<(string, Expr)>, scope: Scope, st: State): (r: LetResult)
    requires Ready(st)
    ensures if r.LetFatal? then Within(st, Fatal(r.st)) else Within(st, Done(Undefined, r.st))
    decreases MAX_STEPS - st.steps + 1, 1, |lets|
  {
    if lets == [] then Let(scope, st)
    else
      var v := Eval(m, lets[0].1, scope, st);
      if v.Fatal? then LetFatal(v.st) else Lets(m, lets[1..], scope + [(lets[0].0, v.value)], v.st)
  }

  function Ascended(r: Outcome): Outcome {
    if r.st.depth == 0 then r else r.(st := r.st.(depth := r.st.depth - 1))
  }

  function UserCall(m: Machine, decl: FunctionDecl, argv: seq<Val>, scope: Scope, st: State): (r: Outcome)
    requires Ready(st)
    ensures Within(st, r)
    decreases MAX_STEPS - st.steps + 1, 1, |decl.lets| + 1
  {
    if |decl.params| != |argv| then Done(Undefined, st)
    else if st.depth + 1 > MAX_CALL_DEPTH then Fatal(st)
    else
      var inner := Inherited(scope, decl.params) + Bound_(decl.params, argv);
      var lets := Lets(m, decl.lets, inner, st.(depth := st.depth + 1));
      if lets.LetFatal? then Fatal(lets.st) else Ascended(Eval(m, decl.body, lets.scope, lets.st))
  }
}
