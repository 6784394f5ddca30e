/** Printing expressions with parentheses where precedence asks for them, and the proof that the
    parser reads every one back as it was. */
module RuleRendering {
  import opened Results
  import opened RuleValues
  import opened RuleEval
  import opened RuleParser

  // ---- printing ----

  /** How tightly an expression holds together unparenthesized. */
  function Level(x: Expr): nat {
    match x
    case Ternary(_, _, _) => 1
    case Binary(op, _, _) => OpPower(op)
    case Is(_, _) => 5
    case Unary(_, _) => 8
    case _ => 9
  }

  function OpTok(op: BinOp): Tok {
    match op
    case Or => OrOr
    case And => AndAnd
    case Eq => EqEq
    case Ne => NotEq
    case Comparing(c) => if c.Lt? then LtTok else if c.Le? then LeTok else if c.Gt? then GtTok else GeTok
    case In => TIdent("in")
    case Arith(a) =>
      if a.Plus? then Plus_ else if a.Minus? then Minus_ else if a.Times? then Star
      else if a.Divided? then Slash else Percent
  }

  function LiteralTok(v: Atom): Tok {
    match v
    case Bool(b) => TIdent(if b then "true" else "false")
    case Int(i) => TInt(i)
    case Float(f) => TFloat(f)
    case Str(s) => TStr(s)
    case _ => TIdent("null")
  }

  /** Parentheses only where the context binds tighter. */
  function Show(x: Expr, min: nat): seq<Tok>
    decreases x, 2
  {
    if Level(x) < min then [LParen] + Body(x) + [RParen] else Body(x)
  }

  function ShowOption(x: Option<Expr>): seq<Tok>
    decreases x, 0
  {
    if x.None? then [] else Show(x.value, 0)
  }

  function ShowAll(items: seq<Expr>): seq<Tok>
    decreases items, 0
  {
    if items == [] then []
    else if |items| == 1 then Show(items[0], 0)
    else Show(items[0], 0) + [Comma] + ShowAll(items[1..])
  }

  /** A map's entries from the `k`th on. */
  function ShowEntries(x: Expr, k: nat): seq<Tok>
    requires x.MapOf? && k <= |x.entries|
    decreases x, 0, |x.entries| - k
  {
    if k == |x.entries| then []
    else
      var first := [TStr(x.entries[k].0), Colon] + Show(x.entries[k].1, 0);
      if k + 1 == |x.entries| then first else first + [Comma] + ShowEntries(x, k + 1)
  }

  function Body(x: Expr): seq<Tok>
    decreases x, 1
  {
    match x
    case Literal(v) => [LiteralTok(v)]
    case Ident(name) => [TIdent(name)]
    case ListOf(items) => [LBracket] + ShowAll(items) + [RBracket]
    case MapOf(_) => [LBrace] + ShowEntries(x, 0) + [RBrace]
    case PathOf(_) => []
    case MemberOf(target, field) => Show(target, 9) + [Dot, TIdent(field)]
    case IndexOf(target, index) => Show(target, 9) + [LBracket] + Show(index, 0) + [RBracket]
    case RangeOf(target, lo, hi) => Show(target, 9) + [LBracket] + ShowOption(lo) + [Colon] + ShowOption(hi) + [RBracket]
    case Call(receiver, name, args) =>
      (if receiver.Some? then Show(receiver.value, 9) + [Dot] else [])
      + [TIdent(name), LParen] + ShowAll(args) + [RParen]
    case Unary(op, operand) => [if op.Not? then Bang else Minus_] + Show(operand, 8)
    case Binary(op, l, r) => Show(l, OpPower(op)) + [OpTok(op)] + Show(r, OpPower(op) + 1)
    case Ternary(c, y, n) => Show(c, 2) + [Question] + Show(y, 0) + [Colon] + Show(n, 1)
    case Is(operand, ty) => Show(operand, 5) + [TIdent("is"), TIdent(ty)]
  }

  // ---- what the grammar can produce ----

  predicate IsKeyword(name: string) {
    name == "true" || name == "false" || name == "null"
  }

  /** No path literals, and no variable or function named like a constant. */
  predicate Sayable(x: Expr)
    decreases x
  {
    match x
    case Literal(_) => true
    case Ident(name) => !IsKeyword(name)
    case ListOf(items) => forall i :: i in items ==> Sayable(i)
    case MapOf(entries) => forall e :: e in entries ==> Sayable(e.1)
    case PathOf(_) => false
    case MemberOf(target, _) => Sayable(target)
    case IndexOf(target, index) => Sayable(target) && Sayable(index)
    case RangeOf(target, lo, hi) =>
      Sayable(target) && (lo.Some? ==> Sayable(lo.value)) && (hi.Some? ==> Sayable(hi.value))
    case Call(receiver, name, args) =>
      && (if receiver.Some? then Sayable(receiver.value) else !IsKeyword(name))
      && forall a :: a in args ==> Sayable(a)
    case Unary(_, operand) => Sayable(operand)
    case Binary(_, l, r) => Sayable(l) && Sayable(r)
    case Ternary(c, y, n) => Sayable(c) && Sayable(y) && Sayable(n)
    case Is(operand, _) => Sayable(operand)
  }

  // ---- nesting ----

  function Max(a: nat, b: nat): nat {
    if a < b then b else a
  }

  /** The parser's nesting below an expression printed in a context. */
  function ShowNeed(x: Expr, min: nat): nat
    decreases x, 2
  {
    if Level(x) < min then 1 + Need(x) else Need(x)
  }

  function OptionNeed(x: Option<Expr>): nat
    decreases x, 0
  {
    if x.None? then 0 else 1 + ShowNeed(x.value, 0)
  }

  function AllNeed(items: seq<Expr>): nat
    decreases items, 0
  {
    if items == [] then 0 else Max(1 + ShowNeed(items[0], 0), AllNeed(items[1..]))
  }

  function EntriesNeed(x: Expr, k: nat): nat
    requires x.MapOf? && k <= |x.entries|
    decreases x, 0, |x.entries| - k
  {
    if k == |x.entries| then 0 else Max(1 + ShowNeed(x.entries[k].1, 0), EntriesNeed(x, k + 1))
  }

  function Need(x: Expr): nat
    decreases x, 1
  {
    match x
    case Literal(_) => 0
    case Ident(_) => 0
    case ListOf(items) => AllNeed(items)
    case MapOf(_) => EntriesNeed(x, 0)
    case PathOf(_) => 0
    case MemberOf(target, _) => ShowNeed(target, 9)
    case IndexOf(target, index) => Max(ShowNeed(target, 9), 1 + ShowNeed(index, 0))
    case RangeOf(target, lo, hi) => Max(ShowNeed(target, 9), Max(OptionNeed(lo), OptionNeed(hi)))
    case Call(receiver, _, args) => Max(if receiver.Some? then ShowNeed(receiver.value, 9) else 0, AllNeed(args))
    case Unary(_, operand) => 1 + ShowNeed(operand, 8)
    case Binary(op, l, r) => Max(ShowNeed(l, OpPower(op)), 1 + ShowNeed(r, OpPower(op) + 1))
    case Ternary(c, y, n) => Max(ShowNeed(c, 2), Max(1 + ShowNeed(y, 0), 1 + ShowNeed(n, 1)))
    case Is(operand, _) => ShowNeed(operand, 5)
  }

  // ---- tokens ----

  /** Tokens an expression can start with. */
  predicate Opens(t: Tok) {
    t.TIdent? || t.TStr? || t.TInt? || t.TFloat? || t == LParen || t == LBracket || t == LBrace || t == Bang || t == Minus_
  }

  /** Tokens that would carry on a finished operand. */
  predicate Continues(t: Tok) {
    t == Dot || t == LBracket || t == LParen
  }

  /** Where an expression asked for at `min` must end. */
  predicate StopsAt(t: Tok, min: nat) {
    !Continues(t) && (OperatorOf(t).Some? ==> Power(OperatorOf(t).value) < min)
  }

  /** The tightest operator an unparenthesized expression can be followed by
      without losing its right end to it. */
  function RightPower(x: Expr): nat {
    match x
    case Ternary(_, _, _) => 0
    case Binary(op, _, _) => OpPower(op)
    case _ => 9
  }

  predicate MayFollow(t: Tok, x: Expr, min: nat) {
    !Continues(t) && (Level(x) < min || (OperatorOf(t).Some? ==> Power(OperatorOf(t).value) <= RightPower(x)))
  }

  lemma {:induction false} ShowOpens(x: Expr, min: nat)
    requires Sayable(x)
    ensures Show(x, min) != [] && Opens(Show(x, min)[0])
    decreases x, 1
  {
    BodyOpens(x);
  }

  lemma {:induction false} BodyOpens(x: Expr)
    requires Sayable(x)
    ensures Body(x) != [] && Opens(Body(x)[0])
    decreases x, 0
  {
    match x
    case MemberOf(target, _) => ShowOpens(target, 9);
    case IndexOf(target, _) => ShowOpens(target, 9);
    case RangeOf(target, _, _) => ShowOpens(target, 9);
    case Call(receiver, _, _) =>
      if receiver.Some? {
        ShowOpens(receiver.value, 9);
      }
    case Binary(op, l, _) => ShowOpens(l, OpPower(op));
    case Ternary(c, _, _) => ShowOpens(c, 2);
    case Is(operand, _) => ShowOpens(operand, 5);
    case _ =>
  }

  lemma OpTokIs(op: BinOp)
    ensures OperatorOf(OpTok(op)) == Some(Operating(op)) && OpTok(op) != Eof && !Continues(OpTok(op))
  {}

  lemma EndsAfter(ts: seq<Tok>, rest: seq<Tok>)
    requires Ends(rest)
    ensures Ends(ts + rest)
  {}

  lemma NextOf(t: Tok, rest: seq<Tok>)
    requires Ends(rest) && t != Eof
    ensures Ends([t] + rest) && Next([t] + rest) == rest && ([t] + rest)[0] == t
  {}

  // ---- one step of the parser each ----

  lemma OperatorStep(min: nat, lhs: Expr, op: BinOp, shown: seq<Tok>, r: Expr, rest: seq<Tok>, depth: nat)
    requires Ends(rest) && min <= OpPower(op)
    requires Ends(shown + rest) && ParseExpr(OpPower(op) + 1, shown + rest, depth) == Parsed(r, rest)
    ensures Ends([OpTok(op)] + (shown + rest))
    ensures Operators(min, lhs, [OpTok(op)] + (shown + rest), depth) == Operators(min, Binary(op, lhs, r), rest, depth)
  {
    OpTokIs(op);
    NextOf(OpTok(op), shown + rest);
  }

  lemma TernaryStep(min: nat, c: Expr, y: Expr, n: Expr, yes: seq<Tok>, no: seq<Tok>, rest: seq<Tok>, depth: nat)
    requires Ends(rest) && min <= 1 && Ends(no + rest) && Ends(yes + ([Colon] + (no + rest)))
    requires ParseExpr(0, yes + ([Colon] + (no + rest)), depth) == Parsed(y, [Colon] + (no + rest))
    requires ParseExpr(1, no + rest, depth) == Parsed(n, rest)
    ensures Ends([Question] + (yes + ([Colon] + (no + rest))))
    ensures Operators(min, c, [Question] + (yes + ([Colon] + (no + rest))), depth)
         == Operators(min, Ternary(c, y, n), rest, depth)
  {
    NextOf(Question, yes + ([Colon] + (no + rest)));
    NextOf(Colon, no + rest);
  }

  lemma IsStep(min: nat, x: Expr, ty: string, rest: seq<Tok>, depth: nat)
    requires Ends(rest) && min <= 5
    ensures Ends([TIdent("is")] + ([TIdent(ty)] + rest))
    ensures Operators(min, x, [TIdent("is")] + ([TIdent(ty)] + rest), depth) == Operators(min, Is(x, ty), rest, depth)
  {
    NextOf(TIdent(ty), rest);
    NextOf(TIdent("is"), [TIdent(ty)] + rest);
  }

  lemma Settles(x: Expr, rest: seq<Tok>, depth: nat)
    requires Ends(rest) && !Continues(rest[0])
    ensures Postfix(x, rest, depth) == Parsed(x, rest)
  {}

  lemma ParenStep(shown: seq<Tok>, x: Expr, rest: seq<Tok>, depth: nat)
    requires Ends(rest) && Ends(shown + ([RParen] + rest))
    requires ParseExpr(0, shown + ([RParen] + rest), depth) == Parsed(x, [RParen] + rest)
    ensures Ends([LParen] + (shown + ([RParen] + rest)))
    ensures Prefix([LParen] + (shown + ([RParen] + rest)), depth) == Postfix(x, rest, depth)
  {
    NextOf(LParen, shown + ([RParen] + rest));
    NextOf(RParen, rest);
  }

  lemma UnaryStep(op: UnOp, shown: seq<Tok>, x: Expr, rest: seq<Tok>, depth: nat)
    requires Ends(rest) && Ends(shown + rest) && ParseExpr(8, shown + rest, depth) == Parsed(x, rest)
    ensures
      var t := if op.Not? then Bang else Minus_;
      Ends([t] + (shown + rest)) && Prefix([t] + (shown + rest), depth) == Postfix(Unary(op, x), rest, depth)
  {
    NextOf(if op.Not? then Bang else Minus_, shown + rest);
  }

  lemma MemberStep(x: Expr, field: string, rest: seq<Tok>, depth: nat)
    requires Ends(rest) && rest[0] != LParen
    ensures Ends([Dot] + ([TIdent(field)] + rest))
    ensures Postfix(x, [Dot] + ([TIdent(field)] + rest), depth) == Postfix(MemberOf(x, field), rest, depth)
  {
    NextOf(TIdent(field), rest);
    NextOf(Dot, [TIdent(field)] + rest);
  }

  lemma IndexStep(x: Expr, shown: seq<Tok>, index: Expr, rest: seq<Tok>, depth: nat)
    requires Ends(rest) && shown != [] && Opens(shown[0]) && Ends(shown + ([RBracket] + rest))
    requires ParseExpr(0, shown + ([RBracket] + rest), depth) == Parsed(index, [RBracket] + rest)
    ensures Ends([LBracket] + (shown + ([RBracket] + rest)))
    ensures Postfix(x, [LBracket] + (shown + ([RBracket] + rest)), depth) == Postfix(IndexOf(x, index), rest, depth)
  {
    var inside := shown + ([RBracket] + rest);
    NextOf(RBracket, rest);
    NextOf(LBracket, inside);
    assert Subscript(x, inside, depth) == Parsed(IndexOf(x, index), rest);
  }

  lemma MethodStep(x: Expr, name: string, shown: seq<Tok>, args: seq<Expr>, rest: seq<Tok>, depth: nat)
    requires Ends(rest) && Ends(shown + ([RParen] + rest))
    requires Items(shown + ([RParen] + rest), depth, RParen) == ParsedMany(args, rest)
    ensures Ends([Dot] + ([TIdent(name)] + ([LParen] + (shown + ([RParen] + rest)))))
    ensures Postfix(x, [Dot] + ([TIdent(name)] + ([LParen] + (shown + ([RParen] + rest)))), depth)
         == Postfix(Call(Some(x), name, args), rest, depth)
  {
    var inside := shown + ([RParen] + rest);
    NextOf(LParen, inside);
    NextOf(TIdent(name), [LParen] + inside);
    NextOf(Dot, [TIdent(name)] + ([LParen] + inside));
  }

  lemma CallStep(name: string, shown: seq<Tok>, args: seq<Expr>, rest: seq<Tok>, depth: nat)
    requires Ends(rest) && Ends(shown + ([RParen] + rest)) && !IsKeyword(name)
    requires Items(shown + ([RParen] + rest), depth, RParen) == ParsedMany(args, rest)
    ensures Ends([TIdent(name)] + ([LParen] + (shown + ([RParen] + rest))))
    ensures Prefix([TIdent(name)] + ([LParen] + (shown + ([RParen] + rest))), depth)
         == Postfix(Call(None, name, args), rest, depth)
  {
    var inside := shown + ([RParen] + rest);
    NextOf(LParen, inside);
    NextOf(TIdent(name), [LParen] + inside);
    PrimaryName(name, [LParen] + inside, depth);
    assert NameOrCall(name, [LParen] + inside, depth) == Parsed(Call(None, name, args), rest);
  }

  lemma PrimaryName(name: string, rest: seq<Tok>, depth: nat)
    requires Ends(rest)
    ensures Ends([TIdent(name)] + rest)
    ensures Primary([TIdent(name)] + rest, depth) == NameOrCall(name, rest, depth)
  {
    NextOf(TIdent(name), rest);
  }

  lemma ListStep(shown: seq<Tok>, items: seq<Expr>, rest: seq<Tok>, depth: nat)
    requires Ends(rest) && Ends(shown + ([RBracket] + rest))
    requires Items(shown + ([RBracket] + rest), depth, RBracket) == ParsedMany(items, rest)
    ensures Ends([LBracket] + (shown + ([RBracket] + rest)))
    ensures Prefix([LBracket] + (shown + ([RBracket] + rest)), depth) == Postfix(ListOf(items), rest, depth)
  {
    NextOf(LBracket, shown + ([RBracket] + rest));
  }

  lemma MapStep(shown: seq<Tok>, entries: seq<(string, Expr)>, rest: seq<Tok>, depth: nat)
    requires Ends(rest) && Ends(shown + ([RBrace] + rest))
    requires Entries_(shown + ([RBrace] + rest), depth) == ParsedMap(entries, rest)
    ensures Ends([LBrace] + (shown + ([RBrace] + rest)))
    ensures Prefix([LBrace] + (shown + ([RBrace] + rest)), depth) == Postfix(MapOf(entries), rest, depth)
  {
    NextOf(LBrace, shown + ([RBrace] + rest));
  }

  lemma AtomStep(v: Atom, rest: seq<Tok>, depth: nat)
    requires Ends(rest) && rest[0] != LParen
    ensures Ends([LiteralTok(v)] + rest)
    ensures Prefix([LiteralTok(v)] + rest, depth) == Postfix(Literal(v), rest, depth)
  {
    NextOf(LiteralTok(v), rest);
    if v.Bool? || v.Null? {
      PrimaryName(LiteralTok(v).name, rest, depth);
      Keywords();
    }
    assert Primary([LiteralTok(v)] + rest, depth) == Parsed(Literal(v), rest);
  }

  lemma Keywords()
    ensures "true" != "false" && "true" != "null" && "false" != "null"
  {
    assert |"true"| == 4 && |"false"| == 5 && "true"[0] != "null"[0];
  }

  lemma NameStep(name: string, rest: seq<Tok>, depth: nat)
    requires Ends(rest) && rest[0] != LParen && !IsKeyword(name)
    ensures Ends([TIdent(name)] + rest)
    ensures Prefix([TIdent(name)] + rest, depth) == Postfix(Ident(name), rest, depth)
  {
    PrimaryName(name, rest, depth);
    assert NameOrCall(name, rest, depth) == Parsed(Ident(name), rest);
  }
}
