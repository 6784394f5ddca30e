/** The expression grammar: a Pratt parser over tokens. */
module RuleParser {
  import opened Bits
  import opened Results
  import opened RuleValues
  import opened RuleEval

  const MAX_EXPR_DEPTH := 100

  datatype Tok =
    | TIdent(name: string) | TStr(text: string) | TInt(i: i64) | TFloat(f: F64)
    | LParen | RParen | LBrace | RBrace | LBracket | RBracket
    | Comma | Semi | Colon | Question | Dot | Slash | Star | Percent | Plus_ | Minus_
    | EqEq | NotEq | LtTok | LeTok | GtTok | GeTok | AndAnd | OrOr | Bang | Assign | Eof

  /** What is left to read; the lexer ends every list with `Eof`. */
  predicate Ends(ts: seq<Tok>) {
    ts != [] && ts[|ts| - 1] == Eof
  }

  datatype Parsed = Parsed(expr: Expr, rest: seq<Tok>) | NoParse

  datatype ParsedMany = ParsedMany(items: seq<Expr>, left: seq<Tok>) | ManyFailed

  datatype ParsedMap = ParsedMap(entries: seq<(string, Expr)>, after: seq<Tok>) | MapFailed

  /** What an operator token does and how tightly it binds. */
  datatype Operator = Question_ | IsType | Operating(op: BinOp)

  function OperatorOf(t: Tok): Option<Operator> {
    match t
    case Question => Some(Question_)
    case OrOr => Some(Operating(Or))
    case AndAnd => Some(Operating(And))
    case EqEq => Some(Operating(Eq))
    case NotEq => Some(Operating(Ne))
    case LtTok => Some(Operating(Comparing(Lt)))
    case LeTok => Some(Operating(Comparing(Le)))
    case GtTok => Some(Operating(Comparing(Gt)))
    case GeTok => Some(Operating(Comparing(Ge)))
    case TIdent(name) => if name == "in" then Some(Operating(In)) else if name == "is" then Some(IsType) else None
    case Plus_ => Some(Operating(Arith(Plus)))
    case Minus_ => Some(Operating(Arith(Minus)))
    case Star => Some(Operating(Arith(Times)))
    case Slash => Some(Operating(Arith(Divided)))
    case Percent => Some(Operating(Arith(Modulo)))
    case _ => None
  }

  function OpPower(op: BinOp): nat {
    match op
    case Or => 2
    case And => 3
    case Eq => 4
    case Ne => 4
    case Comparing(_) => 5
    case In => 5
    case Arith(a) => if a.Plus? || a.Minus? then 6 else 7
  }

  function Power(o: Operator): nat {
    match o
    case Question_ => 1
    case IsType => 5
    case Operating(op) => OpPower(op)
  }

  /** The token list ahead, one token further. */
  function Next(ts: seq<Tok>): (rest: seq<Tok>)
    requires Ends(ts) && ts[0] != Eof
    ensures Ends(rest) && |rest| == |ts| - 1
  {
    ts[1..]
  }

  // ---- the grammar ----

  function ParseExpr(min: nat, ts: seq<Tok>, depth: nat): (r: Parsed)
    requires Ends(ts)
    ensures r.Parsed? ==> Ends(r.rest) && |r.rest| < |ts|
    decreases |ts|, 5
  {
    if depth + 1 > MAX_EXPR_DEPTH then NoParse else Inner(min, ts, depth + 1)
  }

  function Inner(min: nat, ts: seq<Tok>, depth: nat): (r: Parsed)
    requires Ends(ts)
    ensures r.Parsed? ==> Ends(r.rest) && |r.rest| < |ts|
    decreases |ts|, 4
  {
    var lhs := Prefix(ts, depth);
    if lhs.NoParse? then NoParse else Operators(min, lhs.expr, lhs.rest, depth)
  }

  /** Operators binding at least as tightly as asked, left to right. */
  function Operators(min: nat, lhs: Expr, ts: seq<Tok>, depth: nat): (r: Parsed)
    requires Ends(ts)
    ensures r.Parsed? ==> Ends(r.rest) && |r.rest| <= |ts|
    decreases |ts|, 3
  {
    var o := OperatorOf(ts[0]);
    if o.None? || Power(o.value) < min then Parsed(lhs, ts)
    else
      match o.value
      case Operating(op) =>
        var rhs := ParseExpr(OpPower(op) + 1, Next(ts), depth);
        if rhs.NoParse? then NoParse else Operators(min, Binary(op, lhs, rhs.expr), rhs.rest, depth)
      case Question_ =>
        var yes := ParseExpr(0, Next(ts), depth);
        if yes.NoParse? || yes.rest[0] != Colon then NoParse
        else
          var no := ParseExpr(1, Next(yes.rest), depth);
          if no.NoParse? then NoParse else Operators(min, Ternary(lhs, yes.expr, no.expr), no.rest, depth)
      case IsType =>
        var after := Next(ts);
        if !after[0].TIdent? then NoParse else Operators(min, Is(lhs, after[0].name), Next(after), depth)
  }

  function Prefix(ts: seq<Tok>, depth: nat): (r: Parsed)
    requires Ends(ts)
    ensures r.Parsed? ==> Ends(r.rest) && |r.rest| < |ts|
    decreases |ts|, 2
  {
    var first := Primary(ts, depth);
    if first.NoParse? then NoParse else Postfix(first.expr, first.rest, depth)
  }

  function NameOrCall(name: string, ts: seq<Tok>, depth: nat): (r: Parsed)
    requires Ends(ts)
    ensures r.Parsed? ==> Ends(r.rest) && |r.rest| <= |ts|
    decreases |ts|, 3
  {
    if name == "true" then Parsed(Literal(Bool(true)), ts)
    else if name == "false" then Parsed(Literal(Bool(false)), ts)
    else if name == "null" then Parsed(Literal(Null), ts)
    else if ts[0] == LParen then
      var args := Items(Next(ts), depth, RParen);
      if args.ManyFailed? then NoParse else Parsed(Call(None, name, args.items), args.left)
    else Parsed(Ident(name), ts)
  }

  /** Everything but what follows a finished operand. A `/` here starts a path
      literal, which is scanned from the raw source and not part of this. */
  function Primary(ts: seq<Tok>, depth: nat): (r: Parsed)
    requires Ends(ts)
    ensures r.Parsed? ==> Ends(r.rest) && |r.rest| < |ts|
    decreases |ts|, 1
  {
    match ts[0]
    case Bang =>
      var x := ParseExpr(8, Next(ts), depth);
      if x.NoParse? then NoParse else Parsed(Unary(Not, x.expr), x.rest)
    case Minus_ =>
      var x := ParseExpr(8, Next(ts), depth);
      if x.NoParse? then NoParse else Parsed(Unary(Neg, x.expr), x.rest)
    case TInt(i) => Parsed(Literal(Int(i)), Next(ts))
    case TFloat(f) => Parsed(Literal(Float(f)), Next(ts))
    case TStr(s) => Parsed(Literal(Str(s)), Next(ts))
    case LParen =>
      var x := ParseExpr(0, Next(ts), depth);
      if x.NoParse? || x.rest[0] != RParen then NoParse else Parsed(x.expr, Next(x.rest))
    case LBracket =>
      var items := Items(Next(ts), depth, RBracket);
      if items.ManyFailed? then NoParse else Parsed(ListOf(items.items), items.left)
    case LBrace =>
      var entries := Entries_(Next(ts), depth);
      if entries.MapFailed? then NoParse else Parsed(MapOf(entries.entries), entries.after)
    case TIdent(name) => NameOrCall(name, Next(ts), depth)
    case _ => NoParse
  }

  /** Members, calls, indices and ranges, as long as they come. */
  function Postfix(x: Expr, ts: seq<Tok>, depth: nat): (r: Parsed)
    requires Ends(ts)
    ensures r.Parsed? ==> Ends(r.rest) && |r.rest| <= |ts|
    decreases |ts|, 3
  {
    if ts[0] == Dot then
      var after := Next(ts);
      if !after[0].TIdent? then NoParse
      else
        var name, more := after[0].name, Next(after);
        if more[0] == LParen then
          var args := Items(Next(more), depth, RParen);
          if args.ManyFailed? then NoParse else Postfix(Call(Some(x), name, args.items), args.left, depth)
        else Postfix(MemberOf(x, name), more, depth)
    else if ts[0] == LBracket then
      var sub := Subscript(x, Next(ts), depth);
      if sub.NoParse? then NoParse else Postfix(sub.expr, sub.rest, depth)
    else Parsed(x, ts)
  }

  /** After `[`: an index, or a range with either bound left out. */
  function Subscript(x: Expr, ts: seq<Tok>, depth: nat): (r: Parsed)
    requires Ends(ts)
    ensures r.Parsed? ==> Ends(r.rest) && |r.rest| < |ts|
    decreases |ts|, 6
  {
    if ts[0] == Colon then RangeEnd(x, None, Next(ts), depth)
    else
      var first := ParseExpr(0, ts, depth);
      if first.NoParse? then NoParse
      else if first.rest[0] == Colon then RangeEnd(x, Some(first.expr), Next(first.rest), depth)
      else if first.rest[0] == RBracket then Parsed(IndexOf(x, first.expr), Next(first.rest))
      else NoParse
  }

  function RangeEnd(x: Expr, lo: Option<Expr>, ts: seq<Tok>, depth: nat): (r: Parsed)
    requires Ends(ts)
    ensures r.Parsed? ==> Ends(r.rest) && |r.rest| < |ts|
    decreases |ts|, 6
  {
    if ts[0] == RBracket then Parsed(RangeOf(x, lo, None), Next(ts))
    else
      var hi := ParseExpr(0, ts, depth);
      if hi.NoParse? || hi.rest[0] != RBracket then NoParse
      else Parsed(RangeOf(x, lo, Some(hi.expr)), Next(hi.rest))
  }

  /** Comma-separated expressions up to the closing token. */
  function Items(ts: seq<Tok>, depth: nat, close: Tok): (r: ParsedMany)
    requires Ends(ts) && close != Eof
    ensures r.ParsedMany? ==> Ends(r.left) && |r.left| < |ts|
    decreases |ts|, 7
  {
    if ts[0] == close then ParsedMany([], Next(ts)) else SomeItems(ts, depth, close)
  }

  function SomeItems(ts: seq<Tok>, depth: nat, close: Tok): (r: ParsedMany)
    requires Ends(ts) && close != Eof
    ensures r.ParsedMany? ==> Ends(r.left) && |r.left| < |ts|
    decreases |ts|, 6
  {
    var first := ParseExpr(0, ts, depth);
    if first.NoParse? then ManyFailed
    else if first.rest[0] == Comma then
      var more := SomeItems(Next(first.rest), depth, close);
      if more.ManyFailed? then ManyFailed else ParsedMany([first.expr] + more.items, more.left)
    else if first.rest[0] == close then ParsedMany([first.expr], Next(first.rest))
    else ManyFailed
  }

  function Entries_(ts: seq<Tok>, depth: nat): (r: ParsedMap)
    requires Ends(ts)
    ensures r.ParsedMap? ==> Ends(r.after) && |r.after| < |ts|
    decreases |ts|, 7
  {
    if ts[0] == RBrace then ParsedMap([], Next(ts)) else SomeEntries(ts, depth)
  }

  function KeyOf(t: Tok): Option<string> {
    match t
    case TStr(s) => Some(s)
    case TIdent(s) => Some(s)
    case _ => None
  }

  function SomeEntries(ts: seq<Tok>, depth: nat): (r: ParsedMap)
    requires Ends(ts)
    ensures r.ParsedMap? ==> Ends(r.after) && |r.after| < |ts|
    decreases |ts|, 6
  {
    var key := KeyOf(ts[0]);
    if key.None? || Next(ts)[0] != Colon then MapFailed
    else
      var value := ParseExpr(0, Next(Next(ts)), depth);
      if value.NoParse? then MapFailed
      else if value.rest[0] == Comma then
        var more := SomeEntries(Next(value.rest), depth);
        if more.MapFailed? then MapFailed else ParsedMap([(key.value, value.expr)] + more.entries, more.after)
      else if value.rest[0] == RBrace then ParsedMap([(key.value, value.expr)], Next(value.rest))
      else MapFailed
  }
}
