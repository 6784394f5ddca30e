/** The parser as it runs: one position and one nesting counter moving over the
    token list, loops for operators, suffixes and lists. */
module RuleParsing {
  import opened Results
  import opened RuleValues
  import opened RuleEval
  import opened RuleParser
  import opened RuleRendering
  import opened RuleRoundTrip

  /** Items already read, before what is still to come. */
  function Prepend(done: seq<Expr>, more: ParsedMany): ParsedMany {
    if more.ManyFailed? then ManyFailed else ParsedMany(done + more.items, more.left)
  }

  function PrependEntries(done: seq<(string, Expr)>, more: ParsedMap): ParsedMap {
    if more.MapFailed? then MapFailed else ParsedMap(done + more.entries, more.after)
  }

  /** What follows an element of a list or a map: a comma and another one, the
      closing token, or an error. */
  datatype Separator = Another(next: seq<Tok>) | Closed(next: seq<Tok>) | Unseparated

  function SeparatorOf(ts: seq<Tok>, close: Tok): (r: Separator)
    requires Ends(ts) && close != Eof
    ensures !r.Unseparated? ==> Ends(r.next) && |r.next| < |ts|
  {
    if ts[0] == Comma then Another(Next(ts)) else if ts[0] == close then Closed(Next(ts)) else Unseparated
  }

  /** An expression and the token that must come after it. */
  function Delimited(ts: seq<Tok>, depth: nat, t: Tok): (r: Parsed)
    requires Ends(ts) && t != Eof
    ensures r.Parsed? ==> Ends(r.rest) && |r.rest| < |ts|
  {
    var x := ParseExpr(0, ts, depth);
    if x.NoParse? || x.rest[0] != t then NoParse else Parsed(x.expr, Next(x.rest))
  }

  /** A key, a colon and a value, and what is left after them. */
  datatype Headed = Headed(key: string, value: Expr, rest: seq<Tok>) | NoEntry

  function EntryHead(ts: seq<Tok>, depth: nat): (r: Headed)
    requires Ends(ts)
    ensures r.Headed? ==> Ends(r.rest) && |r.rest| < |ts|
  {
    var key := KeyOf(ts[0]);
    if key.None? || Next(ts)[0] != Colon then NoEntry
    else
      var value := ParseExpr(0, Next(Next(ts)), depth);
      if value.NoParse? then NoEntry else Headed(key.value, value.expr, value.rest)
  }

  /** What a subscript's first expression turns out to be. */
  function BoundRead(x: Expr, first: Expr, ts: seq<Tok>, depth: nat): Parsed
    requires Ends(ts)
  {
    if ts[0] == Colon then RangeEnd(x, Some(first), Next(ts), depth)
    else if ts[0] == RBracket then Parsed(IndexOf(x, first), Next(ts))
    else NoParse
  }

  /** The list once one more item has been read. */
  function AfterItem(done: seq<Expr>, x: Parsed, depth: nat, close: Tok): ParsedMany
    requires (x.Parsed? ==> Ends(x.rest)) && close != Eof
  {
    if x.NoParse? then ManyFailed
    else
      match SeparatorOf(x.rest, close)
      case Another(next) => Prepend(done + [x.expr], SomeItems(next, depth, close))
      case Closed(next) => ParsedMany(done + [x.expr], next)
      case Unseparated => ManyFailed
  }

  function AfterEntry(done: seq<(string, Expr)>, x: Headed, depth: nat): ParsedMap
    requires x.Headed? ==> Ends(x.rest)
  {
    if x.NoEntry? then MapFailed
    else
      match SeparatorOf(x.rest, RBrace)
      case Another(next) => PrependEntries(done + [(x.key, x.value)], SomeEntries(next, depth))
      case Closed(next) => ParsedMap(done + [(x.key, x.value)], next)
      case Unseparated => MapFailed
  }

  lemma PrependOne(done: seq<Expr>, x: Expr, more: ParsedMany)
    ensures Prepend(done, Prepend([x], more)) == Prepend(done + [x], more)
  {
    if more.ParsedMany? {
      assert done + ([x] + more.items) == done + [x] + more.items;
    }
  }

  lemma PrependOneEntry(done: seq<(string, Expr)>, x: (string, Expr), more: ParsedMap)
    ensures PrependEntries(done, PrependEntries([x], more)) == PrependEntries(done + [x], more)
  {
    if more.ParsedMap? {
      assert done + ([x] + more.entries) == done + [x] + more.entries;
    }
  }

  lemma ItemRead(ts: seq<Tok>, depth: nat, close: Tok, done: seq<Expr>)
    requires Ends(ts) && close in [RParen, RBracket]
    ensures Prepend(done, SomeItems(ts, depth, close)) == AfterItem(done, ParseExpr(0, ts, depth), depth, close)
  {
    var x := ParseExpr(0, ts, depth);
    if x.Parsed? && x.rest[0] == Comma {
      PrependOne(done, x.expr, SomeItems(Next(x.rest), depth, close));
    }
  }

  lemma EntryRead(ts: seq<Tok>, depth: nat, done: seq<(string, Expr)>)
    requires Ends(ts)
    ensures PrependEntries(done, SomeEntries(ts, depth)) == AfterEntry(done, EntryHead(ts, depth), depth)
  {
    var x := EntryHead(ts, depth);
    if x.Headed? && x.rest[0] == Comma {
      PrependOneEntry(done, (x.key, x.value), SomeEntries(Next(x.rest), depth));
    }
  }

  lemma EntriesStart(ts: seq<Tok>, depth: nat)
    requires Ends(ts)
    ensures Entries_(ts, depth)
      == if ts[0] == RBrace then ParsedMap([], Next(ts)) else PrependEntries([], SomeEntries(ts, depth))
  {
    var some := SomeEntries(ts, depth);
    if some.ParsedMap? {
      assert [] + some.entries == some.entries;
    }
  }

  lemma ItemsStart(ts: seq<Tok>, depth: nat, close: Tok)
    requires Ends(ts) && close != Eof
    ensures Items(ts, depth, close)
      == if ts[0] == close then ParsedMany([], Next(ts)) else Prepend([], SomeItems(ts, depth, close))
  {
    var some := SomeItems(ts, depth, close);
    if some.ParsedMany? {
      assert [] + some.items == some.items;
    }
  }

  /** A conditional's two branches, the first up to its colon. */
  lemma ConditionalRead(min: nat, lhs: Expr, ts: seq<Tok>, depth: nat)
    requires Ends(ts) && ts[0] == Question && min <= 1
    ensures
      var yes := Delimited(Next(ts), depth, Colon);
      Operators(min, lhs, ts, depth)
      == if yes.NoParse? then NoParse
         else
           var no := ParseExpr(1, yes.rest, depth);
           if no.NoParse? then NoParse else Operators(min, Ternary(lhs, yes.expr, no.expr), no.rest, depth)
  {}

  class Parser {
    const tokens: seq<Tok>
    var pos: nat
    var depth: nat

    ghost predicate Valid()
      reads this
    {
      Ends(tokens) && pos < |tokens|
    }

    ghost function Ahead(): (ts: seq<Tok>)
      requires Valid()
      reads this
      ensures Ends(ts) && ts[0] == tokens[pos]
    {
      tokens[pos..]
    }

    /** What the grammar says and what was handed back agree; nothing handed back
        is a syntax error, after which the parser is not used again. */
    ghost predicate Reads(p: Parsed, r: Option<Expr>, nesting: nat)
      requires Valid()
      reads this
    {
      if p.NoParse? then r.None? else r == Some(p.expr) && Ahead() == p.rest && depth == nesting
    }

    ghost predicate ReadsMany(p: ParsedMany, r: Option<seq<Expr>>, nesting: nat)
      requires Valid()
      reads this
    {
      if p.ManyFailed? then r.None? else r == Some(p.items) && Ahead() == p.left && depth == nesting
    }

    ghost predicate ReadsMap(p: ParsedMap, r: Option<seq<(string, Expr)>>, nesting: nat)
      requires Valid()
      reads this
    {
      if p.MapFailed? then r.None? else r == Some(p.entries) && Ahead() == p.after && depth == nesting
    }

    /** An operand read so far, from which the same result is still to be had. */
    ghost predicate Grows(p: Parsed, min: nat, r: Option<Expr>, nesting: nat)
      requires Valid()
      reads this
    {
      && nesting <= depth
      && if r.None? then p.NoParse? else p == Operators(min, r.value, Ahead(), nesting) && depth == nesting
    }

    /** The same for an operand's suffixes. */
    ghost predicate Extends(p: Parsed, r: Option<Expr>, nesting: nat)
      requires Valid()
      reads this
    {
      && nesting <= depth
      && if r.None? then p.NoParse? else p == Postfix(r.value, Ahead(), nesting) && depth == nesting
    }

    constructor (tokens: seq<Tok>)
      requires Ends(tokens)
      ensures Valid() && Ahead() == tokens && depth == 0
    {
      this.tokens, pos, depth := tokens, 0, 0;
    }

    method Bump() returns (t: Tok)
      requires Valid()
      modifies this`pos
      ensures Valid() && t == old(Ahead())[0]
      ensures Ahead() == if t == Eof && |old(Ahead())| == 1 then old(Ahead()) else old(Ahead())[1..]
      ensures t != Eof ==> Ahead() == Next(old(Ahead())) && old(pos) < pos
    {
      t := tokens[pos];
      if pos < |tokens| - 1 {
        pos := pos + 1;
      }
    }

    method Eat(t: Tok) returns (eaten: bool)
      requires Valid() && t != Eof
      modifies this`pos
      ensures Valid() && eaten == (old(Ahead())[0] == t)
      ensures Ahead() == if eaten then Next(old(Ahead())) else old(Ahead())
      ensures eaten ==> old(pos) < pos
      ensures !eaten ==> old(pos) == pos
    {
      eaten := tokens[pos] == t;
      if eaten {
        var _ := Bump();
      }
    }

    method ExpectIdent() returns (name: Option<string>)
      requires Valid()
      modifies this`pos
      ensures Valid() && name.Some? == old(Ahead())[0].TIdent?
      ensures name.Some? ==> name.value == old(Ahead())[0].name && Ahead() == Next(old(Ahead())) && old(pos) < pos
    {
      name := None;
      if tokens[pos].TIdent? {
        name := Some(tokens[pos].name);
        var _ := Bump();
      }
    }

    method Expression(min: nat) returns (r: Option<Expr>)
      requires Valid()
      modifies this`pos, this`depth
      ensures Valid() && Reads(ParseExpr(min, old(Ahead()), old(depth)), r, old(depth)) && depth >= old(depth)
      ensures r.Some? ==> old(pos) < pos
      decreases |tokens| - pos, 5
    {
      depth := depth + 1;
      if depth > MAX_EXPR_DEPTH {
        return None;
      }
      r := ExpressionInner(min);
      depth := depth - 1;
    }

    method ExpressionThen(t: Tok) returns (r: Option<Expr>)
      requires Valid() && t != Eof
      modifies this`pos, this`depth
      ensures Valid() && Reads(Delimited(old(Ahead()), old(depth), t), r, old(depth)) && depth >= old(depth)
      ensures r.Some? ==> old(pos) < pos
      decreases |tokens| - pos, 6
    {
      r := Expression(0);
      if r.None? {
        return None;
      }
      var found := Eat(t);
      if !found {
        r := None;
      }
    }

    method ExpressionInner(min: nat) returns (r: Option<Expr>)
      requires Valid()
      modifies this`pos, this`depth
      ensures Valid() && Reads(Inner(min, old(Ahead()), old(depth)), r, old(depth)) && depth >= old(depth)
      ensures r.Some? ==> old(pos) < pos
      decreases |tokens| - pos, 4
    {
      var first := Operand();
      if first.None? {
        return None;
      }
      var lhs := first.value;
      while true
        invariant Valid() && depth == old(depth) && old(pos) < pos
        invariant Operators(min, lhs, Ahead(), depth) == Inner(min, old(Ahead()), depth)
        decreases |tokens| - pos
      {
        var o := OperatorOf(tokens[pos]);
        if o.None? || Power(o.value) < min {
          break;
        }
        var next := Operate(min, lhs, o.value);
        if next.None? {
          return None;
        }
        lhs := next.value;
      }
      r := Some(lhs);
    }

    /** One operator and its right side, read onto the left operand. */
    method Operate(min: nat, lhs: Expr, o: Operator) returns (r: Option<Expr>)
      requires Valid() && OperatorOf(Ahead()[0]) == Some(o) && min <= Power(o)
      modifies this`pos, this`depth
      ensures Valid() && Grows(Operators(min, lhs, old(Ahead()), old(depth)), min, r, old(depth))
      ensures r.Some? ==> old(pos) < pos
      decreases |tokens| - pos, 3
    {
      match o
      case Operating(op) => r := RightOperand(min, lhs, op);
      case Question_ => r := Conditional(min, lhs);
      case IsType => r := TypeTest(min, lhs);
    }

    method RightOperand(min: nat, lhs: Expr, op: BinOp) returns (r: Option<Expr>)
      requires Valid() && OperatorOf(Ahead()[0]) == Some(Operating(op)) && min <= OpPower(op)
      modifies this`pos, this`depth
      ensures Valid() && Grows(Operators(min, lhs, old(Ahead()), old(depth)), min, r, old(depth))
      ensures r.Some? ==> old(pos) < pos
      decreases |tokens| - pos, 2
    {
      var _ := Bump();
      var rhs := Expression(OpPower(op) + 1);
      r := if rhs.None? then None else Some(Binary(op, lhs, rhs.value));
    }

    method Conditional(min: nat, lhs: Expr) returns (r: Option<Expr>)
      requires Valid() && Ahead()[0] == Question && min <= 1
      modifies this`pos, this`depth
      ensures Valid() && Grows(Operators(min, lhs, old(Ahead()), old(depth)), min, r, old(depth))
      ensures r.Some? ==> old(pos) < pos
      decreases |tokens| - pos, 2
    {
      ConditionalRead(min, lhs, Ahead(), depth);
      var _ := Bump();
      var yes := ExpressionThen(Colon);
      if yes.None? {
        return None;
      }
      var no := Expression(1);
      r := if no.None? then None else Some(Ternary(lhs, yes.value, no.value));
    }

    method TypeTest(min: nat, lhs: Expr) returns (r: Option<Expr>)
      requires Valid() && OperatorOf(Ahead()[0]) == Some(IsType) && min <= 5
      modifies this`pos, this`depth
      ensures Valid() && Grows(Operators(min, lhs, old(Ahead()), old(depth)), min, r, old(depth))
      ensures r.Some? ==> old(pos) < pos
      decreases |tokens| - pos, 2
    {
      var _ := Bump();
      var ty := ExpectIdent();
      r := if ty.None? then None else Some(Is(lhs, ty.value));
    }

    /** A prefix operator, a constant, a name, a call or a bracketed expression,
        with the suffixes after it. */
    method Operand() returns (r: Option<Expr>)
      requires Valid()
      modifies this`pos, this`depth
      ensures Valid() && Reads(Prefix(old(Ahead()), old(depth)), r, old(depth)) && depth >= old(depth)
      ensures r.Some? ==> old(pos) < pos
      decreases |tokens| - pos, 3
    {
      var first := First();
      if first.None? {
        return None;
      }
      r := Suffixes(first.value);
    }

    method First() returns (r: Option<Expr>)
      requires Valid()
      modifies this`pos, this`depth
      ensures Valid() && Reads(Primary(old(Ahead()), old(depth)), r, old(depth)) && depth >= old(depth)
      ensures r.Some? ==> old(pos) < pos
      decreases |tokens| - pos, 2
    {
      var t := tokens[pos];
      match t
      case Bang => r := Prefixed(Not);
      case Minus_ => r := Prefixed(Neg);
      case LParen => r := Parenthesized();
      case LBracket => r := ListLiteral();
      case LBrace => r := MapLiteral();
      case _ => r := Word();
    }

    method Word() returns (r: Option<Expr>)
      requires Valid() && Ahead()[0] !in [Bang, Minus_, LParen, LBracket, LBrace]
      modifies this`pos, this`depth
      ensures Valid() && Reads(Primary(old(Ahead()), old(depth)), r, old(depth)) && depth >= old(depth)
      ensures r.Some? ==> old(pos) < pos
      decreases |tokens| - pos, 1
    {
      var t := tokens[pos];
      if t.TIdent? {
        var _ := Bump();
        r := Name(t.name);
      } else {
        r := Constant();
      }
    }

    method Constant() returns (r: Option<Expr>)
      requires Valid() && Ahead()[0] !in [Bang, Minus_, LParen, LBracket, LBrace] && !Ahead()[0].TIdent?
      modifies this`pos
      ensures Valid() && Reads(Primary(old(Ahead()), depth), r, depth)
      ensures r.Some? ==> old(pos) < pos
    {
      var t := tokens[pos];
      r := match t
        case TInt(i) => Some(Literal(Int(i)))
        case TFloat(f) => Some(Literal(Float(f)))
        case TStr(s) => Some(Literal(Str(s)))
        case _ => None;
      if r.Some? {
        var _ := Bump();
      }
    }

    method Prefixed(op: UnOp) returns (r: Option<Expr>)
      requires Valid() && Ahead()[0] == if op.Not? then Bang else Minus_
      modifies this`pos, this`depth
      ensures Valid() && Reads(Primary(old(Ahead()), old(depth)), r, old(depth)) && depth >= old(depth)
      ensures r.Some? ==> old(pos) < pos
      decreases |tokens| - pos, 1
    {
      var _ := Bump();
      var x := Expression(8);
      r := if x.None? then None else Some(Unary(op, x.value));
    }

    method Parenthesized() returns (r: Option<Expr>)
      requires Valid() && Ahead()[0] == LParen
      modifies this`pos, this`depth
      ensures Valid() && Reads(Primary(old(Ahead()), old(depth)), r, old(depth)) && depth >= old(depth)
      ensures r.Some? ==> old(pos) < pos
      decreases |tokens| - pos, 1
    {
      var _ := Bump();
      r := ExpressionThen(RParen);
    }

    method ListLiteral() returns (r: Option<Expr>)
      requires Valid() && Ahead()[0] == LBracket
      modifies this`pos, this`depth
      ensures Valid() && Reads(Primary(old(Ahead()), old(depth)), r, old(depth)) && depth >= old(depth)
      ensures r.Some? ==> old(pos) < pos
      decreases |tokens| - pos, 1
    {
      var _ := Bump();
      var items := Arguments(RBracket);
      r := if items.None? then None else Some(ListOf(items.value));
    }

    method MapLiteral() returns (r: Option<Expr>)
      requires Valid() && Ahead()[0] == LBrace
      modifies this`pos, this`depth
      ensures Valid() && Reads(Primary(old(Ahead()), old(depth)), r, old(depth)) && depth >= old(depth)
      ensures r.Some? ==> old(pos) < pos
      decreases |tokens| - pos, 1
    {
      var _ := Bump();
      var entries := MapEntries();
      r := if entries.None? then None else Some(MapOf(entries.value));
    }

    method Name(name: string) returns (r: Option<Expr>)
      requires Valid()
      modifies this`pos, this`depth
      ensures Valid() && Reads(NameOrCall(name, old(Ahead()), old(depth)), r, old(depth)) && depth >= old(depth)
      ensures r.Some? ==> old(pos) <= pos
      decreases |tokens| - pos, 9
    {
      if name == "true" {
        return Some(Literal(Bool(true)));
      }
      if name == "false" {
        return Some(Literal(Bool(false)));
      }
      if name == "null" {
        return Some(Literal(Null));
      }
      var call := Eat(LParen);
      if !call {
        return Some(Ident(name));
      }
      var args := Arguments(RParen);
      r := if args.None? then None else Some(Call(None, name, args.value));
    }

    /** Whether another element follows; nothing where neither a comma nor the
        closing token does. */
    method Separated(close: Tok) returns (more: Option<bool>)
      requires Valid() && close in [RParen, RBracket, RBrace]
      modifies this`pos
      ensures
        Valid() && (match SeparatorOf(old(Ahead()), close)
        case Another(next) => more == Some(true) && Ahead() == next && old(pos) < pos
        case Closed(next) => more == Some(false) && Ahead() == next && old(pos) < pos
        case Unseparated => more == None)
    {
      var comma := Eat(Comma);
      if comma {
        return Some(true);
      }
      var closed := Eat(close);
      more := if closed then Some(false) else None;
    }

    /** Comma-separated expressions and the token that closes them: call
        arguments, and the items of a list. */
    method Arguments(close: Tok) returns (r: Option<seq<Expr>>)
      requires Valid() && close in [RParen, RBracket]
      modifies this`pos, this`depth
      ensures Valid() && ReadsMany(Items(old(Ahead()), old(depth), close), r, old(depth)) && depth >= old(depth)
      ensures r.Some? ==> old(pos) < pos
      decreases |tokens| - pos, 8
    {
      ItemsStart(Ahead(), depth, close);
      var empty := Eat(close);
      if empty {
        return Some([]);
      }
      var items := [];
      while true
        invariant Valid() && depth == old(depth) && old(pos) <= pos
        invariant Prepend(items, SomeItems(Ahead(), depth, close)) == Items(old(Ahead()), depth, close)
        decreases |tokens| - pos
      {
        var grown, more := OneMoreItem(items, close);
        if grown.None? || !more {
          return grown;
        }
        items := grown.value;
      }
    }

    /** One item onto those before it, and whether another follows. */
    method OneMoreItem(items: seq<Expr>, close: Tok) returns (r: Option<seq<Expr>>, more: bool)
      requires Valid() && close in [RParen, RBracket]
      modifies this`pos, this`depth
      ensures Valid() && depth >= old(depth)
      ensures r.None? ==> Prepend(items, SomeItems(old(Ahead()), old(depth), close)) == ManyFailed
      ensures r.Some? ==> depth == old(depth) && old(pos) < pos
      ensures r.Some? ==>
        Prepend(items, SomeItems(old(Ahead()), old(depth), close))
        == if more then Prepend(r.value, SomeItems(Ahead(), depth, close)) else ParsedMany(r.value, Ahead())
      decreases |tokens| - pos, 7
    {
      ItemRead(Ahead(), depth, close, items);
      more := false;
      var x := Expression(0);
      if x.None? {
        return None, false;
      }
      var sep := Separated(close);
      if sep.None? {
        return None, false;
      }
      r, more := Some(items + [x.value]), sep.value;
    }

    method MapEntries() returns (r: Option<seq<(string, Expr)>>)
      requires Valid()
      modifies this`pos, this`depth
      ensures Valid() && ReadsMap(Entries_(old(Ahead()), old(depth)), r, old(depth)) && depth >= old(depth)
      ensures r.Some? ==> old(pos) < pos
      decreases |tokens| - pos, 8
    {
      EntriesStart(Ahead(), depth);
      var empty := Eat(RBrace);
      if empty {
        return Some([]);
      }
      var entries := [];
      while true
        invariant Valid() && depth == old(depth) && old(pos) <= pos
        invariant PrependEntries(entries, SomeEntries(Ahead(), depth)) == Entries_(old(Ahead()), depth)
        decreases |tokens| - pos
      {
        var grown, more := OneMoreEntry(entries);
        if grown.None? || !more {
          return grown;
        }
        entries := grown.value;
      }
    }

    method OneMoreEntry(entries: seq<(string, Expr)>) returns (r: Option<seq<(string, Expr)>>, more: bool)
      requires Valid()
      modifies this`pos, this`depth
      ensures Valid() && depth >= old(depth)
      ensures r.None? ==> PrependEntries(entries, SomeEntries(old(Ahead()), old(depth))) == MapFailed
      ensures r.Some? ==> depth == old(depth) && old(pos) < pos
      ensures r.Some? ==>
        PrependEntries(entries, SomeEntries(old(Ahead()), old(depth)))
        == if more then PrependEntries(r.value, SomeEntries(Ahead(), depth)) else ParsedMap(r.value, Ahead())
      decreases |tokens| - pos, 7
    {
      EntryRead(Ahead(), depth, entries);
      more := false;
      var x := OneEntry();
      if x.None? {
        return None, false;
      }
      var sep := Separated(RBrace);
      if sep.None? {
        return None, false;
      }
      r, more := Some(entries + [x.value]), sep.value;
    }

    method OneEntry() returns (r: Option<(string, Expr)>)
      requires Valid()
      modifies this`pos, this`depth
      ensures Valid() && depth >= old(depth) && r.Some? == EntryHead(old(Ahead()), old(depth)).Headed?
      ensures r.Some? ==> EntryHead(old(Ahead()), old(depth)) == Headed(r.value.0, r.value.1, Ahead())
      ensures r.Some? ==> depth == old(depth) && old(pos) < pos
      decreases |tokens| - pos, 6
    {
      var t := Bump();
      var key := KeyOf(t);
      if key.None? {
        return None;
      }
      var colon := Eat(Colon);
      if !colon {
        return None;
      }
      var value := Expression(0);
      r := if value.None? then None else Some((key.value, value.value));
    }

    /** Members, calls, indices and ranges, as long as they come. */
    method Suffixes(x: Expr) returns (r: Option<Expr>)
      requires Valid()
      modifies this`pos, this`depth
      ensures Valid() && Reads(Postfix(x, old(Ahead()), old(depth)), r, old(depth)) && depth >= old(depth)
      ensures r.Some? ==> old(pos) <= pos
      decreases |tokens| - pos, 9
    {
      var expr := x;
      while true
        invariant Valid() && depth == old(depth) && old(pos) <= pos
        invariant Postfix(expr, Ahead(), depth) == Postfix(x, old(Ahead()), depth)
        decreases |tokens| - pos
      {
        var t := tokens[pos];
        if t != Dot && t != LBracket {
          return Some(expr);
        }
        var next;
        if t == Dot {
          next := MemberOrCall(expr);
        } else {
          next := Bracketed(expr);
        }
        if next.None? {
          return None;
        }
        expr := next.value;
      }
    }

    method MemberOrCall(x: Expr) returns (r: Option<Expr>)
      requires Valid() && Ahead()[0] == Dot
      modifies this`pos, this`depth
      ensures Valid() && Extends(Postfix(x, old(Ahead()), old(depth)), r, old(depth))
      ensures r.Some? ==> old(pos) < pos
      decreases |tokens| - pos, 8
    {
      var _ := Bump();
      var name := ExpectIdent();
      if name.None? {
        return None;
      }
      var call := Eat(LParen);
      if !call {
        return Some(MemberOf(x, name.value));
      }
      var args := Arguments(RParen);
      r := if args.None? then None else Some(Call(Some(x), name.value, args.value));
    }

    method Bracketed(x: Expr) returns (r: Option<Expr>)
      requires Valid() && Ahead()[0] == LBracket
      modifies this`pos, this`depth
      ensures Valid() && Extends(Postfix(x, old(Ahead()), old(depth)), r, old(depth))
      ensures r.Some? ==> old(pos) < pos
      decreases |tokens| - pos, 8
    {
      var _ := Bump();
      r := IndexOrRange(x);
    }

    method IndexOrRange(x: Expr) returns (r: Option<Expr>)
      requires Valid()
      modifies this`pos, this`depth
      ensures Valid() && Reads(Subscript(x, old(Ahead()), old(depth)), r, old(depth)) && depth >= old(depth)
      ensures r.Some? ==> old(pos) < pos
      decreases |tokens| - pos, 8
    {
      var open := Eat(Colon);
      if open {
        r := UpperBound(x, None);
        return;
      }
      r := IndexOrLowerBound(x);
    }

    method IndexOrLowerBound(x: Expr) returns (r: Option<Expr>)
      requires Valid() && Ahead()[0] != Colon
      modifies this`pos, this`depth
      ensures Valid() && Reads(Subscript(x, old(Ahead()), old(depth)), r, old(depth)) && depth >= old(depth)
      ensures r.Some? ==> old(pos) < pos
      decreases |tokens| - pos, 7
    {
      var first := Expression(0);
      if first.None? {
        return None;
      }
      r := AfterBound(x, first.value);
    }

    /** An index that is closed, or the lower bound of a range. */
    method AfterBound(x: Expr, first: Expr) returns (r: Option<Expr>)
      requires Valid()
      modifies this`pos, this`depth
      ensures Valid() && Reads(BoundRead(x, first, old(Ahead()), old(depth)), r, old(depth)) && depth >= old(depth)
      ensures r.Some? ==> old(pos) < pos
      decreases |tokens| - pos, 9
    {
      var colon := Eat(Colon);
      if colon {
        r := UpperBound(x, Some(first));
        return;
      }
      var closed := Eat(RBracket);
      r := if closed then Some(IndexOf(x, first)) else None;
    }

    method UpperBound(x: Expr, lo: Option<Expr>) returns (r: Option<Expr>)
      requires Valid()
      modifies this`pos, this`depth
      ensures Valid() && Reads(RangeEnd(x, lo, old(Ahead()), old(depth)), r, old(depth)) && depth >= old(depth)
      ensures r.Some? ==> old(pos) < pos
      decreases |tokens| - pos, 8
    {
      if tokens[pos] == RBracket {
        var _ := Bump();
        return Some(RangeOf(x, lo, None));
      }
      var hi := ExpressionThen(RBracket);
      r := if hi.None? then None else Some(RangeOf(x, lo, hi));
    }
  }
  /** A standalone expression: all of the input, or an error. Printing an
      expression and parsing the text gives the expression. */
  method ParseExpression(tokens: seq<Tok>) returns (r: Option<Expr>)
    requires Ends(tokens)
    ensures r.Some? <==> ParseExpr(0, tokens, 0).Parsed? && ParseExpr(0, tokens, 0).rest[0] == Eof
    ensures r.Some? ==> r.value == ParseExpr(0, tokens, 0).expr
    ensures forall e :: Sayable(e) && 1 + Need(e) <= MAX_EXPR_DEPTH && tokens == Show(e, 0) + [Eof] ==> r == Some(e)
  {
    forall e | Sayable(e) && 1 + Need(e) <= MAX_EXPR_DEPTH && tokens == Show(e, 0) + [Eof]
      ensures ParseExpr(0, tokens, 0) == Parsed(e, [Eof])
    {
      ParseUndoesShow(e);
    }
    var parser := new Parser(tokens);
    r := parser.Expression(0);
    if r.Some? && parser.tokens[parser.pos] != Eof {
      r := None;
    }
  }
}
