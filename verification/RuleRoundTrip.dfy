/** Parsing undoes printing: every expression the grammar can produce, printed
    with parentheses where precedence asks for them, is read back as it was. */
module RuleRoundTrip {
  import opened Results
  import opened RuleValues
  import opened RuleEval
  import opened RuleParser
  import opened RuleRendering

  // ---- regrouping token lists ----

  lemma Regroup3(a: seq<Tok>, b: seq<Tok>, c: seq<Tok>, rest: seq<Tok>)
    ensures a + b + c + rest == a + (b + (c + rest))
  {}

  lemma Regroup5(a: seq<Tok>, b: seq<Tok>, c: seq<Tok>, d: seq<Tok>, e: seq<Tok>, rest: seq<Tok>)
    ensures a + b + c + d + e + rest == a + (b + (c + (d + (e + rest))))
  {
    Regroup3(a + b + c, d, e, rest);
    Regroup3(a, b, c, d + (e + rest));
  }

  lemma Regroup2(a: seq<Tok>, b: seq<Tok>, rest: seq<Tok>)
    ensures a + b + rest == a + (b + rest)
  {}

  lemma RegroupPair(a: seq<Tok>, t: Tok, u: Tok, rest: seq<Tok>)
    ensures a + [t, u] + rest == a + ([t] + ([u] + rest))
  {
    assert [t, u] == [t] + [u];
    Regroup3(a, [t], [u], rest);
  }

  lemma Regroup4(a: seq<Tok>, b: seq<Tok>, c: seq<Tok>, d: seq<Tok>, rest: seq<Tok>)
    ensures a + b + c + d + rest == a + (b + (c + (d + rest)))
  {
    Regroup3(a + b, c, d, rest);
    Regroup2(a, b, c + (d + rest));
  }

  lemma Regroup6(a: seq<Tok>, b: seq<Tok>, c: seq<Tok>, d: seq<Tok>, e: seq<Tok>, f: seq<Tok>, rest: seq<Tok>)
    ensures a + b + c + d + e + f + rest == a + (b + (c + (d + (e + (f + rest)))))
  {
    Regroup5(a + b, c, d, e, f, rest);
    Regroup2(a, b, c + (d + (e + (f + rest))));
  }

  lemma RegroupCall(name: string, args: seq<Tok>, rest: seq<Tok>)
    ensures [TIdent(name), LParen] + args + [RParen] + rest == [TIdent(name)] + ([LParen] + (args + ([RParen] + rest)))
  {
    Regroup3([TIdent(name), LParen], args, [RParen], rest);
    RegroupPair([], TIdent(name), LParen, args + ([RParen] + rest));
    assert [] + [TIdent(name), LParen] == [TIdent(name), LParen];
    assert [] + ([TIdent(name)] + ([LParen] + (args + ([RParen] + rest))))
        == [TIdent(name)] + ([LParen] + (args + ([RParen] + rest)));
  }

  lemma CallBody(name: string, args: seq<Expr>, rest: seq<Tok>)
    ensures Body(Call(None, name, args)) + rest == [TIdent(name), LParen] + ShowAll(args) + [RParen] + rest
  {
    assert [] + [TIdent(name), LParen] == [TIdent(name), LParen];
  }

  lemma MethodBody(x: Expr, name: string, args: seq<Expr>, rest: seq<Tok>)
    ensures Body(Call(Some(x), name, args)) + rest
         == Show(x, 9) + ([Dot] + ([TIdent(name), LParen] + ShowAll(args) + [RParen] + rest))
  {
    var a := Show(x, 9) + [Dot];
    Regroup3(a, [TIdent(name), LParen], ShowAll(args) + [RParen], rest);
    Regroup2(a + [TIdent(name), LParen], ShowAll(args), [RParen]);
    Regroup2([TIdent(name), LParen], ShowAll(args), [RParen]);
    Regroup2([TIdent(name), LParen], ShowAll(args) + [RParen], rest);
    Regroup2(Show(x, 9), [Dot], [TIdent(name), LParen] + ShowAll(args) + [RParen] + rest);
  }

  lemma TailFrom<T>(s: seq<T>, k: nat)
    requires k < |s|
    ensures s[k..] == [s[k]] + s[k + 1..]
  {}

  // ---- ranges ----

  lemma RangeCloses(x: Expr, lo: Option<Expr>, hi: Option<Expr>, shown: seq<Tok>, rest: seq<Tok>, depth: nat)
    requires Ends(rest) && Ends(shown + ([RBracket] + rest))
    requires hi.None? ==> shown == []
    requires hi.Some? ==> shown != [] && Opens(shown[0])
    requires hi.Some? ==> ParseExpr(0, shown + ([RBracket] + rest), depth) == Parsed(hi.value, [RBracket] + rest)
    ensures RangeEnd(x, lo, shown + ([RBracket] + rest), depth) == Parsed(RangeOf(x, lo, hi), rest)
  {
    NextOf(RBracket, rest);
    if hi.None? {
      NothingBefore(shown, [RBracket] + rest);
    } else {
      FirstOf(shown, [RBracket] + rest);
    }
  }

  /** `[lo:` read, given that what is shown for the bound is read back. */
  lemma RangeOpens(x: Expr, lo: Option<Expr>, shown: seq<Tok>, tail: seq<Tok>, r: Parsed, depth: nat)
    requires Ends(tail) && Ends(shown + ([Colon] + tail))
    requires lo.None? ==> shown == []
    requires lo.Some? ==> shown != [] && Opens(shown[0])
    requires lo.Some? ==> ParseExpr(0, shown + ([Colon] + tail), depth) == Parsed(lo.value, [Colon] + tail)
    requires RangeEnd(x, lo, tail, depth) == r
    ensures Subscript(x, shown + ([Colon] + tail), depth) == r
  {
    NextOf(Colon, tail);
    if lo.None? {
      NothingBefore(shown, [Colon] + tail);
    } else {
      FirstOf(shown, [Colon] + tail);
    }
  }

  lemma NothingBefore(shown: seq<Tok>, rest: seq<Tok>)
    requires shown == []
    ensures shown + rest == rest
  {}

  lemma FirstOf(shown: seq<Tok>, rest: seq<Tok>)
    requires shown != []
    ensures (shown + rest)[0] == shown[0]
  {}

  lemma SubscriptStep(x: Expr, inside: seq<Tok>, y: Expr, rest: seq<Tok>, depth: nat)
    requires Ends(rest) && Ends(inside) && Subscript(x, inside, depth) == Parsed(y, rest)
    ensures Ends([LBracket] + inside)
    ensures Postfix(x, [LBracket] + inside, depth) == Postfix(y, rest, depth)
  {
    NextOf(LBracket, inside);
  }

  // ---- map entries ----

  function AddEntry(key: string, value: Expr, more: ParsedMap): ParsedMap {
    if more.MapFailed? then MapFailed else ParsedMap([(key, value)] + more.entries, more.after)
  }

  lemma EntryKey(key: string, tail: seq<Tok>)
    requires Ends(tail)
    ensures
      var ts := [TStr(key), Colon] + tail;
      && Ends(ts) && KeyOf(ts[0]) == Some(key) && ts[0] != Eof
      && Next(ts)[0] == Colon && Next(Next(ts)) == tail
  {
    NextOf(Colon, tail);
    NextOf(TStr(key), [Colon] + tail);
    assert [TStr(key), Colon] + tail == [TStr(key)] + ([Colon] + tail);
  }

  lemma EntryEnds(key: string, shown: seq<Tok>, value: Expr, rest: seq<Tok>, depth: nat)
    requires Ends(rest) && Ends(shown + ([RBrace] + rest))
    requires ParseExpr(0, shown + ([RBrace] + rest), depth) == Parsed(value, [RBrace] + rest)
    ensures Ends([TStr(key), Colon] + (shown + ([RBrace] + rest)))
    ensures SomeEntries([TStr(key), Colon] + (shown + ([RBrace] + rest)), depth) == ParsedMap([(key, value)], rest)
  {
    EntryKey(key, shown + ([RBrace] + rest));
    NextOf(RBrace, rest);
  }

  lemma EntryGoesOn(key: string, shown: seq<Tok>, value: Expr, more: seq<Tok>, depth: nat)
    requires Ends(more) && Ends(shown + ([Comma] + more))
    requires ParseExpr(0, shown + ([Comma] + more), depth) == Parsed(value, [Comma] + more)
    ensures Ends([TStr(key), Colon] + (shown + ([Comma] + more)))
    ensures SomeEntries([TStr(key), Colon] + (shown + ([Comma] + more)), depth)
         == AddEntry(key, value, SomeEntries(more, depth))
  {
    EntryKey(key, shown + ([Comma] + more));
    NextOf(Comma, more);
  }

  // ---- lists and arguments ----

  function AddItem(x: Expr, more: ParsedMany): ParsedMany {
    if more.ManyFailed? then ManyFailed else ParsedMany([x] + more.items, more.left)
  }

  lemma ItemsOpen(items: seq<Expr>)
    requires items != [] && Sayable(items[0])
    ensures ShowAll(items) != [] && Opens(ShowAll(items)[0])
  {
    ShowOpens(items[0], 0);
  }

  lemma ItemEnds(x: Expr, shown: seq<Tok>, rest: seq<Tok>, close: Tok, depth: nat)
    requires Ends(rest) && Ends(shown + ([close] + rest)) && close != Eof && close != Comma
    requires ParseExpr(0, shown + ([close] + rest), depth) == Parsed(x, [close] + rest)
    ensures SomeItems(shown + ([close] + rest), depth, close) == ParsedMany([x], rest)
  {
    NextOf(close, rest);
  }

  /** The text of a list of several items, read from the left. */
  lemma ItemsText(items: seq<Expr>, rest: seq<Tok>)
    requires |items| > 1
    ensures ShowAll(items) + rest == Show(items[0], 0) + ([Comma] + (ShowAll(items[1..]) + rest))
  {
    Regroup3(Show(items[0], 0), [Comma], ShowAll(items[1..]), rest);
  }

  /** The text of a map with entries to come, read from the left. */
  lemma EntriesText(e: Expr, k: nat, rest: seq<Tok>)
    requires e.MapOf? && k + 1 < |e.entries|
    ensures ShowEntries(e, k) + rest
      == [TStr(e.entries[k].0), Colon] + (Show(e.entries[k].1, 0) + ([Comma] + (ShowEntries(e, k + 1) + rest)))
  {
    Regroup4([TStr(e.entries[k].0), Colon], Show(e.entries[k].1, 0), [Comma], ShowEntries(e, k + 1), rest);
  }

  lemma LastEntryText(e: Expr, k: nat, rest: seq<Tok>)
    requires e.MapOf? && k + 1 == |e.entries|
    ensures ShowEntries(e, k) + rest == [TStr(e.entries[k].0), Colon] + (Show(e.entries[k].1, 0) + rest)
  {
    Regroup2([TStr(e.entries[k].0), Colon], Show(e.entries[k].1, 0), rest);
  }

  lemma ItemGoesOn(x: Expr, shown: seq<Tok>, more: seq<Tok>, close: Tok, depth: nat)
    requires Ends(more) && Ends(shown + ([Comma] + more)) && close != Eof
    requires ParseExpr(0, shown + ([Comma] + more), depth) == Parsed(x, [Comma] + more)
    ensures SomeItems(shown + ([Comma] + more), depth, close) == AddItem(x, SomeItems(more, depth, close))
  {
    NextOf(Comma, more);
  }

  // ---- the induction ----

  /** An operand, up to where its own suffixes start. */
  lemma {:induction false} PrefixShown(e: Expr, rest: seq<Tok>, depth: nat)
    requires Sayable(e) && Ends(rest) && rest[0] != LParen && depth + ShowNeed(e, 9) <= MAX_EXPR_DEPTH
    ensures Ends(Show(e, 9) + rest) && Prefix(Show(e, 9) + rest, depth) == Postfix(e, rest, depth)
    decreases e, if Level(e) < 9 then 1 else 0, 2
  {
    EndsAfter(Show(e, 9), rest);
    if Level(e) < 9 {
      ParenShown(e, rest, depth);
    } else {
      match e
      case Literal(v) => AtomStep(v, rest, depth);
      case Ident(name) => NameStep(name, rest, depth);
      case ListOf(items) =>
        ItemsShown(items, RBracket, rest, depth);
        ListStep(ShowAll(items), items, rest, depth);
        Regroup3([LBracket], ShowAll(items), [RBracket], rest);
      case MapOf(entries) =>
        MapShown(e, rest, depth);
        MapStep(ShowEntries(e, 0), entries, rest, depth);
        Regroup3([LBrace], ShowEntries(e, 0), [RBrace], rest);
      case MemberOf(target, field) => MemberShown(target, field, rest, depth);
      case IndexOf(target, index) => IndexShown(target, index, rest, depth);
      case RangeOf(target, lo, hi) => RangeShown(target, lo, hi, rest, depth);
      case Call(receiver, name, args) =>
        if receiver.None? {
          CallShown(name, args, rest, depth);
          CallBody(name, args, rest);
        } else {
          MethodShown(receiver.value, name, args, rest, depth);
          MethodBody(receiver.value, name, args, rest);
        }
    }
  }

  lemma {:induction false} ParenShown(e: Expr, rest: seq<Tok>, depth: nat)
    requires Sayable(e) && Ends(rest) && depth + 1 + Need(e) <= MAX_EXPR_DEPTH
    ensures Ends([LParen] + Body(e) + [RParen] + rest)
    ensures Prefix([LParen] + Body(e) + [RParen] + rest, depth) == Postfix(e, rest, depth)
    decreases e, 1, 1
  {
    NextOf(RParen, rest);
    ExprShown(e, 0, [RParen] + rest, depth);
    ParenStep(Body(e), e, rest, depth);
    Regroup3([LParen], Body(e), [RParen], rest);
  }

  lemma {:induction false} MemberShown(target: Expr, field: string, rest: seq<Tok>, depth: nat)
    requires Sayable(target) && Ends(rest) && rest[0] != LParen && depth + ShowNeed(target, 9) <= MAX_EXPR_DEPTH
    ensures
      var shown := Show(target, 9) + [Dot, TIdent(field)] + rest;
      Ends(shown) && Prefix(shown, depth) == Postfix(MemberOf(target, field), rest, depth)
    decreases target, 2
  {
    NextOf(TIdent(field), rest);
    var tail := [Dot] + ([TIdent(field)] + rest);
    NextOf(Dot, [TIdent(field)] + rest);
    PrefixShown(target, tail, depth);
    MemberStep(target, field, rest, depth);
    RegroupPair(Show(target, 9), Dot, TIdent(field), rest);
  }

  lemma {:induction false} IndexShown(target: Expr, index: Expr, rest: seq<Tok>, depth: nat)
    requires Sayable(target) && Sayable(index) && Ends(rest)
    requires depth + ShowNeed(target, 9) <= MAX_EXPR_DEPTH && depth + 1 + ShowNeed(index, 0) <= MAX_EXPR_DEPTH
    ensures
      var shown := Show(target, 9) + [LBracket] + Show(index, 0) + [RBracket] + rest;
      Ends(shown) && Prefix(shown, depth) == Postfix(IndexOf(target, index), rest, depth)
    decreases IndexOf(target, index), 0, 1
  {
    NextOf(RBracket, rest);
    ShowOpens(index, 0);
    ExprShown(index, 0, [RBracket] + rest, depth);
    IndexStep(target, Show(index, 0), index, rest, depth);
    var tail := [LBracket] + (Show(index, 0) + ([RBracket] + rest));
    NextOf(LBracket, Show(index, 0) + ([RBracket] + rest));
    PrefixShown(target, tail, depth);
    Regroup4(Show(target, 9), [LBracket], Show(index, 0), [RBracket], rest);
  }

  /** A range's bound in front of the token that ends it. */
  lemma {:induction false} BoundShown(x: Option<Expr>, end: Tok, rest: seq<Tok>, depth: nat)
    requires (x.Some? ==> Sayable(x.value)) && Ends(rest) && end in [Colon, RBracket]
    requires depth + OptionNeed(x) <= MAX_EXPR_DEPTH
    ensures Ends(ShowOption(x) + ([end] + rest))
    ensures x.None? ==> ShowOption(x) == []
    ensures x.Some? ==> ShowOption(x) != [] && Opens(ShowOption(x)[0])
    ensures x.Some? ==> ParseExpr(0, ShowOption(x) + ([end] + rest), depth) == Parsed(x.value, [end] + rest)
    decreases x, 0
  {
    NextOf(end, rest);
    EndsAfter(ShowOption(x), [end] + rest);
    if x.Some? {
      ShowOpens(x.value, 0);
      ExprShown(x.value, 0, [end] + rest, depth);
    }
  }

  lemma {:induction false} RangeShown(target: Expr, lo: Option<Expr>, hi: Option<Expr>, rest: seq<Tok>, depth: nat)
    requires Sayable(RangeOf(target, lo, hi)) && Ends(rest)
    requires depth + Need(RangeOf(target, lo, hi)) <= MAX_EXPR_DEPTH
    ensures
      var shown := Show(target, 9) + [LBracket] + ShowOption(lo) + [Colon] + ShowOption(hi) + [RBracket] + rest;
      Ends(shown) && Prefix(shown, depth) == Postfix(RangeOf(target, lo, hi), rest, depth)
    decreases RangeOf(target, lo, hi), 0, 1
  {
    var closing := ShowOption(hi) + ([RBracket] + rest);
    BoundShown(hi, RBracket, rest, depth);
    RangeCloses(target, lo, hi, ShowOption(hi), rest, depth);
    var inside := ShowOption(lo) + ([Colon] + closing);
    BoundShown(lo, Colon, closing, depth);
    RangeOpens(target, lo, ShowOption(lo), closing, Parsed(RangeOf(target, lo, hi), rest), depth);
    SubscriptStep(target, inside, RangeOf(target, lo, hi), rest, depth);
    NextOf(LBracket, inside);
    PrefixShown(target, [LBracket] + inside, depth);
    Regroup6(Show(target, 9), [LBracket], ShowOption(lo), [Colon], ShowOption(hi), [RBracket], rest);
  }

  lemma {:induction false} CallShown(name: string, args: seq<Expr>, rest: seq<Tok>, depth: nat)
    requires !IsKeyword(name) && (forall a :: a in args ==> Sayable(a)) && Ends(rest)
    requires depth + AllNeed(args) <= MAX_EXPR_DEPTH
    ensures
      var shown := [TIdent(name), LParen] + ShowAll(args) + [RParen] + rest;
      Ends(shown) && Prefix(shown, depth) == Postfix(Call(None, name, args), rest, depth)
    decreases args, 2
  {
    ItemsShown(args, RParen, rest, depth);
    CallStep(name, ShowAll(args), args, rest, depth);
    RegroupCall(name, ShowAll(args), rest);
  }

  lemma {:induction false} MethodShown(x: Expr, name: string, args: seq<Expr>, rest: seq<Tok>, depth: nat)
    requires Sayable(x) && (forall a :: a in args ==> Sayable(a)) && Ends(rest)
    requires depth + ShowNeed(x, 9) <= MAX_EXPR_DEPTH && depth + AllNeed(args) <= MAX_EXPR_DEPTH
    ensures
      var shown := Show(x, 9) + ([Dot] + ([TIdent(name), LParen] + ShowAll(args) + [RParen] + rest));
      Ends(shown) && Prefix(shown, depth) == Postfix(Call(Some(x), name, args), rest, depth)
    decreases Call(Some(x), name, args), 0, 1
  {
    var inside := ShowAll(args) + ([RParen] + rest);
    ItemsShown(args, RParen, rest, depth);
    MethodStep(x, name, ShowAll(args), args, rest, depth);
    RegroupCall(name, ShowAll(args), rest);
    PrefixShown(x, [Dot] + ([TIdent(name)] + ([LParen] + inside)), depth);
  }

  /** An expression, up to the operators that may still take it as their left
      operand. */
  lemma {:induction false} InnerShown(e: Expr, m: nat, min: nat, rest: seq<Tok>, depth: nat)
    requires Sayable(e) && Ends(rest) && min <= m <= 9 && MayFollow(rest[0], e, m)
    requires depth + ShowNeed(e, m) <= MAX_EXPR_DEPTH
    ensures Ends(Show(e, m) + rest) && Inner(min, Show(e, m) + rest, depth) == Operators(min, e, rest, depth)
    decreases e, if Level(e) < m then 1 else 0, 3
  {
    EndsAfter(Show(e, m), rest);
    if Level(e) < m {
      ParenShown(e, rest, depth);
      Settles(e, rest, depth);
    } else if Level(e) == 9 {
      PrefixShown(e, rest, depth);
      Settles(e, rest, depth);
    } else {
      match e
      case Binary(op, l, r) =>
        BinaryShown(op, l, r, min, rest, depth);
        Regroup3(Show(l, OpPower(op)), [OpTok(op)], Show(r, OpPower(op) + 1), rest);
      case Ternary(c, y, n) =>
        TernaryShown(c, y, n, min, rest, depth);
        Regroup5(Show(c, 2), [Question], Show(y, 0), [Colon], Show(n, 1), rest);
      case Is(x, ty) => IsShown(x, ty, min, rest, depth);
      case Unary(op, x) => UnaryShown(op, x, rest, depth); Settles(e, rest, depth);
    }
  }

  /** What follows an operator's left operand. */
  function RightSide(op: BinOp, r: Expr, rest: seq<Tok>): seq<Tok> {
    [OpTok(op)] + (Show(r, OpPower(op) + 1) + rest)
  }

  lemma {:induction false} RightShown(op: BinOp, l: Expr, r: Expr, min: nat, rest: seq<Tok>, depth: nat)
    requires Sayable(r) && Ends(rest) && min <= OpPower(op) && StopsAt(rest[0], OpPower(op) + 1)
    requires depth + 1 + ShowNeed(r, OpPower(op) + 1) <= MAX_EXPR_DEPTH
    ensures Ends(RightSide(op, r, rest)) && RightSide(op, r, rest)[0] == OpTok(op)
    ensures Operators(min, l, RightSide(op, r, rest), depth) == Operators(min, Binary(op, l, r), rest, depth)
    decreases Binary(op, l, r), 0, 1
  {
    ExprShown(r, OpPower(op) + 1, rest, depth);
    OperatorStep(min, l, op, Show(r, OpPower(op) + 1), r, rest, depth);
  }

  lemma BinaryFits(op: BinOp, l: Expr, r: Expr)
    ensures MayFollow(OpTok(op), l, OpPower(op)) && OpPower(op) <= 7
    ensures ShowNeed(l, OpPower(op)) <= Need(Binary(op, l, r))
    ensures 1 + ShowNeed(r, OpPower(op) + 1) <= Need(Binary(op, l, r))
  {
    OpTokIs(op);
  }

  lemma {:induction false} BinaryShown(op: BinOp, l: Expr, r: Expr, min: nat, rest: seq<Tok>, depth: nat)
    requires Sayable(l) && Sayable(r) && Ends(rest) && min <= OpPower(op) && StopsAt(rest[0], OpPower(op) + 1)
    requires depth + Need(Binary(op, l, r)) <= MAX_EXPR_DEPTH
    ensures Ends(Show(l, OpPower(op)) + RightSide(op, r, rest))
    ensures Inner(min, Show(l, OpPower(op)) + RightSide(op, r, rest), depth)
         == Operators(min, Binary(op, l, r), rest, depth)
    decreases Binary(op, l, r), 0, 2
  {
    BinaryFits(op, l, r);
    RightShown(op, l, r, min, rest, depth);
    InnerShown(l, OpPower(op), min, RightSide(op, r, rest), depth);
  }

  /** What follows a conditional's condition. */
  function Arms(y: Expr, n: Expr, rest: seq<Tok>): seq<Tok> {
    [Question] + (Show(y, 0) + ([Colon] + (Show(n, 1) + rest)))
  }

  lemma {:induction false} ArmsShown(c: Expr, y: Expr, n: Expr, min: nat, rest: seq<Tok>, depth: nat)
    requires Sayable(y) && Sayable(n) && Ends(rest) && min <= 1 && StopsAt(rest[0], 1)
    requires depth + 1 + ShowNeed(y, 0) <= MAX_EXPR_DEPTH && depth + 1 + ShowNeed(n, 1) <= MAX_EXPR_DEPTH
    ensures Ends(Arms(y, n, rest)) && Arms(y, n, rest)[0] == Question
    ensures Operators(min, c, Arms(y, n, rest), depth) == Operators(min, Ternary(c, y, n), rest, depth)
    decreases Ternary(c, y, n), 0, 1
  {
    ExprShown(n, 1, rest, depth);
    NextOf(Colon, Show(n, 1) + rest);
    ExprShown(y, 0, [Colon] + (Show(n, 1) + rest), depth);
    TernaryStep(min, c, y, n, Show(y, 0), Show(n, 1), rest, depth);
  }

  lemma TernaryFits(c: Expr, y: Expr, n: Expr)
    ensures MayFollow(Question, c, 2)
    ensures ShowNeed(c, 2) <= Need(Ternary(c, y, n))
    ensures 1 + ShowNeed(y, 0) <= Need(Ternary(c, y, n)) && 1 + ShowNeed(n, 1) <= Need(Ternary(c, y, n))
  {}

  lemma {:induction false} TernaryShown(c: Expr, y: Expr, n: Expr, min: nat, rest: seq<Tok>, depth: nat)
    requires Sayable(c) && Sayable(y) && Sayable(n) && Ends(rest) && min <= 1 && StopsAt(rest[0], 1)
    requires depth + Need(Ternary(c, y, n)) <= MAX_EXPR_DEPTH
    ensures Ends(Show(c, 2) + Arms(y, n, rest))
    ensures Inner(min, Show(c, 2) + Arms(y, n, rest), depth) == Operators(min, Ternary(c, y, n), rest, depth)
    decreases Ternary(c, y, n), 0, 2
  {
    TernaryFits(c, y, n);
    ArmsShown(c, y, n, min, rest, depth);
    InnerShown(c, 2, min, Arms(y, n, rest), depth);
  }

  lemma {:induction false} IsShown(x: Expr, ty: string, min: nat, rest: seq<Tok>, depth: nat)
    requires Sayable(x) && Ends(rest) && min <= 5 && depth + ShowNeed(x, 5) <= MAX_EXPR_DEPTH
    ensures
      var shown := Show(x, 5) + [TIdent("is"), TIdent(ty)] + rest;
      Ends(shown) && Inner(min, shown, depth) == Operators(min, Is(x, ty), rest, depth)
    decreases Is(x, ty), 0, 2
  {
    NextOf(TIdent(ty), rest);
    var tail := [TIdent("is")] + ([TIdent(ty)] + rest);
    NextOf(TIdent("is"), [TIdent(ty)] + rest);
    InnerShown(x, 5, min, tail, depth);
    IsStep(min, x, ty, rest, depth);
    RegroupPair(Show(x, 5), TIdent("is"), TIdent(ty), rest);
  }

  lemma {:induction false} UnaryShown(op: UnOp, x: Expr, rest: seq<Tok>, depth: nat)
    requires Sayable(x) && Ends(rest) && !Continues(rest[0]) && depth + 1 + ShowNeed(x, 8) <= MAX_EXPR_DEPTH
    ensures
      var shown := [if op.Not? then Bang else Minus_] + Show(x, 8) + rest;
      Ends(shown) && Prefix(shown, depth) == Postfix(Unary(op, x), rest, depth)
    decreases Unary(op, x), 0, 2
  {
    EndsAfter(Show(x, 8), rest);
    ExprShown(x, 8, rest, depth);
    UnaryStep(op, Show(x, 8), x, rest, depth);
    Regroup2([if op.Not? then Bang else Minus_], Show(x, 8), rest);
  }

  /** A whole expression, wherever it may end. */
  lemma {:induction false} ExprShown(e: Expr, min: nat, rest: seq<Tok>, depth: nat)
    requires Sayable(e) && Ends(rest) && min <= 9 && StopsAt(rest[0], min)
    requires depth + 1 + ShowNeed(e, min) <= MAX_EXPR_DEPTH
    ensures Ends(Show(e, min) + rest) && ParseExpr(min, Show(e, min) + rest, depth) == Parsed(e, rest)
    decreases e, if Level(e) < min then 1 else 0, 4
  {
    InnerShown(e, min, min, rest, depth + 1);
  }

  lemma {:induction false} ItemsShown(items: seq<Expr>, close: Tok, rest: seq<Tok>, depth: nat)
    requires (forall i :: i in items ==> Sayable(i)) && Ends(rest) && close in [RParen, RBracket]
    requires depth + AllNeed(items) <= MAX_EXPR_DEPTH
    ensures Ends(ShowAll(items) + ([close] + rest))
    ensures Items(ShowAll(items) + ([close] + rest), depth, close) == ParsedMany(items, rest)
    decreases items, 1
  {
    NextOf(close, rest);
    EndsAfter(ShowAll(items), [close] + rest);
    if items == [] {
      NothingBefore(ShowAll(items), [close] + rest);
    } else {
      SomeItemsShown(items, close, rest, depth);
      ItemsOpen(items);
      FirstOf(ShowAll(items), [close] + rest);
    }
  }

  lemma ItemFits(items: seq<Expr>)
    requires items != [] && forall i :: i in items ==> Sayable(i)
    ensures Sayable(items[0]) && 1 + ShowNeed(items[0], 0) <= AllNeed(items)
    ensures (forall i :: i in items[1..] ==> Sayable(i)) && AllNeed(items[1..]) <= AllNeed(items)
    ensures items == [items[0]] + items[1..]
  {}

  lemma {:induction false} SomeItemsShown(items: seq<Expr>, close: Tok, rest: seq<Tok>, depth: nat)
    requires items != [] && (forall i :: i in items ==> Sayable(i)) && Ends(rest) && close in [RParen, RBracket]
    requires depth + AllNeed(items) <= MAX_EXPR_DEPTH
    ensures Ends(ShowAll(items) + ([close] + rest))
    ensures SomeItems(ShowAll(items) + ([close] + rest), depth, close) == ParsedMany(items, rest)
    decreases items, 0
  {
    ItemFits(items);
    if |items| == 1 {
      NextOf(close, rest);
      ExprShown(items[0], 0, [close] + rest, depth);
      ItemEnds(items[0], Show(items[0], 0), rest, close, depth);
    } else {
      NextOf(close, rest);
      SomeItemsShown(items[1..], close, rest, depth);
      ItemThenShown(items[0], ShowAll(items[1..]) + ([close] + rest), close, depth);
      ItemsText(items, [close] + rest);
    }
  }

  lemma {:induction false} ItemThenShown(x: Expr, more: seq<Tok>, close: Tok, depth: nat)
    requires Sayable(x) && Ends(more) && close in [RParen, RBracket] && depth + 1 + ShowNeed(x, 0) <= MAX_EXPR_DEPTH
    ensures Ends(Show(x, 0) + ([Comma] + more))
    ensures SomeItems(Show(x, 0) + ([Comma] + more), depth, close) == AddItem(x, SomeItems(more, depth, close))
    decreases x, 6
  {
    NextOf(Comma, more);
    ExprShown(x, 0, [Comma] + more, depth);
    ItemGoesOn(x, Show(x, 0), more, close, depth);
  }

  lemma {:induction false} MapShown(e: Expr, rest: seq<Tok>, depth: nat)
    requires e.MapOf? && Sayable(e) && Ends(rest) && depth + EntriesNeed(e, 0) <= MAX_EXPR_DEPTH
    ensures Ends(ShowEntries(e, 0) + ([RBrace] + rest))
    ensures Entries_(ShowEntries(e, 0) + ([RBrace] + rest), depth) == ParsedMap(e.entries, rest)
    decreases e, 0, 1
  {
    NextOf(RBrace, rest);
    EndsAfter(ShowEntries(e, 0), [RBrace] + rest);
    if e.entries == [] {
      assert ShowEntries(e, 0) + ([RBrace] + rest) == [RBrace] + rest;
    } else {
      EntriesShown(e, 0, rest, depth);
      assert e.entries[0..] == e.entries;
    }
  }

  lemma EntryFits(e: Expr, k: nat)
    requires e.MapOf? && Sayable(e) && k < |e.entries|
    ensures Sayable(e.entries[k].1) && 1 + ShowNeed(e.entries[k].1, 0) <= EntriesNeed(e, k)
    ensures EntriesNeed(e, k + 1) <= EntriesNeed(e, k)
    ensures e.entries[k..] == [(e.entries[k].0, e.entries[k].1)] + e.entries[k + 1..]
  {
    assert e.entries[k] in e.entries;
    TailFrom(e.entries, k);
  }

  lemma {:induction false} EntriesShown(e: Expr, k: nat, rest: seq<Tok>, depth: nat)
    requires e.MapOf? && Sayable(e) && Ends(rest) && k < |e.entries| && depth + EntriesNeed(e, k) <= MAX_EXPR_DEPTH
    ensures Ends(ShowEntries(e, k) + ([RBrace] + rest))
    ensures SomeEntries(ShowEntries(e, k) + ([RBrace] + rest), depth) == ParsedMap(e.entries[k..], rest)
    decreases e, 0, 0, |e.entries| - k
  {
    EntryFits(e, k);
    NextOf(RBrace, rest);
    if k + 1 == |e.entries| {
      LastEntryShown(e.entries[k].0, e.entries[k].1, rest, depth);
      LastEntryText(e, k, [RBrace] + rest);
    } else {
      EntriesShown(e, k + 1, rest, depth);
      EntryThenShown(e.entries[k].0, e.entries[k].1, ShowEntries(e, k + 1) + ([RBrace] + rest), depth);
      EntriesText(e, k, [RBrace] + rest);
    }
  }

  lemma {:induction false} LastEntryShown(key: string, value: Expr, rest: seq<Tok>, depth: nat)
    requires Sayable(value) && Ends(rest) && depth + 1 + ShowNeed(value, 0) <= MAX_EXPR_DEPTH
    ensures Ends([TStr(key), Colon] + (Show(value, 0) + ([RBrace] + rest)))
    ensures SomeEntries([TStr(key), Colon] + (Show(value, 0) + ([RBrace] + rest)), depth)
         == ParsedMap([(key, value)], rest)
    decreases value, 6
  {
    NextOf(RBrace, rest);
    ExprShown(value, 0, [RBrace] + rest, depth);
    EntryEnds(key, Show(value, 0), value, rest, depth);
  }

  lemma {:induction false} EntryThenShown(key: string, value: Expr, more: seq<Tok>, depth: nat)
    requires Sayable(value) && Ends(more) && depth + 1 + ShowNeed(value, 0) <= MAX_EXPR_DEPTH
    ensures Ends([TStr(key), Colon] + (Show(value, 0) + ([Comma] + more)))
    ensures SomeEntries([TStr(key), Colon] + (Show(value, 0) + ([Comma] + more)), depth)
         == AddEntry(key, value, SomeEntries(more, depth))
    decreases value, 6
  {
    NextOf(Comma, more);
    ExprShown(value, 0, [Comma] + more, depth);
    EntryGoesOn(key, Show(value, 0), value, more, depth);
  }

  /** A source text of one printed expression parses to that expression alone:
      the parser's top level reads it whole and stops at the end of input. */
  lemma {:induction false} ParseUndoesShow(e: Expr)
    requires Sayable(e) && 1 + Need(e) <= MAX_EXPR_DEPTH
    ensures Ends(Show(e, 0) + [Eof]) && ParseExpr(0, Show(e, 0) + [Eof], 0) == Parsed(e, [Eof])
  {
    ExprShown(e, 0, [Eof], 0);
  }
}
