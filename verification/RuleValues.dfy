/** Runtime values of the rules language, and its operators on them. Errors
    are values too: `Undefined`. */
module RuleValues {
  import opened Orderings
  import opened Bits
  import Numbers
  import opened Results

  type F64 = Numbers.F64

  datatype Val =
    | Null
    | Bool(b: bool)
    | Int(i: i64)
    | Float(f: F64)
    | Str(s: string)
    | Bytes(bytes: seq<int>)
    | Timestamp(seconds: int, nanos: int)
    | Duration(seconds: int, nanos: int)
    | LatLng(lat: F64, lng: F64)
    | List(items: seq<Val>)
    | Map(entries: map<string, Val>)
    | Path(segments: seq<string>)
    | Undefined

  /** Floating-point operations, taken from the machine. */
  datatype Floats = Floats(
    fromInt: i64 -> F64,
    equal: (F64, F64) -> bool,
    compare: (F64, F64) -> Option<Ordering>,
    arithmetic: (ArithmeticOp, F64, F64) -> F64,
    negate: F64 -> F64)

  datatype ArithmeticOp = Plus | Minus | Times | Divided | Modulo

  datatype ComparisonOp = Lt | Le | Gt | Ge

  /** Not an error, and no error anywhere inside. */
  predicate Defined(v: Val) {
    match v
    case Undefined => false
    case List(items) => forall x :: x in items ==> Defined(x)
    case Map(entries) => forall k :: k in entries ==> Defined(entries[k])
    case _ => true
  }

  /** An error, or free of errors inside. */
  predicate Solid(v: Val) {
    v.Undefined? || Defined(v)
  }

  function AsBool(v: Val): Option<bool> {
    if v.Bool? then Some(v.b) else None
  }

  function TypeName(v: Val): string {
    match v
    case Null => "null"
    case Bool(_) => "bool"
    case Int(_) => "int"
    case Float(_) => "float"
    case Str(_) => "string"
    case Bytes(_) => "bytes"
    case Timestamp(_, _) => "timestamp"
    case Duration(_, _) => "duration"
    case LatLng(_, _) => "latlng"
    case List(_) => "list"
    case Map(_) => "map"
    case Path(_) => "path"
    case Undefined => "undefined"
  }

  predicate MatchesType(v: Val, ty: string) {
    if ty == "number" then v.Int? || v.Float? else TypeName(v) == ty
  }

  // ---- equality and order ----

  /** Same-type comparison, int and float numerically; cross-type is false. */
  predicate Equals(fl: Floats, a: Val, b: Val)
    decreases a
  {
    match (a, b)
    case (Null, Null) => true
    case (Bool(x), Bool(y)) => x == y
    case (Int(x), Int(y)) => x == y
    case (Float(x), Float(y)) => fl.equal(x, y)
    case (Int(x), Float(y)) => fl.equal(fl.fromInt(x), y)
    case (Float(x), Int(y)) => fl.equal(fl.fromInt(y), x)
    case (Str(x), Str(y)) => x == y
    case (Bytes(x), Bytes(y)) => x == y
    case (Timestamp(s, n), Timestamp(t, o)) => s == t && n == o
    case (Duration(s, n), Duration(t, o)) => s == t && n == o
    case (LatLng(x, y), LatLng(u, v)) => fl.equal(x, u) && fl.equal(y, v)
    case (List(x), List(y)) => |x| == |y| && forall i :: 0 <= i < |x| ==> Equals(fl, x[i], y[i])
    case (Map(x), Map(y)) => x.Keys == y.Keys && forall k :: k in x ==> Equals(fl, x[k], y[k])
    case (Path(x), Path(y)) => x == y
    case _ => false
  }

  function CompareStrings(a: string, b: string): Ordering {
    if a == "" then (if b == "" then Equal else Less)
    else if b == "" then Greater
    else if a[0] != b[0] then (if a[0] < b[0] then Less else Greater)
    else CompareStrings(a[1..], b[1..])
  }

  /** Only values of one orderable kind compare. */
  function Compare(fl: Floats, a: Val, b: Val): Option<Ordering> {
    match (a, b)
    case (Int(x), Int(y)) => Some(CompareInts(x, y))
    case (Float(x), Float(y)) => fl.compare(x, y)
    case (Int(x), Float(y)) => fl.compare(fl.fromInt(x), y)
    case (Float(x), Int(y)) => fl.compare(x, fl.fromInt(y))
    case (Str(x), Str(y)) => Some(CompareStrings(x, y))
    case (Timestamp(s, n), Timestamp(t, o)) => Some(CompareInts(s, t).Then(CompareInts(n, o)))
    case (Duration(s, n), Duration(t, o)) => Some(CompareInts(s, t).Then(CompareInts(n, o)))
    case _ => None
  }

  function Compared(fl: Floats, op: ComparisonOp, l: Val, r: Val): Val {
    match Compare(fl, l, r)
    case None => Undefined
    case Some(c) =>
      Bool(match op
           case Lt => c == Less
           case Le => c != Greater
           case Gt => c == Greater
           case Ge => c != Less)
  }

  function Contained(fl: Floats, l: Val, r: Val): Val {
    match r
    case List(items) => Bool(exists x :: x in items && Equals(fl, x, l))
    case Map(entries) => if l.Str? then Bool(l.s in entries) else Undefined
    case _ => Undefined
  }

  // ---- arithmetic ----

  const BILLION := 1_000_000_000

  function InRange(n: int): Val {
    if -0x8000_0000_0000_0000 <= n < 0x8000_0000_0000_0000 then Int(n) else Undefined
  }

  /** Division toward zero, and the remainder that goes with it. */
  function TruncatedQuotient(a: int, b: int): int
    requires b != 0
  {
    var q := (if a < 0 then -a else a) / (if b < 0 then -b else b);
    if (a < 0) == (b < 0) then q else -q
  }

  function IntArithmetic(op: ArithmeticOp, a: i64, b: i64): Val {
    match op
    case Plus => InRange(a + b)
    case Minus => InRange(a - b)
    case Times => InRange(a * b)
    case Divided => if b == 0 then Undefined else InRange(TruncatedQuotient(a, b))
    case Modulo =>
      if b == 0 || InRange(TruncatedQuotient(a, b)).Undefined? then Undefined
      else InRange(a - TruncatedQuotient(a, b) * b)
  }

  function Numeric(fl: Floats, v: Val): Option<F64> {
    match v
    case Int(i) => Some(fl.fromInt(i))
    case Float(f) => Some(f)
    case _ => None
  }

  function Stamp(total: int): Val {
    Timestamp(total / BILLION, total % BILLION)
  }

  function Arithmetic(fl: Floats, op: ArithmeticOp, l: Val, r: Val): Val {
    match (l, r)
    case (Str(a), Str(b)) => if op.Plus? then Str(a + b) else Undefined
    case (List(a), List(b)) => if op.Plus? then List(a + b) else Undefined
    case (Timestamp(s, n), Duration(ds, dn)) =>
      if op.Plus? then Stamp((s + ds) * BILLION + n + dn)
      else if op.Minus? then Stamp((s - ds) * BILLION + n - dn)
      else Undefined
    case (Duration(ds, dn), Timestamp(s, n)) => if op.Plus? then Stamp((s + ds) * BILLION + n + dn) else Undefined
    case (Timestamp(s, n), Timestamp(t, o)) =>
      if op.Minus? then
        var total := (s - t) * BILLION + (n - o);
        Duration(total / BILLION, total % BILLION)
      else Undefined
    case (Int(a), Int(b)) => IntArithmetic(op, a, b)
    case _ =>
      if !l.Float? && !r.Float? then Undefined
      else
        var a, b := Numeric(fl, l), Numeric(fl, r);
        if a.Some? && b.Some? then Float(fl.arithmetic(op, a.value, b.value)) else Undefined
  }

  // ---- access ----

  function Member(base: Val, field: string): Val {
    if base.Map? && field in base.entries then base.entries[field] else Undefined
  }

  function IndexValue(base: Val, index: Val): Val {
    match (base, index)
    case (List(items), Int(i)) => if 0 <= i < |items| then items[i] else Undefined
    case (Str(s), Int(i)) => if 0 <= i < |s| then Str([s[i]]) else Undefined
    case (Map(entries), Str(k)) => if k in entries then entries[k] else Undefined
    case (Path(p), Int(i)) => if 0 <= i < |p| then Str(p[i]) else Undefined
    case _ => Undefined
  }

  function Bounded(hi: Option<nat>, length: nat): (h: nat)
    ensures h <= length
  {
    if hi.Some? && hi.value <= length then hi.value else length
  }

  function RangeValue(base: Val, lo: nat, hi: Option<nat>): Val {
    match base
    case List(items) =>
      var h := Bounded(hi, |items|);
      if lo > h then Undefined else List(items[lo..h])
    case Str(s) =>
      var h := Bounded(hi, |s|);
      if lo > h then Undefined else Str(s[lo..h])
    case Path(p) =>
      var h := Bounded(hi, |p|);
      if lo > h then Undefined else Path(p[lo..h])
    case _ => Undefined
  }

  // ---- no operator buries an error ----

  lemma ArithmeticSolid(fl: Floats, op: ArithmeticOp, l: Val, r: Val)
    requires Defined(l) && Defined(r)
    ensures Solid(Arithmetic(fl, op, l, r))
  {
    if l.List? && r.List? {
      assert forall x :: x in l.items + r.items ==> x in l.items || x in r.items;
    }
  }

  lemma AccessSolid(base: Val, index: Val, field: string, lo: nat, hi: Option<nat>)
    requires Defined(base)
    ensures Solid(Member(base, field)) && Solid(IndexValue(base, index)) && Solid(RangeValue(base, lo, hi))
  {
    if base.List? {
      assert forall x :: (exists h :: lo <= h <= |base.items| && x in base.items[lo..h]) ==> x in base.items;
    }
  }
}
