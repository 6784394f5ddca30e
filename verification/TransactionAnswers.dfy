/** What requests answer under a transaction's name, and what of it still
    stands when the transaction commits. */
module TransactionAnswers {
  import opened Bytes
  import opened Bits
  import opened Results
  import opened Errors
  import opened Values
  import opened Fields
  import opened Transforms
  import opened Commits
  import opened CommitTheorems
  import opened Transactions
  import opened TransactionRuns

  // ---- which answers are recorded ----

  datatype Rpc = GetDocument | ListDocuments | BatchGet | RunQuery | RunAggregation

  datatype Selector = Latest | InTransaction(token: Token) | NewTransaction

  /** The transaction a request reads under: the one it names, or the one a
      batch get or a query begins. */
  function NamedToken(rpc: Rpc, selector: Selector, begun: Token): Option<Token> {
    match selector
    case Latest => None
    case InTransaction(token) => Some(token)
    case NewTransaction => if rpc.BatchGet? || rpc.RunQuery? then Some(begun) else None
  }

  /** A list and an aggregation ignore their selectors, and a query records
      only the documents it finds. */
  predicate Records(rpc: Rpc, row: Option<StoredRow>) {
    match rpc
    case ListDocuments => false
    case RunAggregation => false
    case RunQuery => row.Some?
    case _ => true
  }

  /** One document answered under a transaction's name: fetched, and recorded
      where the request records, with any other steps in between. */
  function Answering(rpc: Rpc, token: Token, path: Utf8, row: Option<StoredRow>, between: seq<Step>): seq<Step> {
    [Fetch(token, path)] + between + (if Records(rpc, row) then [Record(Fetched(token, path, row))] else [])
  }

  // ---- over a run ----

  lemma {:induction false} RunInTurn(ops: FloatOps, database: Utf8, s: State, a: seq<Step>, b: seq<Step>)
    ensures Run(ops, database, s, a + b) == Run(ops, database, Run(ops, database, s, a), b)
    ensures Legal(ops, database, s, a + b) <==> Legal(ops, database, s, a) && Legal(ops, database, Run(ops, database, s, a), b)
    decreases |a|
  {
    if a == [] {
      assert a + b == b;
    } else {
      assert (a + b)[1..] == a[1..] + b && (a + b)[0] == a[0];
      RunInTurn(ops, database, Next(ops, database, s, a[0]), a[1..], b);
    }
  }

  predicate Holds(s: State, token: Token, path: Utf8, row: Option<StoredRow>) {
    token in s.issued && token in s.seen && path in s.seen[token] && s.seen[token][path] == row
  }

  /** What a transaction first saw of a document is never replaced. */
  lemma {:induction false} SeenStays(ops: FloatOps, database: Utf8, s: State, token: Token, path: Utf8,
                                     row: Option<StoredRow>, steps: seq<Step>)
    requires Invariant(s) && Legal(ops, database, s, steps) && Holds(s, token, path, row)
    ensures Holds(Run(ops, database, s, steps), token, path, row)
    decreases |steps|
  {
    if steps != [] {
      StepInvariant(ops, database, s, steps[0]);
      SeenStep(ops, database, s, token, path, row, steps[0]);
      SeenStays(ops, database, Next(ops, database, s, steps[0]), token, path, row, steps[1..]);
    }
  }

  lemma SeenStep(ops: FloatOps, database: Utf8, s: State, token: Token, path: Utf8, row: Option<StoredRow>, step: Step)
    requires Invariant(s) && Enabled(s, step) && Holds(s, token, path, row)
    ensures Holds(Next(ops, database, s, step), token, path, row)
  {
    match step
    case Record(f) =>
      if f.token in s.active {
        assert Remembers(s, f.token);
      }
    case _ =>
  }

  /** A transaction that has ended never returns. */
  predicate Ended(s: State, token: Token) {
    token in s.issued && token !in s.active
  }

  lemma {:induction false} EndedStays(ops: FloatOps, database: Utf8, s: State, token: Token, steps: seq<Step>)
    requires Legal(ops, database, s, steps) && Ended(s, token)
    ensures Ended(Run(ops, database, s, steps), token)
    decreases |steps|
  {
    if steps != [] {
      EndedStep(ops, database, s, token, steps[0]);
      EndedStays(ops, database, Next(ops, database, s, steps[0]), token, steps[1..]);
    }
  }

  lemma EndedStep(ops: FloatOps, database: Utf8, s: State, token: Token, step: Step)
    requires Enabled(s, step) && Ended(s, token)
    ensures Ended(Next(ops, database, s, step), token)
  {
    match step
    case Record(f) =>
    case _ =>
  }

  // ---- exactly which answers stand ----

  predicate InReadSet(s: State, token: Token, path: Utf8) {
    token in s.active && path in s.active[token].readVersions
  }

  /** The transaction has no record of the document yet, or one of the answered
      version. */
  predicate Agrees(s: State, token: Token, path: Utf8, row: Option<StoredRow>) {
    InReadSet(s, token, path) ==> s.active[token].readVersions[path] == VersionOf(row)
  }

  /** What a live transaction holds of a document after an answer: its first
      observation, which is this answer exactly if the two agree. */
  lemma RecordHolds(ops: FloatOps, database: Utf8, s: State, f: Fetched) returns (first: Option<StoredRow>)
    requires Invariant(s) && f in s.fetched && f.token in s.active
    ensures Holds(Next(ops, database, s, Record(f)), f.token, f.path, first)
    ensures first == f.row <==> Agrees(s, f.token, f.path, f.row)
  {
    assert Remembers(s, f.token) && Known(s, f.path, f.row);
    first := if f.path in s.active[f.token].readVersions then s.seen[f.token][f.path] else f.row;
    assert Known(s, f.path, first);
  }

  /** A recorded answer, some steps, and a commit that is accepted. */
  lemma RecordThenCommit(ops: FloatOps, database: Utf8, s: State, f: Fetched, after: seq<Step>, end: State,
                         writes: seq<Write>, now: i64, clock: int)
    requires Invariant(s) && f.token != [] && f.token in s.issued
    requires Legal(ops, database, s, [Record(f)] + after) && end == Run(ops, database, s, [Record(f)] + after)
    requires Served(ops, database, end, f.token, writes, now, clock).Ok?
    ensures f.token in s.active && InReadSet(end, f.token, f.path)
    ensures Find(end.rows, f.path) == f.row <==> Agrees(s, f.token, f.path, f.row)
  {
    if f.token !in s.active {
      EndedStays(ops, database, s, f.token, [Record(f)] + after);
    } else {
      var t := Next(ops, database, s, Record(f));
      assert ([Record(f)] + after)[1..] == after;
      var first := RecordHolds(ops, database, s, f);
      StepInvariant(ops, database, s, Record(f));
      SeenStays(ops, database, t, f.token, f.path, first, after);
      RunInvariant(ops, database, t, after);
      AcceptedHolds(ops, database, end, f.token, f.path, first, writes, now, clock);
    }
  }

  lemma AcceptedHolds(ops: FloatOps, database: Utf8, s: State, token: Token, path: Utf8, row: Option<StoredRow>,
                      writes: seq<Write>, now: i64, clock: int)
    requires Invariant(s) && token != [] && Holds(s, token, path, row)
    requires Served(ops, database, s, token, writes, now, clock).Ok?
    ensures InReadSet(s, token, path) && Find(s.rows, path) == row
  {
    assert Remembers(s, token);
    ReadsAreCurrent(ops, database, s, token, writes, now, clock);
  }

  lemma FirstThen(ops: FloatOps, database: Utf8, rows: Table, first: seq<Step>, rest: seq<Step>, s: State, end: State)
    requires Positive(rows) && Legal(ops, database, Start(rows), first + rest)
    requires s == Run(ops, database, Start(rows), first) && end == Run(ops, database, Start(rows), first + rest)
    ensures Invariant(s) && Legal(ops, database, s, rest) && end == Run(ops, database, s, rest)
  {
    RunInTurn(ops, database, Start(rows), first, rest);
    StartInvariant(rows);
    RunInvariant(ops, database, Start(rows), first);
  }

  lemma Rearranged(a: seq<Step>, b: seq<Step>, c: seq<Step>, d: seq<Step>)
    ensures a + (b + c) + d == a + b + (c + d)
  {}

  /** Every recorded answer of every request, first or repeated, over any steps
      before, during and after it: once the transaction's commit is accepted at
      the end, the document is as answered if and only if the transaction had no
      record of it when it was answered, or one of the same version. */
  lemma AnswersStandExactly(ops: FloatOps, database: Utf8, rows: Table, rpc: Rpc, selector: Selector, begun: Token,
                            token: Token, before: seq<Step>, path: Utf8, row: Option<StoredRow>, between: seq<Step>,
                            after: seq<Step>, s: State, end: State, writes: seq<Write>, now: i64, clock: int)
    requires NamedToken(rpc, selector, begun) == Some(token) && token != []
    requires Positive(rows) && Records(rpc, row)
    requires Legal(ops, database, Start(rows), before + Answering(rpc, token, path, row, between) + after)
    requires s == Run(ops, database, Start(rows), before + ([Fetch(token, path)] + between)) && token in s.issued
    requires end == Run(ops, database, Start(rows), before + Answering(rpc, token, path, row, between) + after)
    requires Served(ops, database, end, token, writes, now, clock).Ok?
    ensures token in s.active && InReadSet(end, token, path)
    ensures Find(end.rows, path) == row <==> Agrees(s, token, path, row)
  {
    var f := Fetched(token, path, row);
    var first := before + ([Fetch(token, path)] + between);
    Rearranged(before, [Fetch(token, path)] + between, [Record(f)], after);
    FirstThen(ops, database, rows, first, [Record(f)] + after, s, end);
    RecordThenCommit(ops, database, s, f, after, end, writes, now, clock);
  }

  // ---- exactly which changes go unnoticed ----

  /** Everything else a transaction recorded is still as recorded. */
  predicate OthersHold(s: State, token: Token, path: Utf8)
    requires token in s.active
  {
    forall q :: q in s.active[token].readVersions && q != path ==>
      VersionOf(Find(s.rows, q)) == s.active[token].readVersions[q]
  }

  /** A document answered under a transaction's name has changed since. The
      commit goes ahead if and only if the other records hold and this document
      was never recorded, or is again the row that was recorded first; which
      then was not the answered one. */
  lemma ChangeUnnoticed(s: State, token: Token, path: Utf8, row: Option<StoredRow>, database: Utf8, writes: seq<Write>,
                        clock: int)
    requires Invariant(s) && token != [] && token in s.active
    requires s.active[token].database == database && s.active[token].expiresAt > clock
    requires s.active[token].readOnly ==> writes == []
    requires Known(s, path, row) && Find(s.rows, path) != row
    ensures token in s.seen
    ensures Objection(s.active, s.rows, database, token, writes, clock) == None
      <==> OthersHold(s, token, path) && (path in s.seen[token] ==> s.seen[token][path] == Find(s.rows, path) != row)
  {
    assert Remembers(s, token);
    assert Known(s, path, Find(s.rows, path));
    var records := s.active[token].readVersions;
    if path in records {
      assert Known(s, path, s.seen[token][path]);
      assert VersionOf(Find(s.rows, path)) == records[path] <==> s.seen[token][path] == Find(s.rows, path);
    }
    assert ReadSetHolds(records, s.rows)
      <==> OthersHold(s, token, path) && (path in records ==> VersionOf(Find(s.rows, path)) == records[path]);
  }

  // ---- smallest runs that go stale ----

  predicate Reaches(ops: FloatOps, database: Utf8, s: State, steps: seq<Step>, t: State) {
    Legal(ops, database, s, steps) && Run(ops, database, s, steps) == t
  }

  lemma ReachesOn(ops: FloatOps, database: Utf8, s: State, a: seq<Step>, t: State, b: seq<Step>, u: State)
    requires Reaches(ops, database, s, a, t) && Reaches(ops, database, t, b, u)
    ensures Reaches(ops, database, s, a + b, u)
  {
    RunInTurn(ops, database, s, a, b);
  }

  lemma ReachesNext(ops: FloatOps, database: Utf8, s: State, step: Step)
    requires Enabled(s, step)
    ensures Reaches(ops, database, s, [step], Next(ops, database, s, step))
  {
    var t := Next(ops, database, s, step);
    assert [step][1..] == [];
    assert Run(ops, database, t, []) == t && Legal(ops, database, t, []);
  }

  /** A plain write that changes what is stored: a delete, or a creation. */
  function Turning(rows: Table, p: Utf8, fields: FieldMap): Write {
    Write(if p in rows then Delete else Update(fields), Some(p), None, [], None)
  }

  /** Commits without a transaction leave transactions alone. */
  lemma TurnStep(ops: FloatOps, database: Utf8, s: State, p: Utf8, fields: FieldMap, now: i64)
    requires now > 0 && now !in s.times
    ensures
      var step := Serve([], [Turning(s.rows, p, fields)], now, 0);
      var t := Next(ops, database, s, step);
      && Reaches(ops, database, s, [step], t)
      && t.active == s.active && t.fetched == s.fetched && t.times == s.times + {now}
      && (p in s.rows <==> p !in t.rows)
  {
    var w := Turning(s.rows, p, fields);
    SingleCommit(ops, s.rows, w, now);
    ReachesNext(ops, database, s, Serve([], [w], now, 0));
  }

  /** The only transaction, with these records, and no commit so late. */
  predicate Alone(s: State, database: Utf8, token: Token, records: map<Utf8, i64>, late: i64) {
    s.active == map[token := TxnState(database, false, records, LIFETIME)] && forall t :: t in s.times ==> t < late
  }

  lemma Accepted(ops: FloatOps, database: Utf8, s: State, token: Token, p: Utf8, fields: FieldMap, records: map<Utf8, i64>,
                 late: i64)
    requires token != [] && Alone(s, database, token, records, late) && ReadSetHolds(records, s.rows)
    ensures Served(ops, database, s, token, [Write(Update(fields), Some(p), None, [], None)], late, 1).Ok?
  {
    SingleCommit(ops, s.rows, Write(Update(fields), Some(p), None, [], None), late);
  }

  lemma BeginStep(ops: FloatOps, database: Utf8, rows: Table, token: Token, late: i64)
    requires token != [] && forall q :: q in rows ==> rows[q].updateTime < late
    ensures
      var t := Next(ops, database, Start(rows), Begin(token, false, 0));
      && Reaches(ops, database, Start(rows), [Begin(token, false, 0)], t)
      && Alone(t, database, token, map[], late) && t.rows == rows
  {
    assert Unexpired(map[], 0) == map[];
    ReachesNext(ops, database, Start(rows), Begin(token, false, 0));
  }

  lemma TurnAlone(ops: FloatOps, database: Utf8, s: State, token: Token, p: Utf8, fields: FieldMap,
                  records: map<Utf8, i64>, now: i64, late: i64)
    requires 0 < now < late && Alone(s, database, token, records, now)
    ensures
      var step := Serve([], [Turning(s.rows, p, fields)], now, 0);
      var t := Next(ops, database, s, step);
      && Reaches(ops, database, s, [step], t) && Alone(t, database, token, records, late)
      && t.fetched == s.fetched && (p in s.rows <==> p !in t.rows)
  {
    TurnStep(ops, database, s, p, fields, now);
  }

  /** An answer recorded at once. */
  lemma AnswerAlone(ops: FloatOps, database: Utf8, s: State, token: Token, p: Utf8, records: map<Utf8, i64>, late: i64)
    requires Alone(s, database, token, records, late)
    ensures
      var row := Find(s.rows, p);
      var t := Next(ops, database, Next(ops, database, s, Fetch(token, p)), Record(Fetched(token, p, row)));
      && Reaches(ops, database, s, Answering(GetDocument, token, p, row, []), t) && t.rows == s.rows
      && Alone(t, database, token, if p in records then records else records[p := VersionOf(row)], late)
  {
    var f := Fetched(token, p, Find(s.rows, p));
    var t := Next(ops, database, s, Fetch(token, p));
    ReachesNext(ops, database, s, Fetch(token, p));
    ReachesNext(ops, database, t, Record(f));
    ReachesOn(ops, database, s, [Fetch(token, p)], t, [Record(f)], Next(ops, database, t, Record(f)));
    assert [Fetch(token, p)] + [] + [Record(f)] == [Fetch(token, p)] + [Record(f)];
  }

  lemma TurnedUnseen(ops: FloatOps, database: Utf8, s: State, rpc: Rpc, token: Token, p: Utf8, fields: FieldMap,
                     early: i64, late: i64)
    requires token != [] && 0 < early < late && Alone(s, database, token, map[], early) && !Records(rpc, Find(s.rows, p))
    ensures
      var steps := Answering(rpc, token, p, Find(s.rows, p), [Serve([], [Turning(s.rows, p, fields)], early, 0)]);
      var t := Run(ops, database, s, steps);
      && Reaches(ops, database, s, steps, t) && Fetched(token, p, Find(s.rows, p)) in t.fetched
      && Find(t.rows, p) != Find(s.rows, p) && Alone(t, database, token, map[], late)
  {
    var fetch, turn := Fetch(token, p), Serve([], [Turning(s.rows, p, fields)], early, 0);
    var s1 := Next(ops, database, s, fetch);
    ReachesNext(ops, database, s, fetch);
    TurnAlone(ops, database, s1, token, p, fields, map[], early, late);
    ReachesOn(ops, database, s, [fetch], s1, [turn], Next(ops, database, s1, turn));
    assert Answering(rpc, token, p, Find(s.rows, p), [turn]) == [fetch] + [turn];
  }

  /** Every answer that is not recorded can go stale: a document that a list or
      an aggregation reads, and one that a query does not find. A plain commit
      right after the read turns it, and the transaction commits all the same. */
  lemma UnrecordedAnswerGoesStale(ops: FloatOps, database: Utf8, rows: Table, rpc: Rpc, token: Token, p: Utf8,
                                  fields: FieldMap, early: i64, late: i64, steps: seq<Step>, s: State)
    requires token != [] && 0 < early < late && forall q :: q in rows ==> rows[q].updateTime < early
    requires !Records(rpc, Find(rows, p))
    requires steps == Answering(rpc, token, p, Find(rows, p), [Serve([], [Turning(rows, p, fields)], early, 0)])
    requires s == Run(ops, database, Start(rows), [Begin(token, false, 0)] + steps)
    ensures Legal(ops, database, Start(rows), [Begin(token, false, 0)] + steps)
    ensures Fetched(token, p, Find(rows, p)) in s.fetched && Find(s.rows, p) != Find(rows, p)
    ensures Served(ops, database, s, token, [Write(Update(fields), Some(p), None, [], None)], late, 1).Ok?
  {
    var begin := Begin(token, false, 0);
    BeginStep(ops, database, rows, token, early);
    var s1 := Next(ops, database, Start(rows), begin);
    TurnedUnseen(ops, database, s1, rpc, token, p, fields, early, late);
    ReachesOn(ops, database, Start(rows), [begin], s1, steps, Run(ops, database, s1, steps));
    Accepted(ops, database, s, token, p, fields, map[], late);
  }

  lemma CreatedAfter(ops: FloatOps, database: Utf8, s: State, token: Token, p: Utf8, fields: FieldMap, early: i64,
                     middle: i64)
    requires token != [] && 0 < early < middle && Alone(s, database, token, map[], early) && p !in s.rows
    ensures
      var create := Serve([], [Write(Update(fields), Some(p), None, [], None)], early, 0);
      var steps := Answering(GetDocument, token, p, None, []) + [create];
      var t := Run(ops, database, s, steps);
      Reaches(ops, database, s, steps, t) && p in t.rows && Alone(t, database, token, map[p := 0], middle)
  {
    var create := Serve([], [Turning(s.rows, p, fields)], early, 0);
    AnswerAlone(ops, database, s, token, p, map[], early);
    var s1 := Next(ops, database, Next(ops, database, s, Fetch(token, p)), Record(Fetched(token, p, None)));
    TurnAlone(ops, database, s1, token, p, fields, map[p := 0], early, middle);
    ReachesOn(ops, database, s, Answering(GetDocument, token, p, None, []), s1, [create], Next(ops, database, s1, create));
  }

  lemma AnsweredAgain(ops: FloatOps, database: Utf8, s: State, token: Token, p: Utf8, fields: FieldMap, middle: i64,
                      late: i64)
    requires token != [] && 0 < middle < late && p in s.rows && Alone(s, database, token, map[p := 0], middle)
    ensures
      var remove := Serve([], [Write(Delete, Some(p), None, [], None)], middle, 0);
      var steps := Answering(GetDocument, token, p, Find(s.rows, p), []) + [remove];
      var t := Run(ops, database, s, steps);
      && Reaches(ops, database, s, steps, t) && Find(t.rows, p) == None && InReadSet(t, token, p)
      && Served(ops, database, t, token, [Write(Update(fields), Some(p), None, [], None)], late, 1).Ok?
  {
    var row, remove := Find(s.rows, p), Serve([], [Write(Delete, Some(p), None, [], None)], middle, 0);
    AnswerAlone(ops, database, s, token, p, map[p := 0], middle);
    var s1 := Next(ops, database, Next(ops, database, s, Fetch(token, p)), Record(Fetched(token, p, row)));
    TurnAlone(ops, database, s1, token, p, fields, map[p := 0], middle, late);
    var s2 := Next(ops, database, s1, remove);
    ReachesOn(ops, database, s, Answering(GetDocument, token, p, row, []), s1, [remove], s2);
    Accepted(ops, database, s2, token, p, fields, map[p := 0], late);
  }

  /** A recorded answer can go stale when it is repeated: the document is answered
      absent, created, answered again, and deleted. The record is the first
      answer, and it holds again. */
  lemma RepeatedAnswerGoesStale(ops: FloatOps, database: Utf8, rows: Table, token: Token, p: Utf8, fields: FieldMap,
                                early: i64, middle: i64, late: i64, before: seq<Step>, row: Option<StoredRow>,
                                steps: seq<Step>, s: State)
    requires token != [] && 0 < early < middle < late && p !in rows && forall q :: q in rows ==> rows[q].updateTime < early
    requires
      var create := Serve([], [Write(Update(fields), Some(p), None, [], None)], early, 0);
      before == Answering(GetDocument, token, p, None, []) + [create]
    requires row == Find(Run(ops, database, Start(rows), [Begin(token, false, 0)] + before).rows, p)
    requires
      var remove := Serve([], [Write(Delete, Some(p), None, [], None)], middle, 0);
      steps == [Begin(token, false, 0)] + before + (Answering(GetDocument, token, p, row, []) + [remove])
    requires s == Run(ops, database, Start(rows), steps)
    ensures Legal(ops, database, Start(rows), steps)
    ensures row.Some? && Find(s.rows, p) == None && InReadSet(s, token, p)
    ensures Served(ops, database, s, token, [Write(Update(fields), Some(p), None, [], None)], late, 1).Ok?
  {
    var begin := Begin(token, false, 0);
    BeginStep(ops, database, rows, token, early);
    var s1 := Next(ops, database, Start(rows), begin);
    CreatedAfter(ops, database, s1, token, p, fields, early, middle);
    var s2 := Run(ops, database, s1, before);
    ReachesOn(ops, database, Start(rows), [begin], s1, before, s2);
    AnsweredAgain(ops, database, s2, token, p, fields, middle, late);
    var again := Answering(GetDocument, token, p, row, []) + [Serve([], [Write(Delete, Some(p), None, [], None)], middle, 0)];
    ReachesOn(ops, database, Start(rows), [begin] + before, s2, again, Run(ops, database, s2, again));
  }
}
