/** Every interleaving of reads, plain writes, rollbacks and commits on one
    instance and one database. */
module TransactionRuns {
  import opened Bytes
  import opened Bits
  import opened Results
  import opened Errors
  import opened Values
  import opened Fields
  import opened Transforms
  import opened Commits
  import opened CommitTheorems
  import opened Transactions

  /** A document fetched for a transaction; it is recorded later, if at all. */
  datatype Fetched = Fetched(token: Token, path: Utf8, row: Option<StoredRow>)

  /** The stored state, and what the proofs remember of the past: the tokens
      handed out, the rows each transaction first recorded, every row a commit
      ever left, and every commit time used. */
  datatype State = State(
    rows: Table,
    active: Active,
    fetched: set<Fetched>,
    issued: set<Token>,
    seen: map<Token, map<Utf8, Option<StoredRow>>>,
    versions: map<(Utf8, i64), StoredRow>,
    times: set<i64>)

  datatype Step =
    | Begin(token: Token, readOnly: bool, clock: int)
    | Fetch(token: Token, path: Utf8)
    | Record(fetched: Fetched)
    | Rollback(token: Token)
    | Serve(token: Token, writes: seq<Write>, now: i64, clock: int)

  /** Tokens are new, only fetched documents are recorded, and no two commits
      share a time. */
  predicate Enabled(s: State, step: Step) {
    match step
    case Begin(token, _, _) => token != [] && token !in s.issued
    case Record(f) => f in s.fetched
    case Serve(_, _, now, _) => now > 0 && now !in s.times
    case _ => true
  }

  function Remember(s: State, f: Fetched): map<Token, map<Utf8, Option<StoredRow>>> {
    if f.token !in s.active || f.path in s.active[f.token].readVersions || f.token !in s.seen then s.seen
    else s.seen[f.token := s.seen[f.token][f.path := f.row]]
  }

  /** The rows a commit leaves at its own time. */
  function NewVersions(rows: Table, now: i64): map<(Utf8, i64), StoredRow> {
    map p | p in rows && rows[p].updateTime == now :: (p, now) := rows[p]
  }

  function Served(ops: FloatOps, database: Utf8, s: State, token: Token, writes: seq<Write>, now: i64, clock: int)
    : Result<Applied, EngineError>
  {
    CommitRequest(ops, s.active, s.rows, database, token, writes, now, clock)
  }

  function Next(ops: FloatOps, database: Utf8, s: State, step: Step): State {
    match step
    case Begin(token, readOnly, clock) =>
      s.(active := Begun(s.active, token, database, readOnly, clock),
         issued := s.issued + {token},
         seen := s.seen[token := map[]])
    case Fetch(token, path) => s.(fetched := s.fetched + {Fetched(token, path, Find(s.rows, path))})
    case Record(f) =>
      s.(active := Recorded(s.active, f.token, f.path, VersionOf(f.row)), seen := Remember(s, f))
    case Rollback(token) => s.(active := s.active - {token})
    case Serve(token, writes, now, clock) =>
      var r := Served(ops, database, s, token, writes, now, clock);
      var active := if token == [] then s.active else s.active - {token};
      if r.Err? then s.(active := active, times := s.times + {now})
      else
        s.(rows := r.value.table, active := active, times := s.times + {now},
           versions := s.versions + NewVersions(r.value.table, now))
  }

  predicate Legal(ops: FloatOps, database: Utf8, s: State, steps: seq<Step>)
    decreases |steps|
  {
    steps == [] || (Enabled(s, steps[0]) && Legal(ops, database, Next(ops, database, s, steps[0]), steps[1..]))
  }

  function Run(ops: FloatOps, database: Utf8, s: State, steps: seq<Step>): State
    decreases |steps|
  {
    if steps == [] then s else Run(ops, database, Next(ops, database, s, steps[0]), steps[1..])
  }

  predicate Positive(rows: Table) {
    forall p :: p in rows ==> rows[p].updateTime > 0
  }

  function Start(rows: Table): State {
    State(rows, map[], {}, {}, map[],
          map p | p in rows :: (p, rows[p].updateTime) := rows[p],
          set p | p in rows :: rows[p].updateTime)
  }

  // ---- the invariant ----

  /** A path and a version name one row for good. */
  predicate Known(s: State, path: Utf8, row: Option<StoredRow>) {
    row.Some? ==>
      var key := (path, row.value.updateTime);
      row.value.updateTime > 0 && key in s.versions && s.versions[key] == row.value
  }

  ghost predicate VersionsNamed(s: State) {
    && (forall t :: t in s.times ==> t > 0)
    && (forall k :: k in s.versions ==> k.1 in s.times)
    && (forall p :: Known(s, p, Find(s.rows, p)))
    && (forall f :: f in s.fetched ==> Known(s, f.path, f.row))
  }

  /** A transaction's records are the versions of the rows it first saw. */
  ghost predicate Remembers(s: State, token: Token) {
    && token in s.active && token in s.seen
    && s.active[token].readVersions.Keys == s.seen[token].Keys
    && forall p :: p in s.seen[token] ==>
         s.active[token].readVersions[p] == VersionOf(s.seen[token][p]) && Known(s, p, s.seen[token][p])
  }

  ghost predicate Invariant(s: State) {
    && VersionsNamed(s)
    && (forall t :: t in s.active ==> t in s.issued && Remembers(s, t))
  }

  lemma StartInvariant(rows: Table)
    requires Positive(rows)
    ensures Invariant(Start(rows))
  {
    var s := Start(rows);
    forall k | k in s.versions
      ensures k.1 in s.times
    {
      var p :| p in rows && (p, rows[p].updateTime) == k;
      assert rows[p].updateTime in s.times;
    }
    forall p
      ensures Known(s, p, Find(rows, p))
    {
      StartKnows(rows, p);
    }
  }

  lemma StartKnows(rows: Table, p: Utf8)
    requires Positive(rows)
    ensures Known(Start(rows), p, Find(rows, p))
  {
    if p in rows {
      var key := (p, rows[p].updateTime);
      assert key in Start(rows).versions;
      assert Start(rows).versions[key] == rows[p];
    }
  }

  /** What a commit stores carries its own time, and the rest is as before. */
  lemma CommitStamps(ops: FloatOps, table: Table, writes: seq<Write>, now: i64, p: Utf8)
    requires Commit(ops, table, writes, now).Ok?
    ensures
      var final := Commit(ops, table, writes, now).value.table;
      Find(final, p) == Find(table, p) || Find(final, p).None? || Find(final, p).value.updateTime == now
  {
    var states := ApplyAll(ops, Batch(Loaded(table, writes), []), writes, now).value.states;
    PersistFinds(Persisted(table, []), states, writes, now, p);
  }

  lemma VersionsGrow(s: State, t: State, now: i64)
    requires VersionsNamed(s) && now !in s.times && now > 0
    requires t.versions == s.versions + NewVersions(t.rows, now) && t.times == s.times + {now} && t.fetched == s.fetched
    requires forall p :: Find(t.rows, p) == Find(s.rows, p) || Find(t.rows, p).None? || Find(t.rows, p).value.updateTime == now
    ensures VersionsNamed(t)
    ensures forall p, row :: Known(s, p, row) ==> Known(t, p, row)
  {
    forall p, row | Known(s, p, row)
      ensures Known(t, p, row)
    {
      if row.Some? {
        var key := (p, row.value.updateTime);
        assert key in s.versions && key.1 in s.times;
        assert key !in NewVersions(t.rows, now);
      }
    }
    forall p
      ensures Known(t, p, Find(t.rows, p))
    {
      if Find(t.rows, p) == Find(s.rows, p) {
        assert Known(s, p, Find(s.rows, p));
      } else if p in t.rows {
        assert (p, now) in NewVersions(t.rows, now);
      }
    }
  }

  lemma ServeInvariant(ops: FloatOps, database: Utf8, s: State, token: Token, writes: seq<Write>, now: i64, clock: int)
    requires Invariant(s) && Enabled(s, Serve(token, writes, now, clock))
    ensures Invariant(Next(ops, database, s, Serve(token, writes, now, clock)))
  {
    var t := Next(ops, database, s, Serve(token, writes, now, clock));
    var r := Served(ops, database, s, token, writes, now, clock);
    if r.Ok? {
      forall p {
        CommitStamps(ops, s.rows, writes, now, p);
      }
      VersionsGrow(s, t, now);
    }
    forall k | k in t.active
      ensures Remembers(t, k)
    {
      assert Remembers(s, k);
    }
  }

  lemma RecordInvariant(ops: FloatOps, database: Utf8, s: State, f: Fetched)
    requires Invariant(s) && Enabled(s, Record(f))
    ensures Invariant(Next(ops, database, s, Record(f)))
  {
    var t := Next(ops, database, s, Record(f));
    forall k | k in t.active
      ensures Remembers(t, k)
    {
      assert Remembers(s, k);
      if k == f.token && f.path !in s.active[k].readVersions {
        assert t.seen[k] == s.seen[k][f.path := f.row];
      }
    }
  }

  lemma BeginInvariant(ops: FloatOps, database: Utf8, s: State, token: Token, readOnly: bool, clock: int)
    requires Invariant(s) && Enabled(s, Begin(token, readOnly, clock))
    ensures Invariant(Next(ops, database, s, Begin(token, readOnly, clock)))
  {
    var t := Next(ops, database, s, Begin(token, readOnly, clock));
    forall k | k in t.active
      ensures k in t.issued && Remembers(t, k)
    {
      if k != token {
        assert Remembers(s, k);
      }
    }
  }

  lemma FetchInvariant(ops: FloatOps, database: Utf8, s: State, token: Token, path: Utf8)
    requires Invariant(s)
    ensures Invariant(Next(ops, database, s, Fetch(token, path)))
  {
    var t := Next(ops, database, s, Fetch(token, path));
    assert Known(s, path, Find(s.rows, path));
    forall k | k in t.active
      ensures Remembers(t, k)
    {
      assert Remembers(s, k);
    }
  }

  lemma RollbackInvariant(ops: FloatOps, database: Utf8, s: State, token: Token)
    requires Invariant(s)
    ensures Invariant(Next(ops, database, s, Rollback(token)))
  {
    var t := Next(ops, database, s, Rollback(token));
    forall k | k in t.active
      ensures Remembers(t, k)
    {
      assert Remembers(s, k);
    }
  }

  lemma StepInvariant(ops: FloatOps, database: Utf8, s: State, step: Step)
    requires Invariant(s) && Enabled(s, step)
    ensures Invariant(Next(ops, database, s, step))
  {
    match step
    case Serve(token, writes, now, clock) => ServeInvariant(ops, database, s, token, writes, now, clock);
    case Record(f) => RecordInvariant(ops, database, s, f);
    case Begin(token, readOnly, clock) => BeginInvariant(ops, database, s, token, readOnly, clock);
    case Fetch(token, path) => FetchInvariant(ops, database, s, token, path);
    case Rollback(token) => RollbackInvariant(ops, database, s, token);
  }

  lemma {:induction false} RunInvariant(ops: FloatOps, database: Utf8, s: State, steps: seq<Step>)
    requires Invariant(s) && Legal(ops, database, s, steps)
    ensures Invariant(Run(ops, database, s, steps))
    decreases |steps|
  {
    if steps != [] {
      StepInvariant(ops, database, s, steps[0]);
      RunInvariant(ops, database, Next(ops, database, s, steps[0]), steps[1..]);
    }
  }

  // ---- no stale commit ----

  /** In a reachable state, a commit that carries a transaction and succeeds
      runs on documents exactly as the transaction first saw them: same rows,
      absent where it saw none. */
  lemma ReadsAreCurrent(ops: FloatOps, database: Utf8, s: State, token: Token, writes: seq<Write>, now: i64, clock: int)
    requires Invariant(s) && token != [] && Served(ops, database, s, token, writes, now, clock).Ok?
    ensures token in s.seen && forall p :: p in s.seen[token] ==> Find(s.rows, p) == s.seen[token][p]
  {
    assert Remembers(s, token);
    forall p | p in s.seen[token]
      ensures Find(s.rows, p) == s.seen[token][p]
    {
      assert Known(s, p, Find(s.rows, p)) && Known(s, p, s.seen[token][p]);
      assert VersionOf(Find(s.rows, p)) == VersionOf(s.seen[token][p]);
    }
  }

  /** Over every run from every stored state. */
  lemma NoStaleCommit(ops: FloatOps, database: Utf8, rows: Table, steps: seq<Step>,
                      token: Token, writes: seq<Write>, now: i64, clock: int)
    requires Positive(rows) && Legal(ops, database, Start(rows), steps)
    requires var s := Run(ops, database, Start(rows), steps);
      token != [] && Served(ops, database, s, token, writes, now, clock).Ok?
    ensures
      var s := Run(ops, database, Start(rows), steps);
      token in s.seen && forall p :: p in s.seen[token] ==> Find(s.rows, p) == s.seen[token][p]
  {
    StartInvariant(rows);
    RunInvariant(ops, database, Start(rows), steps);
    ReadsAreCurrent(ops, database, Run(ops, database, Start(rows), steps), token, writes, now, clock);
  }

  // ---- no lost update ----

  /** What a transaction writes, given the documents it read. */
  type Body = (Token, map<Utf8, Option<StoredRow>>) -> seq<Write>

  function ReadAt(rows: Table, paths: set<Utf8>): map<Utf8, Option<StoredRow>> {
    map p | p in paths :: Find(rows, p)
  }

  /** A commit that carries a transaction writes what its body makes of the
      documents it recorded, when it first recorded them. */
  predicate Disciplined(s: State, body: Body, step: Step) {
    step.Serve? && step.token in s.seen && step.token != [] ==> step.writes == body(step.token, s.seen[step.token])
  }

  predicate AllDisciplined(ops: FloatOps, database: Utf8, s: State, body: Body, steps: seq<Step>)
    decreases |steps|
  {
    steps == []
    || (Disciplined(s, body, steps[0]) && AllDisciplined(ops, database, Next(ops, database, s, steps[0]), body, steps[1..]))
  }

  predicate Lands(ops: FloatOps, database: Utf8, s: State, step: Step) {
    step.Serve? && Served(ops, database, s, step.token, step.writes, step.now, step.clock).Ok?
  }

  /** The writes of a landing commit when its reads are made at that moment:
      the body runs on the given rows, at the paths of the read set. */
  function SerialWrites(s: State, body: Body, step: Step, rows: Table): seq<Write>
    requires step.Serve?
  {
    if step.token in s.seen && step.token != [] then body(step.token, ReadAt(rows, s.seen[step.token].Keys))
    else step.writes
  }

  /** The landing commits one after another, each reading and writing at once,
      with nothing between. */
  function Serial(ops: FloatOps, database: Utf8, s: State, body: Body, steps: seq<Step>, rows: Table): Table
    decreases |steps|
  {
    if steps == [] then rows
    else
      var step := steps[0];
      var next :=
        if !Lands(ops, database, s, step) then rows
        else
          var r := Commit(ops, rows, SerialWrites(s, body, step, rows), step.now);
          if r.Ok? then r.value.table else rows;
      Serial(ops, database, Next(ops, database, s, step), body, steps[1..], next)
  }

  lemma ReadSetIsNow(ops: FloatOps, database: Utf8, s: State, body: Body, step: Step)
    requires Invariant(s) && Lands(ops, database, s, step) && Disciplined(s, body, step)
    ensures SerialWrites(s, body, step, s.rows) == step.writes
  {
    if step.token in s.seen && step.token != [] {
      ReadsAreCurrent(ops, database, s, step.token, step.writes, step.now, step.clock);
      assert ReadAt(s.rows, s.seen[step.token].Keys) == s.seen[step.token];
    }
  }

  /** Concurrent read-modify-write transactions lose no update: whatever the
      bodies write (whole documents, masks, transforms, several documents),
      the rows end as if each committed transaction had read and written at
      the moment of its commit, plain commits among them. */
  lemma {:induction false} NoLostUpdate(ops: FloatOps, database: Utf8, s: State, body: Body, steps: seq<Step>)
    requires Invariant(s) && Legal(ops, database, s, steps) && AllDisciplined(ops, database, s, body, steps)
    ensures Run(ops, database, s, steps).rows == Serial(ops, database, s, body, steps, s.rows)
    decreases |steps|
  {
    if steps != [] {
      if Lands(ops, database, s, steps[0]) {
        ReadSetIsNow(ops, database, s, body, steps[0]);
      }
      StepInvariant(ops, database, s, steps[0]);
      NoLostUpdate(ops, database, Next(ops, database, s, steps[0]), body, steps[1..]);
    }
  }
}
