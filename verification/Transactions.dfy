/** Optimistic transactions: reads record the version they saw, and a commit
    re-checks every record under the commit lock. */
module Transactions {
  import opened Bytes
  import opened Bits
  import opened Results
  import opened Errors
  import opened Values
  import opened IndexKey
  import opened Transforms
  import opened Commits
  import opened Committing

  type Token = seq<byte>

  /** How long a transaction lives, in the clock's nanoseconds. */
  const LIFETIME: nat := 60_000_000_000

  /** Paths are relative to the transaction's database; version 0 is a
      document observed missing. */
  datatype TxnState = TxnState(database: Utf8, readOnly: bool, readVersions: map<Utf8, i64>, expiresAt: int)

  type Active = map<Token, TxnState>

  function VersionOf(row: Option<StoredRow>): i64 {
    if row.Some? then row.value.updateTime else 0
  }

  // ---- the table of transactions ----

  function Unexpired(active: Active, clock: int): Active {
    map t | t in active && active[t].expiresAt > clock :: active[t]
  }

  function Begun(active: Active, token: Token, database: Utf8, readOnly: bool, clock: int): Active {
    Unexpired(active, clock)[token := TxnState(database, readOnly, map[], clock + LIFETIME)]
  }

  /** First observation wins. */
  function Recorded(active: Active, token: Token, path: Utf8, version: i64): Active {
    if token !in active || path in active[token].readVersions then active
    else
      var t := active[token];
      active[token := t.(readVersions := t.readVersions[path := version])]
  }

  /** What a commit gets for its token, which is gone from the table either way. */
  function Taken(active: Active, token: Token, database: Utf8, clock: int): Result<TxnState, EngineError> {
    if token !in active then Err(Aborted)
    else if active[token].expiresAt <= clock then Err(Aborted)
    else if active[token].database != database then Err(InvalidArgument)
    else Ok(active[token])
  }

  /** Every recorded version is still current. */
  predicate ReadSetHolds(readVersions: map<Utf8, i64>, rows: Table) {
    forall p :: p in readVersions ==> VersionOf(Find(rows, p)) == readVersions[p]
  }

  // ---- a commit request ----

  /** What may stop a commit before its writes run; no token, no check. */
  function Objection(active: Active, rows: Table, database: Utf8, token: Token, writes: seq<Write>, clock: int)
    : Option<EngineError>
  {
    if token == [] then None
    else
      match Taken(active, token, database, clock)
      case Err(e) => Some(e)
      case Ok(t) =>
        if t.readOnly && writes != [] then Some(InvalidArgument)
        else if !ReadSetHolds(t.readVersions, rows) then Some(Aborted)
        else None
  }

  function CommitRequest(ops: FloatOps, active: Active, rows: Table, database: Utf8, token: Token, writes: seq<Write>,
                         now: i64, clock: int): Result<Applied, EngineError>
  {
    var objection := Objection(active, rows, database, token, writes, clock);
    if objection.Some? then Err(objection.value) else Commit(ops, rows, writes, now)
  }

  class TransactionManager {
    var counter: nat
    var active: Active

    constructor ()
      ensures counter == 0 && active == map[]
    {
      counter := 0;
      active := map[];
    }

    /** Tokens begin with a count, so no two are alike within 2^64 begins. */
    method Begin(database: Utf8, readOnly: bool, clock: int, salt: nat) returns (token: Token)
      requires counter + 1 < 0x1_0000_0000_0000_0000
      modifies this
      ensures counter == old(counter) + 1
      ensures token == BigEndian(counter, 8) + BigEndian(salt, 8)
      ensures active == Begun(old(active), token, database, readOnly, clock)
    {
      counter := counter + 1;
      token := BigEndian(counter, 8) + BigEndian(salt, 8);
      active := map t | t in active && active[t].expiresAt > clock :: active[t];
      active := active[token := TxnState(database, readOnly, map[], clock + LIFETIME)];
    }

    method RecordRead(token: Token, path: Utf8, version: i64)
      modifies this`active
      ensures active == Recorded(old(active), token, path, version)
    {
      if token in active {
        var t := active[token];
        if path !in t.readVersions {
          active := active[token := t.(readVersions := t.readVersions[path := version])];
        }
      }
    }

    method Take(token: Token, database: Utf8, clock: int) returns (r: Result<TxnState, EngineError>)
      modifies this`active
      ensures r == Taken(old(active), token, database, clock)
      ensures active == old(active) - {token}
    {
      if token !in active {
        assert active - {token} == active;
        return Err(Aborted);
      }
      var t := active[token];
      active := active - {token};
      if t.expiresAt <= clock {
        return Err(Aborted);
      }
      if t.database != database {
        return Err(InvalidArgument);
      }
      return Ok(t);
    }

    method Rollback(token: Token)
      modifies this`active
      ensures active == old(active) - {token}
    {
      active := active - {token};
    }
  }

  method ValidateReadSet(rows: Database, t: TxnState) returns (error: Option<EngineError>)
    ensures error == if ReadSetHolds(t.readVersions, rows.rows) then None else Some(Aborted)
  {
    var waiting := t.readVersions.Keys;
    while waiting != {}
      invariant waiting <= t.readVersions.Keys
      invariant forall p :: p in t.readVersions && p !in waiting ==>
        VersionOf(Find(rows.rows, p)) == t.readVersions[p]
      decreases |waiting|
    {
      var p :| p in waiting;
      var row := rows.Get(p);
      if VersionOf(row) != t.readVersions[p] {
        return Some(Aborted);
      }
      waiting := waiting - {p};
    }
    return None;
  }

  /** The critical section of a commit: take, validate, apply. */
  method ServeCommit(ops: FloatOps, manager: TransactionManager, rows: Database, database: Utf8, token: Token,
                     writes: seq<Write>, now: i64, clock: int) returns (r: Result<Reply, EngineError>)
    modifies manager`active, rows
    ensures manager.active == if token == [] then old(manager.active) else old(manager.active) - {token}
    ensures match CommitRequest(ops, old(manager.active), old(rows.rows), database, token, writes, now, clock)
      case Ok(a) => r == Ok(Reply(a.outcomes, a.changes)) && rows.rows == a.table
      case Err(e) => r == Err(e) && rows.rows == old(rows.rows)
  {
    if token != [] {
      var t := manager.Take(token, database, clock);
      if t.Err? {
        return Err(t.error);
      }
      if t.value.readOnly && writes != [] {
        return Err(InvalidArgument);
      }
      var error := ValidateReadSet(rows, t.value);
      if error.Some? {
        return Err(error.value);
      }
    }
    r := rows.ApplyCommit(ops, writes, now);
  }

  lemma {:induction false} BigEndianDigits(n: nat, m: nat, width: nat)
    requires n < Pow256(width) && m < Pow256(width)
    requires BigEndian(n, width) == BigEndian(m, width)
    ensures n == m
  {
    if width > 0 {
      var x, y := BigEndian(n / 256, width - 1), BigEndian(m / 256, width - 1);
      assert BigEndian(n, width)[..width - 1] == x && BigEndian(m, width)[..width - 1] == y;
      assert BigEndian(n, width)[width - 1] == n % 256 && BigEndian(m, width)[width - 1] == m % 256;
      BigEndianDigits(n / 256, m / 256, width - 1);
    }
  }

  /** Two begins never hand out the same token, whatever the clock adds. */
  lemma TokensDiffer(n: nat, m: nat, salt: nat, other: nat)
    requires n < m < 0x1_0000_0000_0000_0000
    ensures BigEndian(n, 8) + BigEndian(salt, 8) != BigEndian(m, 8) + BigEndian(other, 8)
  {
    Pow256Values();
    var x, y := BigEndian(n, 8) + BigEndian(salt, 8), BigEndian(m, 8) + BigEndian(other, 8);
    assert x[..8] == BigEndian(n, 8) && y[..8] == BigEndian(m, 8);
    if x == y {
      BigEndianDigits(n, m, 8);
    }
  }
}
