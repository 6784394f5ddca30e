/** The store's predicate language, evaluated on a row's index columns. Every
    comparison is a string comparison, and a missing column fails it. */
module Predicates {
  import opened Orderings
  import opened Bytes
  import opened Results
  import opened Values
  import opened Mirror

  datatype Comparator = Lt | Le | Gt | Ge

  datatype Condition =
    | Is(key: Utf8)
    | OneOf(keys: seq<Utf8>)
    | Between(bounds: map<Comparator, Utf8>)

  /** A clause is a document: `$and`, `$or`, conditions by column (inserting
      a column twice keeps the last), or `$elemMatch` on the array entries. */
  datatype Clause =
    | And(clauses: seq<Clause>)
    | Or(clauses: seq<Clause>)
    | Where(conditions: map<Utf8, Condition>)
    | AnyElement(path: Utf8, condition: Condition)

  predicate Compares(s: Utf8, op: Comparator, bound: Utf8) {
    var c := LexCompare(s, bound);
    match op
    case Lt => c == Less
    case Le => c != Greater
    case Gt => c == Greater
    case Ge => c != Less
  }

  predicate Meets(s: Utf8, condition: Condition) {
    match condition
    case Is(key) => s == key
    case OneOf(keys) => s in keys
    case Between(bounds) => forall op :: op in bounds ==> Compares(s, op, bounds[op])
  }

  predicate ColumnMeets(row: Row, column: Utf8, condition: Condition) {
    Column(row, column).Some? && Meets(Column(row, column).value, condition)
  }

  predicate Matches(row: Row, clause: Clause) {
    match clause
    case And(clauses) => forall c :: c in clauses ==> Matches(row, c)
    case Or(clauses) => exists c :: c in clauses && Matches(row, c)
    case Where(conditions) => forall column :: column in conditions ==> ColumnMeets(row, column, conditions[column])
    case AnyElement(path, condition) => exists e :: e in row.elements && e.path == path && Meets(e.key, condition)
  }

  predicate MatchesAll(row: Row, clause: Option<Clause>) {
    clause.Some? ==> Matches(row, clause.value)
  }
}
