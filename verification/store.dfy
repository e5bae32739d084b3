/** The `ZipCodes` table seen through the three queries the lookup layer sends.

    The table is a sequence of rows. A query is one of the SQL constants
    `ZIP_QUERY`, `ZIP_RANGE_QUERY`, `ZIP_FIND_QUERY` together with its `?`
    parameters, and stands for its WHERE clause; executing it keeps, in
    table order, the rows that clause accepts.

    `LIKE` is left abstract: a `Like` is any pattern/value predicate, and the
    only thing assumed of it, where needed, is that the pattern `%` matches
    every string.
 */
module Store {
  import opened Records

  type Table = seq<Row>

  /** `value LIKE pattern`, as a (pattern, value) predicate. */
  type Like = (string, string) -> bool

  const Wildcard: string := "%"

  ghost predicate WildcardMatchesAll(like: Like) {
    forall s :: like(Wildcard, s)
  }

  /** One query as sent: which of the three SQL constants, with its `?`
      parameters in placeholder order. */
  datatype Query =
    | ZipQuery(zip: string)
    | ZipRangeQuery(lonMin: real, lonMax: real, latMin: real, latMax: real)
    | ZipFindQuery(city: string, state: string)

  /** The WHERE clause of each query, on one row. The range is inclusive at
      both ends (`>=` and `<=`); a row matches a find query when both its
      city and its state are LIKE their patterns. */
  predicate Matches(q: Query, like: Like, row: Row) {
    match q
    case ZipQuery(z) => row.0 == z
    case ZipRangeQuery(lonMin, lonMax, latMin, latMax) =>
      lonMin <= row.3 <= lonMax && latMin <= row.4 <= latMax
    case ZipFindQuery(c, s) => like(c, row.1) && like(s, row.2)
  }

  /** `cursor.execute(sql, params)` then `fetchall()`: the matching rows, in
      table order, each as often as it occurs in the table. */
  function Execute(table: Table, like: Like, q: Query): (rows: seq<Row>)
    ensures |rows| <= |table|
    ensures forall r :: r in rows ==> r in table && Matches(q, like, r)
    ensures forall r :: r in table && Matches(q, like, r) ==> r in rows
    ensures forall r :: multiset(rows)[r] == if Matches(q, like, r) then multiset(table)[r] else 0
  {
    if table == [] then []
    else
      assert table == [table[0]] + table[1..];
      (if Matches(q, like, table[0]) then [table[0]] else []) + Execute(table[1..], like, q)
  }

  /** A query that accepts every row returns the whole table, in order. */
  lemma {:induction false} ExecuteAll(table: Table, like: Like, q: Query)
    requires forall r :: r in table ==> Matches(q, like, r)
    ensures Execute(table, like, q) == table
  {
    if table != [] {
      ExecuteAll(table[1..], like, q);
    }
  }

  /** If every row `q1` accepts is accepted by `q2`, then `q2` returns at least
      the rows `q1` returns, with at least the same multiplicity. */
  lemma {:induction false} ExecuteMonotone(table: Table, like: Like, q1: Query, q2: Query)
    requires forall r :: r in table && Matches(q1, like, r) ==> Matches(q2, like, r)
    ensures multiset(Execute(table, like, q1)) <= multiset(Execute(table, like, q2))
    ensures |Execute(table, like, q1)| <= |Execute(table, like, q2)|
  {
    if table != [] {
      var h, t := table[0], table[1..];
      ExecuteMonotone(t, like, q1, q2);
      assert Execute(table, like, q1) == (if Matches(q1, like, h) then [h] else []) + Execute(t, like, q1);
      assert Execute(table, like, q2) == (if Matches(q2, like, h) then [h] else []) + Execute(t, like, q2);
    }
  }

  /** Row i is the first row of the table that the query accepts. */
  ghost predicate FirstMatchAt(table: Table, like: Like, q: Query, i: int) {
    && 0 <= i < |table|
    && Matches(q, like, table[i])
    && forall j :: 0 <= j < i ==> !Matches(q, like, table[j])
  }

  /** The first row returned is the first row of the table the query accepts. */
  lemma {:induction false} ExecuteHead(table: Table, like: Like, q: Query)
    requires Execute(table, like, q) != []
    ensures exists i :: FirstMatchAt(table, like, q, i) && table[i] == Execute(table, like, q)[0]
  {
    if !Matches(q, like, table[0]) {
      var t := table[1..];
      ExecuteHead(t, like, q);
      var i :| FirstMatchAt(t, like, q, i) && t[i] == Execute(t, like, q)[0];
      assert table[i + 1] == Execute(table, like, q)[0];
      forall j | 0 <= j < i + 1
        ensures !Matches(q, like, table[j])
      {
        if j > 0 {
          assert table[j] == t[j - 1];
        }
      }
      assert FirstMatchAt(table, like, q, i + 1);
    } else {
      assert FirstMatchAt(table, like, q, 0);
    }
  }
}
