/** `ConnectionManager.query`: open the database with a bounded retry, run one
    query, fetch every row.

    Whether an attempt to open the database succeeds is outside the program's
    control, so it is an oracle: `connect(call, attempt)` is the outcome of
    attempt number `attempt` (from 0) during the `call`-th query an operation
    sends (also from 0). The 1 ms sleep between attempts is not modelled.
 */
module Connection {
  import opened Wrappers
  import opened Records
  import opened Store

  /** `retry_count <= 10` keeps the loop going, so at most 11 attempts. */
  const MaxRetries: nat := 10
  const MaxAttempts: nat := MaxRetries + 1

  type Attempts = nat -> bool

  /** What a query runs against: the database location named in the
      connection error, the table, the `LIKE` predicate, and the oracle. */
  datatype Manager = Manager(
    location: string,
    table: Table,
    like: Like,
    connect: (nat, nat) -> bool)

  /** All 11 attempts of the `call`-th query fail. */
  ghost predicate ConnectionFails(m: Manager, call: nat) {
    forall i :: 0 <= i < MaxAttempts ==> !m.connect(call, i)
  }

  /** The attempts of the `call`-th query. */
  function AttemptsOf(m: Manager, call: nat): Attempts {
    (attempt: nat) => m.connect(call, attempt)
  }

  /** The loop, read as a function from the current `retry_count`: the value
      of `retry_count` when a connection is obtained, or `None` when the
      retries run out. */
  function AcquireFrom(attempt: Attempts, retryCount: nat): (r: Option<nat>)
    requires retryCount <= MaxAttempts
    ensures r.Some? ==> retryCount <= r.value <= MaxRetries && attempt(r.value)
    ensures r.Some? ==> forall i :: retryCount <= i < r.value ==> !attempt(i)
    ensures r.None? ==> forall i :: retryCount <= i < MaxAttempts ==> !attempt(i)
    decreases MaxAttempts - retryCount
  {
    if retryCount > MaxRetries then None
    else if attempt(retryCount) then Some(retryCount)
    else AcquireFrom(attempt, retryCount + 1)
  }

  /** The retry loop started at `retry_count = 0`: `Some(k)` when the first
      success is attempt k (k <= 10), `None` when all 11 attempts fail. */
  function Acquire(attempt: Attempts): (r: Option<nat>)
    ensures r.None? <==> forall i :: 0 <= i < MaxAttempts ==> !attempt(i)
    ensures r.Some? ==> r.value < MaxAttempts && attempt(r.value)
    ensures r.Some? ==> forall i :: 0 <= i < r.value ==> !attempt(i)
  {
    AcquireFrom(attempt, 0)
  }

  /** The retry loop itself. `attempts` counts the calls to connect. */
  method ConnectWithRetry(attempt: Attempts) returns (connected: bool, retryCount: nat, attempts: nat)
    ensures attempts <= MaxAttempts
    ensures attempts == retryCount + (if connected then 1 else 0)
    ensures connected ==> attempt(retryCount) && forall i :: 0 <= i < retryCount ==> !attempt(i)
    ensures !connected <==> retryCount == MaxAttempts
    ensures !connected <==> forall i :: 0 <= i < MaxAttempts ==> !attempt(i)
    ensures connected <==> Acquire(attempt) == Some(retryCount)
  {
    connected := false;
    retryCount := 0;
    attempts := 0;
    while !connected && retryCount <= MaxRetries
      invariant retryCount <= MaxAttempts
      invariant attempts == retryCount + (if connected then 1 else 0)
      invariant forall i :: 0 <= i < retryCount ==> !attempt(i)
      invariant connected ==> retryCount <= MaxRetries && attempt(retryCount)
      decreases MaxAttempts - retryCount, if connected then 0 else 1
    {
      attempts := attempts + 1;
      if attempt(retryCount) {
        connected := true;
      } else {
        retryCount := retryCount + 1;
      }
    }
  }

  /** `ConnectionManager.query(sql, params)` as a value: the rows the query
      selects, or the "can't connect" error when all 11 attempts fail. */
  function RunQuery(m: Manager, call: nat, q: Query): (r: Result<seq<Row>>)
    ensures r.Err? <==> ConnectionFails(m, call)
    ensures r.Err? ==> r.error == CantConnect(m.location)
    ensures r.Ok? ==> forall row :: row in r.value <==> row in m.table && Matches(q, m.like, row)
    ensures r.Ok? ==> r.value == Execute(m.table, m.like, q)
  {
    var attempt := AttemptsOf(m, call);
    assert forall i :: attempt(i) == m.connect(call, i);
    match Acquire(attempt)
    case None => Err(CantConnect(m.location))
    case Some(_) => Ok(Execute(m.table, m.like, q))
  }

  /** `ConnectionManager.query`, loop and all: after the loop, the error is
      raised when no connection was obtained, otherwise the query runs. */
  method Query(m: Manager, call: nat, q: Query) returns (r: Result<seq<Row>>)
    ensures r == RunQuery(m, call, q)
  {
    var connected, retryCount, attempts := ConnectWithRetry(AttemptsOf(m, call));
    if !connected && retryCount > MaxRetries {
      r := Err(CantConnect(m.location));
      return;
    }
    r := Ok(Execute(m.table, m.like, q));
  }
}
