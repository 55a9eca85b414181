/**
 * utils/db.py `get_mongo_client` and `get_db_connection`: up to three
 * connect-and-ping attempts, sleeping 2 s and then 4 s between attempts that
 * fail with a connection error. What each attempt does is given as a
 * sequence of outcomes; the sleeps are returned instead of slept.
 */
module Connection {
  import opened Options

  /** How one connect-and-ping attempt ends. */
  datatype Attempt =
    | Pinged(client: nat)     // the ping succeeded; the client is returned
    | ConnectionFailed        // ConnectionFailure or ServerSelectionTimeoutError
    | OtherError              // any other exception

  const MaxRetries := 3
  const RetryDelay := 2
  const DbName := "film-users"

  /** The client obtained (if any), the delays slept, in seconds, and the number of attempts made. */
  datatype ClientOutcome = ClientOutcome(client: Option<nat>, sleeps: seq<nat>, attemptsMade: nat)

  function Pow2(k: nat): nat {
    if k == 0 then 1 else 2 * Pow2(k - 1)
  }

  /** Attempt number `attempt` (1-based) onward, `delay` being the next sleep. */
  function ConnectFrom(attempts: seq<Attempt>, attempt: nat, delay: nat): (r: ClientOutcome)
    requires |attempts| >= MaxRetries && 1 <= attempt <= MaxRetries
    ensures attempt <= r.attemptsMade <= MaxRetries
    ensures |r.sleeps| == r.attemptsMade - attempt
    ensures forall k :: 0 <= k < |r.sleeps| ==> r.sleeps[k] == delay * Pow2(k)
    ensures forall k :: attempt - 1 <= k < r.attemptsMade - 1 ==> attempts[k].ConnectionFailed?
    ensures r.attemptsMade < MaxRetries ==> !attempts[r.attemptsMade - 1].ConnectionFailed?
    ensures r.client.Some? <==> attempts[r.attemptsMade - 1].Pinged?
    ensures r.client.Some? ==> r.client.value == attempts[r.attemptsMade - 1].client
    decreases MaxRetries - attempt
  {
    match attempts[attempt - 1]
    case Pinged(c) => ClientOutcome(Some(c), [], attempt)
    case OtherError => ClientOutcome(None, [], attempt)
    case ConnectionFailed =>
      if attempt < MaxRetries then
        var rest := ConnectFrom(attempts, attempt + 1, delay * 2);
        assert forall k :: 0 <= k < |rest.sleeps| ==> rest.sleeps[k] == delay * Pow2(k + 1);
        ClientOutcome(rest.client, [delay] + rest.sleeps, rest.attemptsMade)
      else
        ClientOutcome(None, [], attempt)
  }

  /**
   * `get_mongo_client()`. At most three attempts; every attempt but the last
   * one made failed with a connection error; the sleeps are 2, 4, ... one
   * fewer than the attempts; a client is returned exactly when the last
   * attempt made pinged successfully.
   */
  function GetMongoClient(attempts: seq<Attempt>): (r: ClientOutcome)
    requires |attempts| >= MaxRetries
    ensures 1 <= r.attemptsMade <= MaxRetries
    ensures |r.sleeps| == r.attemptsMade - 1
    ensures forall k :: 0 <= k < |r.sleeps| ==> r.sleeps[k] == RetryDelay * Pow2(k)
    ensures forall k :: 0 <= k < r.attemptsMade - 1 ==> attempts[k].ConnectionFailed?
    ensures r.attemptsMade < MaxRetries ==> !attempts[r.attemptsMade - 1].ConnectionFailed?
    ensures r.client.Some? <==> attempts[r.attemptsMade - 1].Pinged?
    ensures r.client.Some? ==> r.client.value == attempts[r.attemptsMade - 1].client
  {
    ConnectFrom(attempts, 1, RetryDelay)
  }

  /** The first successful ping wins: later outcomes are never consulted. */
  lemma FirstPingWins(attempts: seq<Attempt>, i: nat)
    requires |attempts| >= MaxRetries && i < MaxRetries && attempts[i].Pinged?
    requires forall k :: 0 <= k < i ==> attempts[k].ConnectionFailed?
    ensures GetMongoClient(attempts) == ClientOutcome(Some(attempts[i].client), GetMongoClient(attempts).sleeps, i + 1)
  {
  }

  /** Three connection errors: no client, after sleeping 2 s and 4 s and no more. */
  lemma ThreeConnectionErrors(attempts: seq<Attempt>)
    requires |attempts| >= MaxRetries
    requires attempts[0].ConnectionFailed? && attempts[1].ConnectionFailed? && attempts[2].ConnectionFailed?
    ensures GetMongoClient(attempts) == ClientOutcome(None, [2, 4], 3)
  {
    var r := GetMongoClient(attempts);
    assert r.sleeps[0] == 2 && r.sleeps[1] == 2 * Pow2(1);
  }

  /** Any other error aborts at once: no client and no further attempt. */
  lemma OtherErrorAborts(attempts: seq<Attempt>, i: nat)
    requires |attempts| >= MaxRetries && i < MaxRetries && attempts[i].OtherError?
    requires forall k :: 0 <= k < i ==> attempts[k].ConnectionFailed?
    ensures GetMongoClient(attempts).client.None?
    ensures GetMongoClient(attempts).attemptsMade == i + 1
  {
  }

  /** Only the first three outcomes matter. */
  lemma OnlyThreeAttempts(a: seq<Attempt>, b: seq<Attempt>)
    requires |a| >= MaxRetries && |b| >= MaxRetries && a[..MaxRetries] == b[..MaxRetries]
    ensures GetMongoClient(a) == GetMongoClient(b)
  {
    assert a[0] == b[0] && a[1] == b[1] && a[2] == b[2] by {
      assert a[0] == a[..MaxRetries][0] && a[1] == a[..MaxRetries][1] && a[2] == a[..MaxRetries][2];
      assert b[0] == b[..MaxRetries][0] && b[1] == b[..MaxRetries][1] && b[2] == b[..MaxRetries][2];
    }
  }

  /** What `get_db_connection` returns: `(None, None)`, or the client and the `film-users` database. */
  datatype DbConnection = NoConnection | Connected(client: nat, dbName: string)

  function GetDbConnection(attempts: seq<Attempt>): (r: DbConnection)
    requires |attempts| >= MaxRetries
    ensures r.NoConnection? <==> GetMongoClient(attempts).client.None?
    ensures r.Connected? ==> r.client == GetMongoClient(attempts).client.value && r.dbName == DbName
  {
    match GetMongoClient(attempts).client
    case None => NoConnection
    case Some(c) => Connected(c, DbName)
  }

  /** A database is obtained exactly when some attempt pings after only connection errors before it. */
  lemma ConnectedIffEarlyPing(attempts: seq<Attempt>)
    requires |attempts| >= MaxRetries
    ensures GetDbConnection(attempts).Connected? <==>
      exists i :: 0 <= i < MaxRetries && attempts[i].Pinged? && forall k :: 0 <= k < i ==> attempts[k].ConnectionFailed?
  {
    var r := GetMongoClient(attempts);
    if r.client.Some? {
      assert attempts[r.attemptsMade - 1].Pinged?;
    }
    if exists i :: 0 <= i < MaxRetries && attempts[i].Pinged? && forall k :: 0 <= k < i ==> attempts[k].ConnectionFailed? {
      var i :| 0 <= i < MaxRetries && attempts[i].Pinged? && forall k :: 0 <= k < i ==> attempts[k].ConnectionFailed?;
      FirstPingWins(attempts, i);
    }
  }
}
