/**
 * The decisions of the serverless entry point: the CORS allow-list and its
 * origin callback, the cached database connection, and the health report.
 * The driver's connect call is a parameter (its outcome).
 */
module ServerEntry {
  import opened Wrappers
  import opened Strings

  const Wildcard := "*"
  const CorsRejection := "Not allowed by CORS"
  const MissingUri := "MongoDB connection string is missing"

  /** The `CORS_ORIGIN` comma list with each entry trimmed, or just the wildcard when unset. */
  function AllowedOrigins(corsOrigin: Option<string>): (r: seq<string>)
    ensures corsOrigin.None? ==> r == [Wildcard]
    ensures corsOrigin.Some? ==> |r| == |Split(corsOrigin.value, ',')|
    ensures corsOrigin.Some? ==> forall i :: 0 <= i < |r| ==> r[i] == Trim(Split(corsOrigin.value, ',')[i])
    ensures forall i :: 0 <= i < |r| ==> IsTrimmed(r[i]) && ',' !in r[i]
  {
    match corsOrigin
    case None => [Wildcard]
    case Some(list) =>
      var pieces := Split(list, ',');
      var r := seq(|pieces|, i requires 0 <= i < |pieces| => Trim(pieces[i]));
      assert forall i :: 0 <= i < |r| ==> IsTrimmed(r[i]) && ',' !in r[i] by {
        forall i | 0 <= i < |r|
          ensures IsTrimmed(r[i]) && ',' !in r[i]
        {
          TrimIsTrimmed(pieces[i]);
        }
      }
      r
  }

  /** A list written with spaces around its commas yields exactly the trimmed entries. */
  lemma AllowedOriginsOfList(entries: seq<string>)
    requires |entries| >= 1
    requires forall i :: 0 <= i < |entries| ==> ',' !in entries[i]
    ensures var r := AllowedOrigins(Some(Join(entries, ',')));
      |r| == |entries| && forall i :: 0 <= i < |r| ==> r[i] == Trim(entries[i])
  {
    SplitJoin(entries, ',');
  }

  /** The origin callback: the wildcard, a request with no origin, or an exact entry is let through. */
  function CorsDecision(allowed: seq<string>, origin: Option<string>): (r: Result<bool, string>)
    ensures r.Success? <==> Wildcard in allowed || origin.None? || origin.value == "" || origin.value in allowed
    ensures r.Success? ==> r.value
    ensures r.Failure? ==> r.error == CorsRejection
  {
    if Wildcard in allowed || origin.None? || origin.value == "" || origin.value in allowed then Success(true)
    else Failure(CorsRejection)
  }

  /** Without `CORS_ORIGIN` every origin is let through; with a list, a non-empty origin only if listed. */
  lemma CorsPolicy(corsOrigin: Option<string>, origin: string)
    ensures corsOrigin.None? ==> CorsDecision(AllowedOrigins(corsOrigin), Some(origin)).Success?
    ensures corsOrigin.Some? && Wildcard !in AllowedOrigins(corsOrigin) && origin != "" ==>
      (CorsDecision(AllowedOrigins(corsOrigin), Some(origin)).Success? <==>
       exists i :: 0 <= i < |Split(corsOrigin.value, ',')| && Trim(Split(corsOrigin.value, ',')[i]) == origin)
  {
    if corsOrigin.Some? {
      var r := AllowedOrigins(corsOrigin);
      if origin in r {
        var i :| 0 <= i < |r| && r[i] == origin;
        assert Trim(Split(corsOrigin.value, ',')[i]) == origin;
      }
    }
  }

  /** `GET /api/health`: the database is reported connected exactly in ready state 1. */
  function HealthDb(readyState: int): (r: string)
    ensures r == "connected" <==> readyState == 1
    ensures r == "disconnected" <==> readyState != 1
  {
    if readyState == 1 then "connected" else "disconnected"
  }

  /** The driver's connection object. */
  datatype Connection = Connection(host: string)

  /** The module-level cache over mongoose's single connection. */
  class Connector {
    /** `cachedConnection`. */
    var cached: Option<Connection>
    /** `mongoose.connection.readyState`: 0 disconnected, 1 connected, 2 connecting, 3 disconnecting. */
    var readyState: nat
    /** `mongoose.connection`. */
    var connection: Connection
    /** How many times `mongoose.connect` has been called. */
    var attempts: nat

    constructor (connection: Connection)
      ensures cached.None? && readyState == 0 && this.connection == connection && attempts == 0
    {
      cached := None;
      readyState := 0;
      this.connection := connection;
      attempts := 0;
    }

    /**
     * `connectMongo`. A cache over a live connection is returned as it is.
     * Otherwise a missing URI fails before anything is tried; a connection that
     * is up or coming up is cached and reused; and only then is a connect
     * attempted, whose failure (`None` is success) is passed on.
     */
    method Connect(uri: Option<string>, connectError: Option<string>) returns (r: Result<Connection, string>)
      modifies this
      ensures connection == old(connection)
      ensures old(cached).Some? && old(readyState) == 1 ==>
        r == Success(old(cached).value) && cached == old(cached) && attempts == old(attempts) && readyState == old(readyState)
      ensures !(old(cached).Some? && old(readyState) == 1) && (uri.None? || uri.value == "") ==>
        r == Failure(MissingUri) && cached == old(cached) && attempts == old(attempts) && readyState == old(readyState)
      ensures !(old(cached).Some? && old(readyState) == 1) && uri.Some? && uri.value != "" && old(readyState) in {1, 2} ==>
        r == Success(connection) && cached == Some(connection) && attempts == old(attempts) && readyState == old(readyState)
      ensures !(old(cached).Some? && old(readyState) == 1) && uri.Some? && uri.value != "" && old(readyState) !in {1, 2} ==>
        attempts == old(attempts) + 1
        && (connectError.None? ==> r == Success(connection) && cached == Some(connection) && readyState == 1)
        && (connectError.Some? ==> r == Failure(connectError.value) && cached == old(cached) && readyState == old(readyState))
    {
      if cached.Some? && readyState == 1 {
        return Success(cached.value);
      }
      if uri.None? || uri.value == "" {
        return Failure(MissingUri);
      }
      if readyState == 1 || readyState == 2 {
        cached := Some(connection);
        return Success(connection);
      }
      attempts := attempts + 1;
      if connectError.Some? {
        return Failure(connectError.value);
      }
      readyState := 1;
      cached := Some(connection);
      r := Success(connection);
    }
  }
}
