/**
 * The `protect` middleware: extract a bearer token from the Authorization
 * header, verify it, load the user it names, and classify each failure as
 * one of three distinct 401 errors.
 */
module AuthGate {
  import opened Wrappers
  import opened Strings
  import opened Http
  import opened Users

  const BearerPrefix := "Bearer "

  const TokenMissing := Http(401, "Not authorized, token missing")
  const UserNotFound := Http(401, "Not authorized, user not found")
  const InvalidToken := Http(401, "Not authorized, invalid token")

  /** `jwt.verify` with the process secret: the user id a token carries, or `None` when it throws. */
  type Verifier = string -> Option<UserId>

  /**
   * The header must start with exactly `Bearer ` and the token is the second
   * space-separated piece; `Bearer `, `Bearer  x` and other schemes give none.
   * The token is the run of non-space characters right after the prefix.
   */
  function ExtractToken(header: Option<string>): (r: Option<string>)
    ensures r.Some? <==>
      header.Some? && StartsWith(header.value, BearerPrefix)
      && |header.value| > |BearerPrefix| && header.value[|BearerPrefix|] != ' '
    ensures r.Some? ==> r.value == TakeUntil(header.value[|BearerPrefix|..], ' ')
    ensures r.Some? ==> r.value != "" && ' ' !in r.value
  {
    if header.Some? && StartsWith(header.value, BearerPrefix) then
      var h := header.value;
      var rest := h[|BearerPrefix|..];
      assert h == "Bearer" + [' '] + rest;
      SplitAfterPiece("Bearer", ' ', rest);
      SplitHead(rest, ' ');
      var parts := Split(h, ' ');
      if |parts| > 1 && parts[1] != "" then Some(parts[1]) else None
    else None
  }

  /**
   * The outcome of `protect`. No token: token missing, whatever the verifier
   * and the table. A token that does not verify: invalid token. A verified
   * token naming no user: user not found. Otherwise the user, without password.
   */
  function Authenticate(header: Option<string>, verify: Verifier, users: seq<UserRecord>): (r: Result<SafeUser, Error>)
    ensures ExtractToken(header).None? ==> r == Failure(TokenMissing)
    ensures ExtractToken(header).Some? && verify(ExtractToken(header).value).None? ==> r == Failure(InvalidToken)
    ensures (ExtractToken(header).Some? && verify(ExtractToken(header).value).Some?
             && verify(ExtractToken(header).value).value >= |users|) ==> r == Failure(UserNotFound)
    ensures r.Success? <==>
      ExtractToken(header).Some? && verify(ExtractToken(header).value).Some?
      && verify(ExtractToken(header).value).value < |users|
    ensures r.Success? ==> r.value == WithoutPassword(users[verify(ExtractToken(header).value).value])
    ensures r.Success? && IdsArePositions(users) ==> r.value.id == verify(ExtractToken(header).value).value
    ensures r.Failure? ==> r.error.Http? && r.error.status == 401
  {
    match ExtractToken(header)
    case None => Failure(TokenMissing)
    case Some(token) =>
      match verify(token)
      case None => Failure(InvalidToken)
      case Some(id) =>
        match FindById(users, id)
        case None => Failure(UserNotFound)
        case Some(u) => Success(WithoutPassword(u))
  }

  /** The request and response objects `protect` touches. */
  class Exchange {
    /** `req.user`; `None` is unset or `null`. */
    var user: Option<SafeUser>
    /** `res.statusCode`. */
    var status: nat
    /** What `next` was called with: `None` if not called, `Some(None)` for `next()`. */
    var forwarded: Option<Option<Error>>

    constructor (status: nat)
      ensures user.None? && this.status == status && forwarded.None?
    {
      user := None;
      this.status := status;
      forwarded := None;
    }
  }

  /**
   * `protect` itself: on success `req.user` is the user and `next()` is called
   * with no error; on failure the status is 401 and `next` gets the error.
   * `req.user` is assigned (to `null`) only when a verified token names no user.
   */
  method Protect(ex: Exchange, header: Option<string>, verify: Verifier, users: seq<UserRecord>)
    modifies ex
    ensures var r := Authenticate(header, verify, users);
      && (r.Success? ==> ex.user == Some(r.value) && ex.status == old(ex.status) && ex.forwarded == Some(None))
      && (r.Failure? ==> ex.status == 401 && ex.forwarded == Some(Some(r.error)))
      && (r == Failure(UserNotFound) ==> ex.user == None)
      && (r == Failure(TokenMissing) || r == Failure(InvalidToken) ==> ex.user == old(ex.user))
  {
    var token := ExtractToken(header);
    if token.None? {
      ex.status := 401;
      ex.forwarded := Some(Some(TokenMissing));
      return;
    }
    var decoded := verify(token.value);
    if decoded.None? {
      ex.status := 401;
      ex.forwarded := Some(Some(InvalidToken));
      return;
    }
    var found := FindById(users, decoded.value);
    ex.user := if found.Some? then Some(WithoutPassword(found.value)) else None;
    if ex.user.None? {
      ex.status := 401;
      ex.forwarded := Some(Some(UserNotFound));
      return;
    }
    ex.forwarded := Some(None);
  }
}
