/**
 * The account handlers: registration, login and the current-user profile,
 * over the user table. Password hashing, comparison and token signing are
 * parameters.
 */
module Credentials {
  import opened Wrappers
  import opened Http
  import opened Users

  const MissingRegistrationFields := Http(400, "Please provide name, email, and password")
  const EmailTaken := Http(409, "User with this email already exists")
  const MissingLoginFields := Http(400, "Please provide email and password")
  const InvalidCredentials := Http(401, "Invalid email or password")

  /** The user model's pre-save hook: the stored form of a password. */
  type Hasher = string -> string
  /** `matchPassword`: whether an attempt matches a stored password. */
  type PasswordCheck = (string, string) -> bool
  /** `generateToken`: the signed token for a user id. */
  type Issuer = UserId -> string

  /** The JSON a successful register or login sends, with its status code. */
  datatype AuthResponse = AuthResponse(status: nat, user: PublicUser, token: string)

  /**
   * `loginUser`: missing credentials are a 400; an unknown email and a wrong
   * password are the same 401, so a response never tells which one it was.
   */
  function Login(users: seq<UserRecord>, body: Body, matches: PasswordCheck, issue: Issuer): (r: Result<AuthResponse, Error>)
    ensures !(Truthy(Field(body, "email")) && Truthy(Field(body, "password"))) ==> r == Failure(MissingLoginFields)
    ensures r.Failure? ==> r.error == MissingLoginFields || r.error == InvalidCredentials
    ensures r.Success? <==>
      Truthy(Field(body, "email")) && Truthy(Field(body, "password"))
      && FirstWithEmail(users, body["email"].s).Some?
      && matches(users[FirstWithEmail(users, body["email"].s).value].password, body["password"].s)
    ensures r.Success? ==>
      var u := users[FirstWithEmail(users, body["email"].s).value];
      u.email == body["email"].s && r.value == AuthResponse(200, Profile(u), issue(u.id))
  {
    if !(Truthy(Field(body, "email")) && Truthy(Field(body, "password"))) then
      Failure(MissingLoginFields)
    else
      var email, password := body["email"].s, body["password"].s;
      match FirstWithEmail(users, email)
      case None => Failure(InvalidCredentials)
      case Some(i) =>
        if !matches(users[i].password, password) then Failure(InvalidCredentials)
        else Success(AuthResponse(200, Profile(users[i]), issue(users[i].id)))
  }

  /**
   * Login gives the same error for an email nobody registered as for a
   * registered email with a rejected password.
   */
  lemma LoginHidesWhichCredentialFailed(users: seq<UserRecord>, unknown: Body, wrong: Body,
                                        matches: PasswordCheck, issue: Issuer)
    requires Truthy(Field(unknown, "email")) && Truthy(Field(unknown, "password"))
    requires Truthy(Field(wrong, "email")) && Truthy(Field(wrong, "password"))
    requires forall u :: u in users ==> u.email != unknown["email"].s
    requires exists u :: u in users && u.email == wrong["email"].s
    requires forall u :: u in users ==> !matches(u.password, wrong["password"].s)
    ensures Login(users, unknown, matches, issue) == Login(users, wrong, matches, issue) == Failure(InvalidCredentials)
  {
    var u :| u in users && u.email == wrong["email"].s;
    var k :| 0 <= k < |users| && users[k] == u;
    assert FirstWithEmail(users, wrong["email"].s).Some?;
  }

  /** `getCurrentUser`: the authenticated user's profile, this time with `createdAt`. */
  function CurrentUser(u: SafeUser): (r: PublicUser)
    ensures r.id == u.id && r.name == u.name && r.email == u.email && r.createdAt == Some(u.createdAt)
  {
    PublicUser(u.id, u.name, u.email, Some(u.createdAt))
  }

  /** The user collection; a new user's id is the next position. */
  class UserTable {
    var users: seq<UserRecord>

    /** Ids are positions, and the unique index on `email` holds. */
    predicate Valid()
      reads this
    {
      IdsArePositions(users) && EmailsUnique(users)
    }

    constructor ()
      ensures Valid() && users == []
    {
      users := [];
    }

    /**
     * `registerUser`: a falsy name, email or password is a 400, a taken email
     * a 409; otherwise one user is appended, with the password in its stored
     * form, and the response is a 201 with the profile and a token for the new id.
     */
    method Register(body: Body, hash: Hasher, issue: Issuer, now: int) returns (r: Result<AuthResponse, Error>)
      requires Valid()
      modifies this
      ensures Valid()
      ensures !(Truthy(Field(body, "name")) && Truthy(Field(body, "email")) && Truthy(Field(body, "password"))) ==>
        r == Failure(MissingRegistrationFields) && users == old(users)
      ensures (Truthy(Field(body, "name")) && Truthy(Field(body, "email")) && Truthy(Field(body, "password"))
               && FirstWithEmail(old(users), body["email"].s).Some?) ==> r == Failure(EmailTaken) && users == old(users)
      ensures r.Success? <==>
        Truthy(Field(body, "name")) && Truthy(Field(body, "email")) && Truthy(Field(body, "password"))
        && FirstWithEmail(old(users), body["email"].s).None?
      ensures r.Success? ==>
        var u := UserRecord(|old(users)|, body["name"].s, body["email"].s, hash(body["password"].s), now);
        users == old(users) + [u] && r.value == AuthResponse(201, Profile(u), issue(u.id))
    {
      if !(Truthy(Field(body, "name")) && Truthy(Field(body, "email")) && Truthy(Field(body, "password"))) {
        return Failure(MissingRegistrationFields);
      }
      var name, email, password := body["name"].s, body["email"].s, body["password"].s;
      var existing := FirstWithEmail(users, email);
      if existing.Some? {
        return Failure(EmailTaken);
      }
      var u := UserRecord(|users|, name, email, hash(password), now);
      users := users + [u];
      r := Success(AuthResponse(201, Profile(u), issue(u.id)));
    }
  }

  /**
   * With a password check that accepts a password against its own stored
   * form, a login with the credentials just registered succeeds for the new user.
   */
  lemma LoginAfterRegister(before: seq<UserRecord>, body: Body, hash: Hasher, matches: PasswordCheck,
                           issue: Issuer, now: int)
    requires Truthy(Field(body, "email")) && Truthy(Field(body, "password"))
    requires FirstWithEmail(before, body["email"].s).None?
    requires matches(hash(body["password"].s), body["password"].s)
    ensures var name := if "name" in body && body["name"].Str? then body["name"].s else "";
      var u := UserRecord(|before|, name, body["email"].s, hash(body["password"].s), now);
      Login(before + [u], body, matches, issue) == Success(AuthResponse(200, Profile(u), issue(|before|)))
  {
    var name := if "name" in body && body["name"].Str? then body["name"].s else "";
    var u := UserRecord(|before|, name, body["email"].s, hash(body["password"].s), now);
    var after := before + [u];
    FirstWithEmailSkipsPrefix(before, after, body["email"].s, 0);
  }

  /** A search that finds nothing in a prefix lands on the first match past it. */
  lemma {:induction false} FirstWithEmailSkipsPrefix(before: seq<UserRecord>, after: seq<UserRecord>, email: string, from: nat)
    requires from <= |before| < |after|
    requires after[..|before|] == before
    requires after[|before|].email == email
    requires forall j :: from <= j < |before| ==> before[j].email != email
    ensures FirstWithEmail(after, email, from) == Some(|before|)
    decreases |before| - from
  {
    if from < |before| {
      assert after[from] == before[from];
      FirstWithEmailSkipsPrefix(before, after, email, from + 1);
    }
  }
}
