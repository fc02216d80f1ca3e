/**
 * The user records the handlers read and write, and the projections they
 * send out. The user schema itself (hashing, field rules) is not part of
 * this model; only what its callers use is.
 */
module Users {
  import opened Wrappers

  type UserId = nat

  /** A stored user; `password` is the credential as the user model keeps it. */
  datatype UserRecord = UserRecord(id: UserId, name: string, email: string, password: string, createdAt: int)

  /** A user loaded with `select('-password')`. */
  datatype SafeUser = SafeUser(id: UserId, name: string, email: string, createdAt: int)

  /** The `user` object of a response: `createdAt` is sent only by `GET /auth/me`. */
  datatype PublicUser = PublicUser(id: UserId, name: string, email: string, createdAt: Option<int>)

  function WithoutPassword(u: UserRecord): (r: SafeUser)
    ensures r.id == u.id && r.name == u.name && r.email == u.email && r.createdAt == u.createdAt
  {
    SafeUser(u.id, u.name, u.email, u.createdAt)
  }

  /** `{ id, name, email }`, what register and login send back. */
  function Profile(u: UserRecord): (r: PublicUser)
    ensures r.id == u.id && r.name == u.name && r.email == u.email && r.createdAt.None?
  {
    PublicUser(u.id, u.name, u.email, None)
  }

  /** `User.findById`: users are stored in creation order, so an id is a position. */
  function FindById(users: seq<UserRecord>, id: UserId): (r: Option<UserRecord>)
    ensures r.Some? <==> id < |users|
    ensures r.Some? ==> r.value == users[id]
  {
    if id < |users| then Some(users[id]) else None
  }

  /** `User.findOne({ email })`: the position of the first user with that email. */
  function FirstWithEmail(users: seq<UserRecord>, email: string, from: nat := 0): (r: Option<nat>)
    requires from <= |users|
    ensures r.Some? ==> from <= r.value < |users| && users[r.value].email == email
    ensures r.Some? ==> forall j :: from <= j < r.value ==> users[j].email != email
    ensures r.None? ==> forall j :: from <= j < |users| ==> users[j].email != email
    decreases |users| - from
  {
    if from == |users| then None
    else if users[from].email == email then Some(from)
    else FirstWithEmail(users, email, from + 1)
  }

  /** No two users share an email. */
  predicate EmailsUnique(users: seq<UserRecord>) {
    forall i, j :: 0 <= i < j < |users| ==> users[i].email != users[j].email
  }

  /** Each user is filed at the position of its id. */
  predicate IdsArePositions(users: seq<UserRecord>) {
    forall i :: 0 <= i < |users| ==> users[i].id == i
  }
}
