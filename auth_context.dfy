/**
 * The client session: the token kept in `localStorage`, the signed-in user
 * and the loading flag, as `AuthProvider` changes them. The server's
 * responses are parameters.
 */
module AuthSession {
  import opened Wrappers
  import opened Http
  import opened Users
  import Credentials

  class Session {
    /** `localStorage['taskflow_token']`; `None` when absent. */
    var storedToken: Option<string>
    var user: Option<PublicUser>
    var loading: bool

    /** A fresh provider over whatever the browser had stored. */
    constructor (stored: Option<string>)
      ensures storedToken == stored && user.None? && loading
      ensures !IsAuthenticated()
    {
      storedToken := stored;
      user := None;
      loading := true;
    }

    /** `isAuthenticated`: `Boolean(user)`; a stored token alone does not count. */
    predicate IsAuthenticated()
      reads this
    {
      user.Some?
    }

    /**
     * `fetchUser` on mount: with no stored token nothing is requested; a
     * profile from `GET /auth/me` signs the user in; a failure drops the
     * stored token. Loading ends in every case.
     */
    method FetchUser(me: Result<PublicUser, Error>) returns (requested: bool)
      modifies this
      ensures requested <==> NonEmpty(old(storedToken))
      ensures !loading
      ensures !requested ==> user == old(user) && storedToken == old(storedToken)
      ensures requested && me.Success? ==> user == Some(me.value) && storedToken == old(storedToken)
      ensures requested && me.Failure? ==> user == old(user) && storedToken.None?
      ensures requested && me.Success? ==> IsAuthenticated()
      ensures me.Failure? ==> IsAuthenticated() == old(IsAuthenticated())
    {
      if !NonEmpty(storedToken) {
        loading := false;
        return false;
      }
      requested := true;
      if me.Success? {
        user := Some(me.value);
      } else {
        storedToken := None;
      }
      loading := false;
    }

    /**
     * `login`: posts the credentials to `/auth/login`; a success stores the
     * token and the user, a failure changes nothing and is rethrown.
     */
    method Login(response: Result<Credentials.AuthResponse, Error>) returns (rethrown: bool)
      modifies this
      ensures rethrown <==> response.Failure?
      ensures response.Success? ==> storedToken == Some(response.value.token) && user == Some(response.value.user)
      ensures response.Failure? ==> storedToken == old(storedToken) && user == old(user)
      ensures response.Success? ==> IsAuthenticated()
      ensures loading == old(loading)
    {
      if response.Success? {
        storedToken := Some(response.value.token);
        user := Some(response.value.user);
      }
      rethrown := response.Failure?;
    }

    /** `register`: posts the new account to `/auth/register` and settles like `login`. */
    method Register(response: Result<Credentials.AuthResponse, Error>) returns (rethrown: bool)
      modifies this
      ensures rethrown <==> response.Failure?
      ensures response.Success? ==> storedToken == Some(response.value.token) && user == Some(response.value.user)
      ensures response.Failure? ==> storedToken == old(storedToken) && user == old(user)
      ensures response.Success? ==> IsAuthenticated()
      ensures loading == old(loading)
    {
      if response.Success? {
        storedToken := Some(response.value.token);
        user := Some(response.value.user);
      }
      rethrown := response.Failure?;
    }

    /** `logout`: the token is removed and the user cleared. */
    method Logout()
      modifies this
      ensures storedToken.None? && user.None? && !IsAuthenticated()
      ensures loading == old(loading)
    {
      storedToken := None;
      user := None;
    }
  }
}
