/**
 * The shared HTTP client of the front end: the choice of base URL and the
 * request interceptor that attaches the stored token.
 */
module ApiClient {
  import opened Wrappers
  import opened Strings
  import opened Http
  import AuthGate

  /** The `localStorage` key the session keeps its token under. */
  const TokenKey := "taskflow_token"
  const SameOriginBase := "/api"
  const DevelopmentBase := "http://localhost:5000/api"

  /**
   * `getBaseURL`: a non-empty `VITE_API_URL` always wins; without one, a
   * production build talks to its own origin and a development build to the
   * local server.
   */
  function BaseUrl(production: bool, apiUrl: Option<string>): (r: string)
    ensures NonEmpty(apiUrl) ==> r == apiUrl.value
    ensures !NonEmpty(apiUrl) && production ==> r == SameOriginBase
    ensures !NonEmpty(apiUrl) && !production ==> r == DevelopmentBase
    ensures r != ""
  {
    if production && !NonEmpty(apiUrl) then SameOriginBase
    else if NonEmpty(apiUrl) then apiUrl.value
    else DevelopmentBase
  }

  /** The value the interceptor gives the `Authorization` header. */
  function AuthorizationValue(token: string): (r: string)
    ensures StartsWith(r, AuthGate.BearerPrefix) && r[|AuthGate.BearerPrefix|..] == token
  {
    AuthGate.BearerPrefix + token
  }

  /** For a token without spaces, the gate reads back exactly the token the client sent. */
  lemma HeaderRoundTrip(token: string)
    requires token != "" && ' ' !in token
    ensures AuthGate.ExtractToken(Some(AuthorizationValue(token))) == Some(token)
  {
    var h := AuthorizationValue(token);
    assert h[|AuthGate.BearerPrefix|..] == token;
    var t := TakeUntil(token, ' ');
    assert h[|AuthGate.BearerPrefix|] == token[0];
    assert |t| == |token|;
    assert t == token[..|t|] == token;
  }

  /** The config object of one outgoing request. */
  class RequestConfig {
    var headers: map<string, string>

    constructor (headers: map<string, string>)
      ensures this.headers == headers
    {
      this.headers := headers;
    }
  }

  /**
   * The request interceptor: with a non-empty stored token the request
   * carries `Authorization: Bearer <token>`; otherwise its headers are untouched.
   */
  method Intercept(config: RequestConfig, stored: Option<string>)
    modifies config
    ensures NonEmpty(stored) ==> config.headers == old(config.headers)["Authorization" := AuthorizationValue(stored.value)]
    ensures !NonEmpty(stored) ==> config.headers == old(config.headers)
  {
    if NonEmpty(stored) {
      config.headers := config.headers["Authorization" := AuthorizationValue(stored.value)];
    }
  }
}
