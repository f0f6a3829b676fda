/**
 * The `/login` and `/logout` route handlers of `register` (index.js). The
 * session cookie of the request being handled is the `session` field of a
 * `Routes` object: `request.cookieAuth.set` assigns it and
 * `request.cookieAuth.clear()` empties it, before the handler answers.
 */
module Handlers {
  import opened Wrappers
  import opened Query
  import opened PosixPath
  import opened UrlType
  import opened UriComponent
  import Config
  import Resolver
  import Negotiation

  /** The identity provider's user object, as a set of named claims. */
  datatype Profile = Profile(claims: map<string, string>)

  /** What the session cookie holds. */
  datatype SessionRecord = SessionRecord(user: Profile)

  /** What a successful provider exchange yields: the profile and the query the login started with. */
  datatype Credentials = Credentials(profile: Profile, query: Query)

  /** `request.auth` on the login route, whose provider strategy runs in "try" mode. */
  datatype AuthState = Authenticated(credentials: Credentials) | NotAuthenticated(errorMessage: string)

  datatype Response = Redirect(location: string) | BadRequest(message: string) | Unauthorized(message: string)

  const LoginPath := Negotiation.LoginPath

  /** Bell's lifetime for the cookie that ties a provider round trip together: one day, in milliseconds. */
  const ProviderCookieTtl := 1000 * 60 * 60 * 24

  /** The marker of a user who declined to grant the application access. */
  const ConsentRejected := "App rejected"

  predicate StartsWith(s: string, prefix: string) {
    |prefix| <= |s| && s[..|prefix|] == prefix
  }

  /** Either the resolved target as a redirect, or the resolver's 400 error. */
  function RedirectOrReject(next: Result<string, string>): Response {
    match next
    case Ok(path) => Redirect(path)
    case Err(message) => BadRequest(message)
  }

  /** The answer of the `/login` handler. */
  function LoginResponse(auth: AuthState): (r: Response)
    ensures r.Redirect? ==> IsNormalized(r.location) && !HasHost(r.location)
    ensures r.BadRequest? ==> auth.Authenticated? && r.message == Resolver.AbsoluteNextMessage
    ensures r.Unauthorized? <==> auth.NotAuthenticated? && !StartsWith(auth.errorMessage, ConsentRejected)
    ensures r.Unauthorized? ==> r.message == auth.errorMessage
    ensures auth.NotAuthenticated? && StartsWith(auth.errorMessage, ConsentRejected) ==> r == Redirect(LoginPath)
    ensures auth.Authenticated? ==> r == RedirectOrReject(Resolver.ResolveNext(auth.credentials.query))
  {
    match auth
    case Authenticated(credentials) =>
      RedirectOrReject(Resolver.ResolveNext(credentials.query))
    case NotAuthenticated(message) =>
      if StartsWith(message, ConsentRejected) then
        assert Split("login") == ["login"] by {
          SplitPrefix("login", "");
          assert "login" + "" == "login";
        }
        assert IsNormalized(LoginPath) by {
          assert LoginPath[1..] == "login";
        }
        Redirect(LoginPath)
      else Unauthorized(message)
  }

  function LogoutPrefix(domain: string): string {
    "https://" + domain + "/v2/logout?returnTo="
  }

  /**
   * The provider's logout address, whose `returnTo` parameter carries the
   * absolute address of `path` on `host`. The parameter decodes back to that
   * address, is written in the unreserved characters and `%HH` escapes only,
   * and so holds no `&` or `#` that could end it early.
   */
  function LogoutLocation(domain: string, host: string, path: string): (r: string)
    ensures StartsWith(r, LogoutPrefix(domain))
    ensures Decode(r[|LogoutPrefix(domain)|..]) == Some("https://" + host + path)
    ensures forall i :: |LogoutPrefix(domain)| <= i < |r| ==> Unreserved(r[i]) || r[i] == '%'
    ensures forall i :: |LogoutPrefix(domain)| <= i < |r| ==> r[i] != '&' && r[i] != '#' && r[i] != '?'
  {
    var returnTo := Encode("https://" + host + path);
    RoundTrip("https://" + host + path);
    EncodedTail(LogoutPrefix(domain), returnTo);
    LogoutPrefix(domain) + returnTo
  }

  /** An encoded value appended to a prefix keeps the prefix and can be read back from behind it. */
  lemma EncodedTail(prefix: string, encoded: string)
    requires forall i :: 0 <= i < |encoded| ==> Unreserved(encoded[i]) || encoded[i] == '%'
    ensures StartsWith(prefix + encoded, prefix)
    ensures (prefix + encoded)[|prefix|..] == encoded
    ensures forall i :: |prefix| <= i < |prefix + encoded| ==>
      Unreserved((prefix + encoded)[i]) || (prefix + encoded)[i] == '%'
    ensures forall i :: |prefix| <= i < |prefix + encoded| ==>
      (prefix + encoded)[i] != '&' && (prefix + encoded)[i] != '#' && (prefix + encoded)[i] != '?'
  {
    var r := prefix + encoded;
    assert r[..|prefix|] == prefix;
    forall i | |prefix| <= i < |r|
      ensures Unreserved(r[i]) || r[i] == '%'
      ensures r[i] != '&' && r[i] != '#' && r[i] != '?'
    {
      assert r[i] == encoded[i - |prefix|];
    }
  }

  /** The answer of the `/logout` handler: it does not depend on whether a session existed. */
  function LogoutResponse(domain: string, query: Query, host: string): (r: Response)
    ensures r.BadRequest? <==> HasHost(Resolver.ChosenNext(query))
    ensures r.BadRequest? ==> r.message == Resolver.AbsoluteNextMessage
    ensures !r.Unauthorized?
    ensures r.Redirect? ==> StartsWith(r.location, LogoutPrefix(domain))
    ensures r.Redirect? ==>
      var returnTo := r.location[|LogoutPrefix(domain)|..];
      && Decode(returnTo).Some?
      && StartsWith(Decode(returnTo).value, "https://" + host)
      && Decode(returnTo).value[|"https://" + host|..] == Resolver.ResolveNext(query).value
    ensures r.Redirect? ==> r.location == LogoutLocation(domain, host, Resolver.ResolveNext(query).value)
    ensures r.Redirect? ==> forall i :: |LogoutPrefix(domain)| <= i < |r.location| ==>
      (Unreserved(r.location[i]) || r.location[i] == '%') && r.location[i] != '&' && r.location[i] != '#'
  {
    match Resolver.ResolveNext(query)
    case Ok(path) =>
      var location := LogoutLocation(domain, host, path);
      var full := "https://" + host + path;
      assert full[..|"https://" + host|] == "https://" + host;
      assert full[|"https://" + host|..] == path;
      Redirect(location)
    case Err(message) => BadRequest(message)
  }

  /** Without `next`, logout returns the user to the root of the site, through the provider. */
  lemma LogoutWithoutNext(domain: string, host: string)
    ensures LogoutResponse(domain, map[], host) == Redirect(LogoutPrefix(domain) + Encode("https://" + host + "/"))
  {
    Resolver.ResolveNextDefault();
  }

  /** The routes of one registered plugin, handling one request. */
  class Routes {
    const config: Config.Config
    var session: Option<SessionRecord>

    /** The handlers of a plugin registered with `config`, for a request that arrives with `session`. */
    constructor (config: Config.Config, session: Option<SessionRecord>)
      ensures this.config == config && this.session == session
    {
      this.config := config;
      this.session := session;
    }

    /**
     * GET /login. A successful provider exchange stores the profile in the
     * session before the target is resolved, so the session is set even
     * when the target is then refused.
     */
    method Login(auth: AuthState) returns (response: Response)
      modifies this
      ensures response == LoginResponse(auth)
      ensures auth.Authenticated? ==> session == Some(SessionRecord(auth.credentials.profile))
      ensures auth.NotAuthenticated? ==> session == old(session)
    {
      if auth.Authenticated? {
        session := Some(SessionRecord(auth.credentials.profile));
        var next := Resolver.ResolveNext(auth.credentials.query);
        response := RedirectOrReject(next);
        return;
      }
      if StartsWith(auth.errorMessage, ConsentRejected) {
        response := Redirect(LoginPath);
        return;
      }
      response := Unauthorized(auth.errorMessage);
    }

    /** GET /logout: the session ends whatever the answer. */
    method Logout(query: Query, host: string) returns (response: Response)
      modifies this
      ensures session == None
      ensures response == LogoutResponse(config.auth0Domain, query, host)
    {
      session := None;
      var next := Resolver.ResolveNext(query);
      match next {
        case Err(message) =>
          response := BadRequest(message);
        case Ok(path) =>
          var returnTo := Encode("https://" + host + path);
          response := Redirect(LogoutPrefix(config.auth0Domain) + returnTo);
      }
    }
  }
}
