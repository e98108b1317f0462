/** The per-request JWT filter: reads a bearer token from the Authorization
    header, and when the token names a user it validates for, marks the
    request as authenticated by that user; the filter chain always goes on. */
module JwtAuthenticationFilter {
  import opened Wrappers
  import opened Text

  const BearerPrefix := "Bearer "
  const HealthPrefix := "/api/health"
  const ActuatorPrefix := "/actuator/"

  /** The parts of an `HttpServletRequest` the filter reads. */
  datatype Request = Request(httpMethod: string, requestUri: string, authorization: Option<string>)

  /** A `UsernamePasswordAuthenticationToken` with no credentials and no
      authorities. */
  datatype Authentication = Authentication(principal: string)

  /** The token operations of `JwtConfig`; either may throw. */
  datatype JwtConfig = JwtConfig(
    getUsernameFromToken: string -> Result<string>,
    validateToken: (string, string) -> Result<bool>)

  /** `StringUtils.hasText`: not null and holding a non-whitespace character. */
  predicate HasText(s: Option<string>) {
    s.Some? && exists i :: 0 <= i < |s.value| && !IsJavaWhitespace(s.value[i])
  }

  /** `getTokenFromRequest`: the header text after "Bearer " when the header
      has text and starts with "Bearer "; null otherwise. The `hasText` test
      never decides anything, since such a header holds the letter 'B'. */
  function GetTokenFromRequest(authorization: Option<string>): (token: Option<string>)
    ensures token.Some? <==> authorization.Some? && StartsWith(authorization.value, BearerPrefix)
    ensures token.Some? ==> authorization.value == BearerPrefix + token.value
  {
    if authorization.None? || !StartsWith(authorization.value, BearerPrefix) then None
    else
      BearerHeaderHasText(authorization.value);
      if HasText(authorization) then
        assert authorization.value[..7] == BearerPrefix;
        Some(authorization.value[7..])
      else None
  }

  /** A header starting with "Bearer " always has text. */
  lemma BearerHeaderHasText(header: string)
    requires StartsWith(header, BearerPrefix)
    ensures HasText(Some(header))
  {
    assert header[0] == BearerPrefix[0] == 'B';
  }

  /** A header built from a token gives that token back. */
  lemma BearerHeaderRoundTrip(token: string)
    ensures GetTokenFromRequest(Some(BearerPrefix + token)) == Some(token)
  {
    assert (BearerPrefix + token)[..|BearerPrefix|] == BearerPrefix;
  }

  /** `shouldNotFilter`: health checks and actuator endpoints skip the filter. */
  predicate ShouldNotFilter(requestUri: string) {
    StartsWith(requestUri, HealthPrefix) || StartsWith(requestUri, ActuatorPrefix)
  }

  /** The skipped paths are whole subtrees: extending a skipped path keeps it
      skipped. */
  lemma SkippedPathsAreClosedUnderExtension(requestUri: string, suffix: string)
    requires ShouldNotFilter(requestUri)
    ensures ShouldNotFilter(requestUri + suffix)
  {
    if StartsWith(requestUri, HealthPrefix) {
      assert (requestUri + suffix)[..|HealthPrefix|] == requestUri[..|HealthPrefix|];
    } else {
      assert (requestUri + suffix)[..|ActuatorPrefix|] == requestUri[..|ActuatorPrefix|];
    }
  }

  /** A path shorter than both prefixes, such as "/actuator" without its
      trailing slash, is filtered. */
  lemma ShortPathsAreFiltered(requestUri: string)
    requires |requestUri| < |HealthPrefix| && |requestUri| < |ActuatorPrefix|
    ensures !ShouldNotFilter(requestUri)
  {
  }

  /** `"OPTIONS".equalsIgnoreCase(method)` on ASCII text. */
  predicate IsPreflight(httpMethod: string) {
    Lower(httpMethod) == "options"
  }

  /** The authentication `doFilterInternal` establishes: none for a
      preflight request, a request without a bearer token, a token whose
      processing throws, or a token `validateToken` rejects; otherwise that
      of the username the token carries. */
  function AuthenticationFor(request: Request, jwt: JwtConfig): Option<Authentication> {
    if IsPreflight(request.httpMethod) then None
    else
      match GetTokenFromRequest(request.authorization)
      case None => None
      case Some(token) =>
        match jwt.getUsernameFromToken(token)
        case Err(_) => None
        case Ok(username) =>
          if jwt.validateToken(token, username) == Ok(true) then Some(Authentication(username)) else None
  }

  /** A request is authenticated exactly when it is not a preflight, its
      header carries a bearer token, the token yields a username without
      throwing, and `validateToken` accepts the token for that username;
      the principal is that username. */
  lemma AuthenticatedIffTokenValidates(request: Request, jwt: JwtConfig, username: string)
    ensures AuthenticationFor(request, jwt) == Some(Authentication(username)) <==>
      !IsPreflight(request.httpMethod)
      && request.authorization.Some? && StartsWith(request.authorization.value, BearerPrefix)
      && jwt.getUsernameFromToken(request.authorization.value[|BearerPrefix|..]) == Ok(username)
      && jwt.validateToken(request.authorization.value[|BearerPrefix|..], username) == Ok(true)
  {
    if request.authorization.Some? && StartsWith(request.authorization.value, BearerPrefix) {
      var token := GetTokenFromRequest(request.authorization).value;
      assert request.authorization.value == BearerPrefix + token;
      assert request.authorization.value[|BearerPrefix|..] == token;
    }
  }

  /** A preflight request is never authenticated, whatever the token
      operations would say. */
  lemma PreflightIgnoresTheToken(request: Request, jwt: JwtConfig, other: JwtConfig)
    requires IsPreflight(request.httpMethod)
    ensures AuthenticationFor(request, jwt) == None == AuthenticationFor(request, other)
  {
  }

  /** A token whose processing throws leaves the request unauthenticated. */
  lemma ThrowingTokenIsIgnored(request: Request, jwt: JwtConfig)
    requires GetTokenFromRequest(request.authorization).Some?
    requires var token := GetTokenFromRequest(request.authorization).value;
      jwt.getUsernameFromToken(token).Err?
      || jwt.validateToken(token, jwt.getUsernameFromToken(token).value).Err?
    ensures AuthenticationFor(request, jwt) == None
  {
  }

  /** `SecurityContextHolder.getContext()` */
  class SecurityContext {
    var authentication: Option<Authentication>

    constructor ()
      ensures authentication == None
    {
      authentication := None;
    }
  }

  /** The rest of the filter chain; it records the requests passed on. */
  class FilterChain {
    var forwarded: seq<Request>

    constructor ()
      ensures forwarded == []
    {
      forwarded := [];
    }

    method DoFilter(request: Request)
      modifies this
      ensures forwarded == old(forwarded) + [request]
    {
      forwarded := forwarded + [request];
    }
  }

  /** `doFilterInternal`: the context gains the authentication the token
      earns, and keeps what it had otherwise; the request is passed down the
      chain exactly once on every path. */
  method DoFilterInternal(request: Request, jwt: JwtConfig, context: SecurityContext, chain: FilterChain)
    requires context as object != chain
    modifies context, chain
    ensures chain.forwarded == old(chain.forwarded) + [request]
    ensures AuthenticationFor(request, jwt).Some? ==> context.authentication == AuthenticationFor(request, jwt)
    ensures AuthenticationFor(request, jwt).None? ==> context.authentication == old(context.authentication)
  {
    if Lower(request.httpMethod) == "options" {
      chain.DoFilter(request);
      return;
    }
    var token := GetTokenFromRequest(request.authorization);
    if token.Some? {
      var username := jwt.getUsernameFromToken(token.value);
      if username.Ok? {
        var valid := jwt.validateToken(token.value, username.value);
        if valid == Ok(true) {
          context.authentication := Some(Authentication(username.value));
        }
      }
    }
    chain.DoFilter(request);
  }
}
