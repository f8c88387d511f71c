/**
 * filter/JwtFilter.java: the per-request authentication step. A "Bearer " header yields a
 * token; its subject names the user to load; a token that also validates puts that user
 * into the security context. A failure to parse the token or to load the user stops the
 * request with a 401; every other path passes the request on down the chain.
 */
module JwtFiltering {
  import opened Wrappers
  import opened Domain

  const BEARER: string := "Bearer "
  const JSON: string := "application/json"
  /** The body written on a 401, as the text block reads once its common indentation is stripped. */
  const UNAUTHORIZED_BODY: string :=
    "    {\n" +
    "      \"status\": 401,\n" +
    "      \"error\": \"Unauthorized\",\n" +
    "      \"message\": \"Invalid or expired JWT token\"\n" +
    "    }\n"

  /** `extractEmail`: either it throws (a bad signature, a malformed or expired token) or it yields the subject, which may be null. */
  datatype Extraction = Threw | Subject(email: Str)

  /** utils/JwtUtil.java, reduced to what the filter calls; the jjwt parsing is not part of this model. */
  datatype JwtUtil = JwtUtil(extractEmail: string -> Extraction, validateToken: string -> bool)

  datatype UserDetails = UserDetails(username: string, authorities: seq<string>)

  /** The `UsernamePasswordAuthenticationToken` the filter builds: the user, null credentials, the user's authorities. */
  datatype Authentication = Authentication(principal: UserDetails, credentials: Str, authorities: seq<string>)

  /** What one request comes to: whether it is refused with a 401, and the authentication afterwards. */
  datatype Decision = Decision(rejected: bool, authentication: Option<Authentication>)

  /** The token of a header that starts with "Bearer ": everything after those 7 characters. */
  function BearerToken(authHeader: Str): (t: Option<string>)
    ensures t.Some? <==> authHeader.Some? && |authHeader.value| >= |BEARER| && authHeader.value[..|BEARER|] == BEARER
    ensures t.Some? ==> authHeader.value == BEARER + t.value
  {
    if authHeader.Some? && |authHeader.value| >= |BEARER| && authHeader.value[..|BEARER|] == BEARER then
      Some(authHeader.value[|BEARER|..])
    else
      None
  }

  lemma BearerTokenOfPrefixed(t: string)
    ensures BearerToken(Some(BEARER + t)) == Some(t)
  {
    assert (BEARER + t)[..|BEARER|] == BEARER;
    assert (BEARER + t)[|BEARER|..] == t;
  }

  /**
   * The outcome of `doFilterInternal` for a header, the authentication already in the
   * context, the JWT utility and `loadUserByUsername` (`None` when it throws).
   */
  function Decide(authHeader: Str, existing: Option<Authentication>, jwt: JwtUtil, loadUser: string -> Option<UserDetails>): (d: Decision)
    // no "Bearer " header: nothing is extracted and the request goes on as it came
    ensures BearerToken(authHeader).None? ==> d == Decision(false, existing)
    // a 401 exactly when extraction throws, or when there is a subject to look up and the lookup fails
    ensures d.rejected <==>
      BearerToken(authHeader).Some? &&
      var x := jwt.extractEmail(BearerToken(authHeader).value);
      x.Threw? || (x.email.Some? && existing.None? && loadUser(x.email.value).None?)
    // authentication is set only when all four conditions hold, and then it is the loaded user's
    ensures d.authentication != existing <==>
      BearerToken(authHeader).Some? &&
      var t := BearerToken(authHeader).value;
      var x := jwt.extractEmail(t);
      x.Subject? && x.email.Some? && existing.None? && loadUser(x.email.value).Some? && jwt.validateToken(t)
    ensures d.authentication != existing ==>
      var u := loadUser(jwt.extractEmail(BearerToken(authHeader).value).email.value).value;
      d.authentication == Some(Authentication(u, None, u.authorities))
    // an authentication already present is never replaced, and a 401 sets none
    ensures existing.Some? || d.rejected ==> d.authentication == existing
  {
    match BearerToken(authHeader)
    case None => Decision(false, existing)
    case Some(t) =>
      match jwt.extractEmail(t)
      case Threw => Decision(true, existing)
      case Subject(email) =>
        if email.None? || existing.Some? then Decision(false, existing)
        else
          match loadUser(email.value)
          case None => Decision(true, existing)
          case Some(u) =>
            if jwt.validateToken(t) then Decision(false, Some(Authentication(u, None, u.authorities)))
            else Decision(false, existing)
  }

  /** A token that parses and names a known user but does not validate lets the request through unauthenticated. */
  lemma InvalidTokenIsNotRejected(t: string, email: string, jwt: JwtUtil, loadUser: string -> Option<UserDetails>)
    requires jwt.extractEmail(t) == Subject(Some(email)) && loadUser(email).Some? && !jwt.validateToken(t)
    ensures Decide(Some(BEARER + t), None, jwt, loadUser) == Decision(false, None)
  {
    BearerTokenOfPrefixed(t);
  }

  /** `SecurityContextHolder.getContext()`, the one piece of it the filter uses. */
  class SecurityContext {
    var authentication: Option<Authentication>

    constructor (authentication: Option<Authentication>)
      ensures this.authentication == authentication
    {
      this.authentication := authentication;
    }
  }

  /** The parts of `HttpServletResponse` the filter writes. */
  class HttpResponse {
    var status: int
    var contentType: Str
    var body: string

    constructor ()
      ensures status == 200 && contentType == None && body == ""
    {
      status := 200;
      contentType := None;
      body := "";
    }
  }

  /** The rest of the filter chain, observed through how often it is invoked. */
  class FilterChain {
    var invocations: nat

    constructor ()
      ensures invocations == 0
    {
      invocations := 0;
    }
  }

  class JwtFilter {
    const jwtUtil: JwtUtil
    /** `UserDetailsServiceImpl.loadUserByUsername`; `None` stands for its UsernameNotFoundException. */
    const loadUserByUsername: string -> Option<UserDetails>

    constructor (jwtUtil: JwtUtil, loadUserByUsername: string -> Option<UserDetails>)
      ensures this.jwtUtil == jwtUtil && this.loadUserByUsername == loadUserByUsername
    {
      this.jwtUtil := jwtUtil;
      this.loadUserByUsername := loadUserByUsername;
    }

    /** `doFilterInternal(request, response, filterChain)` for a request with the given Authorization header. */
    method DoFilterInternal(authHeader: Str, context: SecurityContext, response: HttpResponse, chain: FilterChain)
      modifies context, response, chain
      ensures var d := Decide(authHeader, old(context.authentication), jwtUtil, loadUserByUsername);
        context.authentication == d.authentication &&
        (d.rejected ==>
          response.status == 401 && response.contentType == Some(JSON) &&
          response.body == old(response.body) + UNAUTHORIZED_BODY &&
          chain.invocations == old(chain.invocations)) &&
        (!d.rejected ==>
          response.status == old(response.status) && response.contentType == old(response.contentType) &&
          response.body == old(response.body) &&
          chain.invocations == old(chain.invocations) + 1)
    {
      var jwt: Str := None;
      var email: Str := None;
      if authHeader.Some? && |authHeader.value| >= |BEARER| && authHeader.value[..|BEARER|] == BEARER {
        jwt := Some(authHeader.value[|BEARER|..]);
        var extracted := jwtUtil.extractEmail(jwt.value);
        if extracted.Threw? {
          Unauthorized(response);
          return;
        }
        email := extracted.email;
      }
      if email.Some? && context.authentication.None? {
        var userDetails := loadUserByUsername(email.value);
        if userDetails.None? {
          Unauthorized(response);
          return;
        }
        if jwtUtil.validateToken(jwt.value) {
          var u := userDetails.value;
          context.authentication := Some(Authentication(u, None, u.authorities));
        }
      }
      chain.invocations := chain.invocations + 1;
    }

    /** The `catch` block: a 401 with a fixed JSON body. */
    method Unauthorized(response: HttpResponse)
      modifies response
      ensures response.status == 401 && response.contentType == Some(JSON)
      ensures response.body == old(response.body) + UNAUTHORIZED_BODY
    {
      response.status := 401;
      response.contentType := Some(JSON);
      response.body := response.body + UNAUTHORIZED_BODY;
    }
  }
}
