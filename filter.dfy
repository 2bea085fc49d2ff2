/**
 * JwtFilter: the per-request gate.
 *
 * For one request it reads the Authorization header; when it carries a bearer
 * token, it extracts the subject, and, unless the request is already
 * authenticated, loads that user, validates the token for them and, if valid,
 * records an authentication in the request's security context. It then forwards
 * the request. Nothing is caught: a token that does not parse or a user that is
 * not found ends the request with that error, and the request is not forwarded.
 */
module Filter {
  import opened Wrappers
  import opened Compact
  import opened Principals
  import opened Tokens
  import opened UserDetails

  /** The authentication the gate records: principal, no credentials, the principal's authorities. */
  datatype Authentication =
    UsernamePasswordAuthenticationToken(principal: UserPrincipal, credentials: Option<string>,
                                        authorities: set<GrantedAuthority>)

  /** The security context of one request. */
  class SecurityContext {
    var authentication: Option<Authentication>

    constructor ()
      ensures authentication == None
    {
      authentication := None;
    }

    method SetAuthentication(a: Authentication)
      modifies this
      ensures authentication == Some(a)
    {
      authentication := Some(a);
    }
  }

  /** The rest of the filter chain; it counts how often a request was passed on. */
  class FilterChain {
    var forwarded: nat

    constructor ()
      ensures forwarded == 0
    {
      forwarded := 0;
    }

    method DoFilter()
      modifies this
      ensures forwarded == old(forwarded) + 1
    {
      forwarded := forwarded + 1;
    }
  }

  datatype FilterError =
    | TokenError(cause: JwtError)
    | LookupError(notFound: UsernameNotFoundException)

  datatype Outcome = Forwarded | Threw(error: FilterError)

  const BearerPrefix: string := "Bearer "

  predicate StartsWith(s: string, prefix: string) {
    |prefix| <= |s| && s[..|prefix|] == prefix
  }

  /** The token of a header that is present and starts with "Bearer ": the header minus its first 7 characters. */
  function BearerToken(authHeader: Option<string>): (token: Option<string>)
    ensures token.Some? <==> authHeader.Some? && StartsWith(authHeader.value, BearerPrefix)
    ensures token.Some? ==> authHeader.value == BearerPrefix + token.value
  {
    if authHeader.Some? && StartsWith(authHeader.value, BearerPrefix) then
      assert authHeader.value == authHeader.value[..7] + authHeader.value[7..];
      Some(authHeader.value[7..])
    else None
  }

  /** For the header "Bearer " + t the token is exactly t. */
  lemma BearerTokenOf(t: string)
    ensures BearerToken(Some(BearerPrefix + t)) == Some(t)
  {
  }

  class JwtFilter {
    const jwtService: JwtService
    const userDetailsService: MyUserDetailsService

    constructor (jwtService: JwtService, userDetailsService: MyUserDetailsService)
      ensures this.jwtService == jwtService && this.userDetailsService == userDetailsService
    {
      this.jwtService := jwtService;
      this.userDetailsService := userDetailsService;
    }

    /**
     * What one pass of the filter does, given the header, the authentication the
     * context held beforehand and the time: how the pass ends, and the
     * authentication the context holds afterwards.
     */
    function Gate(authHeader: Option<string>, prior: Option<Authentication>, now: int): (Outcome, Option<Authentication>)
      reads userDetailsService.repo
    {
      match BearerToken(authHeader)
      case None => (Forwarded, prior)
      case Some(token) =>
        match jwtService.ExtractUserName(token)
        case Failure(e) => (Threw(TokenError(e)), prior)
        case Success(username) =>
          if prior.Some? then (Forwarded, prior)
          else
            match userDetailsService.LoadUserByUsername(username)
            case Failure(e) => (Threw(LookupError(e)), prior)
            case Success(userDetails) =>
              match jwtService.ValidateToken(token, userDetails, now)
              case Failure(e) => (Threw(TokenError(e)), prior)
              case Success(valid) =>
                if valid then
                  (Forwarded, Some(UsernamePasswordAuthenticationToken(userDetails, None, userDetails.GetAuthorities())))
                else (Forwarded, prior)
    }

    method DoFilterInternal(authHeader: Option<string>, securityContext: SecurityContext, chain: FilterChain, now: int)
      returns (outcome: Outcome)
      modifies securityContext, chain
      ensures (outcome, securityContext.authentication) == Gate(authHeader, old(securityContext.authentication), now)
      ensures chain.forwarded == old(chain.forwarded) + (if outcome == Forwarded then 1 else 0)
    {
      var token: Option<string> := None;
      var username: Option<string> := None;

      if authHeader.Some? && StartsWith(authHeader.value, BearerPrefix) {
        token := Some(authHeader.value[7..]);
        var extracted := jwtService.ExtractUserName(token.value);
        if extracted.Failure? {
          return Threw(TokenError(extracted.error));
        }
        username := Some(extracted.value);
      }

      if username.Some? && securityContext.authentication.None? {
        var loaded := userDetailsService.LoadUserByUsername(username.value);
        if loaded.Failure? {
          return Threw(LookupError(loaded.error));
        }
        var userDetails := loaded.value;
        var valid := jwtService.ValidateToken(token.value, userDetails, now);
        if valid.Failure? {
          return Threw(TokenError(valid.error));
        }
        if valid.value {
          var authToken := UsernamePasswordAuthenticationToken(userDetails, None, userDetails.GetAuthorities());
          securityContext.SetAuthentication(authToken);
        }
      }

      chain.DoFilter();
      outcome := Forwarded;
    }
  }

  // ---------------------------------------------------------------------------
  // Properties of one pass

  /** Without a bearer header nothing is looked up, the context is unchanged, and the request goes on. */
  lemma NoBearerPassesThrough(f: JwtFilter, authHeader: Option<string>, prior: Option<Authentication>, now: int)
    requires authHeader.None? || !StartsWith(authHeader.value, BearerPrefix)
    ensures f.Gate(authHeader, prior, now) == (Forwarded, prior)
  {
  }

  /** An authentication already in the context is never replaced. */
  lemma ExistingAuthenticationKept(f: JwtFilter, authHeader: Option<string>, prior: Option<Authentication>, now: int)
    requires prior.Some?
    ensures f.Gate(authHeader, prior, now).1 == prior
  {
  }

  /**
   * On an unauthenticated request the gate records an authentication exactly when
   * the bearer token parses under the service key, its subject is a stored user
   * whose row carries that name, and it has not expired; the authentication holds
   * that user's principal, no credentials and the authority "USER".
   */
  lemma AuthenticatedIff(f: JwtFilter, authHeader: Option<string>, now: int)
    ensures var token := BearerToken(authHeader);
            var rows := f.userDetailsService.repo.rows;
            var parsed := if token.Some? then Parse(f.jwtService.secretKey, token.value) else Failure(Malformed);
            f.Gate(authHeader, None, now).1.Some?
            <==> (parsed.Success? && parsed.value.subject in rows
                  && rows[parsed.value.subject].username == parsed.value.subject
                  && now <= parsed.value.expiration)
    ensures f.Gate(authHeader, None, now).1.Some? ==>
            f.Gate(authHeader, None, now) ==
              (Forwarded, Some(UsernamePasswordAuthenticationToken(
                 UserPrincipal(f.userDetailsService.repo.rows[Parse(f.jwtService.secretKey, BearerToken(authHeader).value).value.subject]),
                 None, {SimpleGrantedAuthority("USER")})))
  {
  }

  /** A token that parses but is for another user or expired leaves the request anonymous and forwards it. */
  lemma InvalidTokenForwardedAnonymous(f: JwtFilter, t: string, now: int)
    requires Parse(f.jwtService.secretKey, t).Success?
    requires Parse(f.jwtService.secretKey, t).value.subject in f.userDetailsService.repo.rows
    requires var claims := Parse(f.jwtService.secretKey, t).value;
             f.userDetailsService.repo.rows[claims.subject].username != claims.subject || now > claims.expiration
    ensures f.Gate(Some(BearerPrefix + t), None, now) == (Forwarded, None)
  {
  }

  /** A bearer token that does not parse under the service key ends the request with that error. */
  lemma UnparsableTokenThrows(f: JwtFilter, t: string, prior: Option<Authentication>, now: int)
    requires Parse(f.jwtService.secretKey, t).Failure?
    ensures f.Gate(Some(BearerPrefix + t), prior, now)
            == (Threw(TokenError(Parse(f.jwtService.secretKey, t).error)), prior)
  {
  }

  /** On an unauthenticated request, a token for a user missing from the store ends the request with "not found". */
  lemma UnknownUserThrows(f: JwtFilter, t: string, now: int)
    requires Parse(f.jwtService.secretKey, t).Success?
    requires Parse(f.jwtService.secretKey, t).value.subject !in f.userDetailsService.repo.rows
    ensures var name := Parse(f.jwtService.secretKey, t).value.subject;
            f.Gate(Some(BearerPrefix + t), None, now)
            == (Threw(LookupError(UsernameNotFoundException(name + " not found"))), None)
  {
  }

  /** A pass that throws leaves the context as it was. */
  lemma ThrowLeavesContext(f: JwtFilter, authHeader: Option<string>, prior: Option<Authentication>, now: int)
    requires f.Gate(authHeader, prior, now).0.Threw?
    ensures f.Gate(authHeader, prior, now).1 == prior
  {
  }

  /** "Authorization: Bearer garbage" is not treated as anonymous: the parse error propagates. */
  lemma GarbageBearerThrows(f: JwtFilter, prior: Option<Authentication>, now: int)
    ensures f.Gate(Some("Bearer garbage"), prior, now) == (Threw(TokenError(Malformed)), prior)
  {
    NoSeparatorMalformed(f.jwtService.secretKey, "garbage");
    assert "Bearer garbage" == BearerPrefix + "garbage";
    UnparsableTokenThrows(f, "garbage", prior, now);
  }

  /**
   * End to end: a token the filter's own service issued for a stored user, presented
   * as "Bearer " + token on an unauthenticated request before it expires, authenticates
   * the request as that user; presented after it expires, it leaves the request anonymous.
   */
  lemma IssuedTokenAuthenticates(f: JwtFilter, username: string, issueClock: int, expiryClock: int, now: int)
    requires f.userDetailsService.repo.Valid() && username in f.userDetailsService.repo.rows
    ensures var token := f.jwtService.GenerateToken(username, issueClock, expiryClock);
            var principal := UserPrincipal(f.userDetailsService.repo.rows[username]);
            f.Gate(Some(BearerPrefix + token), None, now)
            == if now <= expiryClock + ExpiryMillis
               then (Forwarded, Some(UsernamePasswordAuthenticationToken(principal, None, {SimpleGrantedAuthority("USER")})))
               else (Forwarded, None)
  {
  }
}
