/**
 * The register, login, protected-request flow that the two endpoints and the
 * filter make up, run on fresh objects: the flow's outcome follows from the
 * contracts of the parts alone. The authentication manager's answer to the login
 * is taken to be success (checking a password against its BCrypt hash is not modelled).
 */
module Scenario {
  import opened Wrappers
  import opened Compact
  import opened Accounts
  import opened Principals
  import opened Tokens
  import opened UserDetails
  import opened Filter
  import opened Login

  /** Registers `username` with `password` on a fresh store and service, then logs in with the same credentials. */
  method RegisterThenLogin(username: string, password: string, key: Key, encode: string -> string,
                           issueClock: int, expiryClock: int)
    returns (repo: UserRepo, jwtService: JwtService, token: string)
    ensures fresh(repo) && repo.rows == map[username := UserRecord(username, encode(password))]
    ensures jwtService.secretKey == key
    ensures token == jwtService.GenerateToken(username, issueClock, expiryClock)
  {
    repo := new UserRepo();
    jwtService := new JwtService(key);
    var userService := new UserService(repo, jwtService, encode);

    var registration := new Users(username, password);
    var saved := userService.Register(registration);

    var credentials := new Users(username, password);
    var reply := userService.Verify(credentials, Authenticated(true), issueClock, expiryClock);
    token := reply.value;
  }

  /**
   * Registers `username`, logs in, and sends three requests: one with the issued
   * token as a bearer header, one with no header, one with "Bearer garbage".
   * Returns each request's outcome and the authentication its context ends with.
   */
  method RegisterLoginAccess(username: string, password: string, key: Key, encode: string -> string,
                             issueClock: int, expiryClock: int, now: int)
    returns (withToken: (Outcome, Option<Authentication>),
             withoutHeader: (Outcome, Option<Authentication>),
             withGarbage: (Outcome, Option<Authentication>))
    requires now <= expiryClock + ExpiryMillis
    ensures withToken == (Forwarded, Some(UsernamePasswordAuthenticationToken(
                            UserPrincipal(UserRecord(username, encode(password))), None, {SimpleGrantedAuthority("USER")})))
    ensures withoutHeader == (Forwarded, None)
    ensures withGarbage == (Threw(TokenError(Malformed)), None)
  {
    var repo, jwtService, token := RegisterThenLogin(username, password, key, encode, issueClock, expiryClock);
    var userDetailsService := new MyUserDetailsService(repo);
    var filter := new JwtFilter(jwtService, userDetailsService);
    var chain := new FilterChain();

    var context := new SecurityContext();
    IssuedTokenAuthenticates(filter, username, issueClock, expiryClock, now);
    var outcome := filter.DoFilterInternal(Some(BearerPrefix + token), context, chain, now);
    withToken := (outcome, context.authentication);

    context := new SecurityContext();
    outcome := filter.DoFilterInternal(None, context, chain, now);
    withoutHeader := (outcome, context.authentication);

    context := new SecurityContext();
    GarbageBearerThrows(filter, None, now);
    outcome := filter.DoFilterInternal(Some("Bearer garbage"), context, chain, now);
    withGarbage := (outcome, context.authentication);
  }
}
