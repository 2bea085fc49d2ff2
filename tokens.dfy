/**
 * JWTService: issues and checks the bearer tokens.
 *
 * The service holds one signing key, chosen when it is constructed and never
 * changed. The random key generator and the clock are not modelled: the key is a
 * constructor argument, and each clock reading is a parameter in milliseconds.
 */
module Tokens {
  import opened Wrappers
  import opened Compact
  import opened Principals

  /**
   * Token lifetime in milliseconds, as the issuing code writes it: 60 * 60 * 30,
   * which is 108000 ms (108 seconds).
   */
  const ExpiryMillis: int := 60 * 60 * 30

  class JwtService {
    const secretKey: Key

    constructor (generatedKey: Key)
      ensures secretKey == generatedKey
    {
      secretKey := generatedKey;
    }

    /**
     * A token for `username`, issued at the clock reading `issueClock` and expiring
     * ExpiryMillis after the later reading `expiryClock`. No claim besides subject,
     * issued-at and expiration is set, and it is signed with this service's key.
     */
    function GenerateToken(username: string, issueClock: int, expiryClock: int): (token: string)
      ensures Parse(secretKey, token) == Success(Token(username, issueClock, expiryClock + ExpiryMillis, secretKey))
    {
      var t := Token(username, issueClock, expiryClock + ExpiryMillis, secretKey);
      ReadWire(t);
      Wire(t)
    }

    /** The subject of `token`, read only once the token has been checked against this key. */
    function ExtractUserName(token: string): (r: Result<string, JwtError>)
      ensures r.Success? <==> Parse(secretKey, token).Success?
      ensures r.Failure? ==> r.error == Parse(secretKey, token).error
      ensures r.Success? ==> r.value == Parse(secretKey, token).value.subject
    {
      var claims :- Parse(secretKey, token);
      Success(claims.subject)
    }

    function ExtractExpiration(token: string): (r: Result<int, JwtError>)
      ensures r.Success? <==> Parse(secretKey, token).Success?
      ensures r.Success? ==> r.value == Parse(secretKey, token).value.expiration
    {
      var claims :- Parse(secretKey, token);
      Success(claims.expiration)
    }

    /** Whether the expiration lies strictly before `now`. */
    function IsTokenExpired(token: string, now: int): (r: Result<bool, JwtError>)
      ensures r.Success? <==> Parse(secretKey, token).Success?
      ensures r.Success? ==> (r.value <==> Parse(secretKey, token).value.expiration < now)
    {
      var expiration :- ExtractExpiration(token);
      Success(expiration < now)
    }

    /**
     * A token is valid for `userDetails` at `now` when it parses under this key,
     * names that user, and has not expired: it is still valid at the very instant
     * `now` equals its expiration. A token that does not parse is an error, not `false`.
     */
    function ValidateToken(token: string, userDetails: UserPrincipal, now: int): (r: Result<bool, JwtError>)
      ensures Parse(secretKey, token).Failure? ==> r == Failure(Parse(secretKey, token).error)
      ensures Parse(secretKey, token).Success? ==>
        r == Success(Parse(secretKey, token).value.subject == userDetails.GetUsername()
                     && now <= Parse(secretKey, token).value.expiration)
    {
      var userName :- ExtractUserName(token);
      if userName != userDetails.GetUsername() then Success(false)
      else
        match IsTokenExpired(token, now)
        case Failure(e) => Failure(e)
        case Success(expired) => Success(!expired)
    }
  }

  /** A token issued for `username` yields `username` back from the same service. */
  lemma ExtractGenerated(svc: JwtService, username: string, issueClock: int, expiryClock: int)
    ensures svc.ExtractUserName(svc.GenerateToken(username, issueClock, expiryClock)) == Success(username)
  {
  }

  /**
   * When the second clock reading is not earlier than the first, a token lives at
   * least ExpiryMillis: expiration - issuedAt >= 108000.
   */
  lemma TokenLifetime(svc: JwtService, username: string, issueClock: int, expiryClock: int)
    requires issueClock <= expiryClock
    ensures var t := Parse(svc.secretKey, svc.GenerateToken(username, issueClock, expiryClock)).value;
            t.issuedAt == issueClock && t.expiration - t.issuedAt >= 108000
  {
  }

  /**
   * A freshly issued token is valid for its own user exactly up to and including
   * its expiration instant (for other users see ForeignUserNeverValid).
   */
  lemma FreshTokenValidity(svc: JwtService, user: UserPrincipal, issueClock: int, expiryClock: int, now: int)
    ensures svc.ValidateToken(svc.GenerateToken(user.GetUsername(), issueClock, expiryClock), user, now)
            == Success(now <= expiryClock + 108000)
  {
  }

  /** A token whose owner differs from the principal never validates, whenever it is checked. */
  lemma ForeignUserNeverValid(svc: JwtService, name: string, user: UserPrincipal, issueClock: int, expiryClock: int, now: int)
    requires name != user.GetUsername()
    ensures svc.ValidateToken(svc.GenerateToken(name, issueClock, expiryClock), user, now) == Success(false)
  {
  }

  /**
   * A subject is only ever read from a token this service's key produced: whatever
   * string yields a user name is the wire form of a token for that name under that key.
   */
  lemma ExtractOnlyOwnTokens(svc: JwtService, token: string)
    requires svc.ExtractUserName(token).Success?
    ensures exists issuedAt: int, expiration: int ::
      token == Wire(Token(svc.ExtractUserName(token).value, issuedAt, expiration, svc.secretKey))
  {
    var t := Parse(svc.secretKey, token).value;
    ParseCharacterised(svc.secretKey, token, t);
    assert token == Wire(Token(t.subject, t.issuedAt, t.expiration, svc.secretKey));
  }

  /** A token issued by a service with another key is refused: an error, never a subject. */
  lemma ForeignKeyRejected(issuer: JwtService, verifier: JwtService, user: UserPrincipal,
                           issueClock: int, expiryClock: int, now: int)
    requires issuer.secretKey != verifier.secretKey
    ensures var token := issuer.GenerateToken(user.GetUsername(), issueClock, expiryClock);
            verifier.ExtractUserName(token) == Failure(SignatureInvalid)
            && verifier.ValidateToken(token, user, now) == Failure(SignatureInvalid)
  {
  }
}
