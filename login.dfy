/**
 * UserService: registration and login.
 *
 * Registration overwrites the entity's password with its encoding and saves the
 * entity, with no check for an existing user of that name. Login asks the
 * authentication manager about the credentials and, when it reports success,
 * issues a token; otherwise it answers with the literal "Failure".
 * The password encoder (BCrypt) is an uninterpreted function; the authentication
 * manager's answer and the two clock readings are parameters.
 */
module Login {
  import opened Wrappers
  import opened Compact
  import opened Accounts
  import opened Tokens

  /** What the authentication manager does with the credentials: returns an answer, or throws. */
  datatype AuthenticationResult =
    | Authenticated(isAuthenticated: bool)
    | AuthenticationException(message: string)

  const FailureReply: string := "Failure"

  class UserService {
    const repo: UserRepo
    const jwtService: JwtService
    const encode: string -> string

    constructor (repo: UserRepo, jwtService: JwtService, encode: string -> string)
      ensures this.repo == repo && this.jwtService == jwtService && this.encode == encode
    {
      this.repo := repo;
      this.jwtService := jwtService;
      this.encode := encode;
    }

    /**
     * Replaces the entity's password by its encoding, in place, and saves the entity;
     * returns the saved row, encoded password included.
     */
    method Register(user: Users) returns (saved: UserRecord)
      modifies user, repo
      ensures user.username == old(user.username)
      ensures user.password == encode(old(user.password))
      ensures saved == UserRecord(old(user.username), encode(old(user.password)))
      ensures repo.rows == old(repo.rows)[old(user.username) := saved]
      ensures old(repo.Valid()) ==> repo.Valid()
    {
      user.SetPassword(encode(user.password));
      saved := repo.Save(user.Record());
    }

    /**
     * The login reply: a token for the user when the authentication manager reports
     * success, "Failure" when it reports failure; an exception it throws propagates.
     */
    function Verify(user: Users, authentication: AuthenticationResult, issueClock: int, expiryClock: int): (r: Result<string, string>)
      reads user
      ensures authentication == Authenticated(true) ==>
        r.Success? && Parse(jwtService.secretKey, r.value)
                      == Success(Token(user.username, issueClock, expiryClock + ExpiryMillis, jwtService.secretKey))
      ensures authentication == Authenticated(false) ==> r == Success("Failure")
      ensures authentication.AuthenticationException? ==> r == Failure(authentication.message)
    {
      match authentication
      case AuthenticationException(message) => Failure(message)
      case Authenticated(ok) =>
        if ok then Success(jwtService.GenerateToken(user.username, issueClock, expiryClock))
        else Success(FailureReply)
    }
  }

  /** The failure reply is not a token: no service accepts it, so a client cannot mistake it for one. */
  lemma FailureReplyIsNoToken(svc: JwtService)
    ensures svc.ExtractUserName(FailureReply) == Failure(Malformed)
  {
    NoSeparatorMalformed(svc.secretKey, FailureReply);
  }

  /** A successful login's reply names the user who logged in. */
  lemma LoginTokenNamesUser(svc: UserService, user: Users, issueClock: int, expiryClock: int)
    ensures var reply := svc.Verify(user, Authenticated(true), issueClock, expiryClock);
            reply.Success? && svc.jwtService.ExtractUserName(reply.value) == Success(user.username)
  {
  }
}
