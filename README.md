# Secure-App authentication core, modelled in Dafny

Secure-App is a small Spring Boot service. Users register with a username and
password, log in to obtain a signed JWT bearer token, and present that token in
an `Authorization: Bearer <token>` header on later requests. This project models
the part of the application that makes its own decisions:

- **JWTService**: one signing key, set at construction and then fixed. Tokens
  carry only subject, issued-at and expiration. A token validates when its
  subject is the user's name and its expiration is not strictly before now.
- **JwtFilter.doFilterInternal**: the per-request gate. It tests the header for
  the `"Bearer "` prefix, drops those 7 characters and extracts the subject. It
  skips an already-authenticated request, loads the user, validates the token,
  records the authentication and forwards the request. Errors from extraction or
  lookup are not caught.
- **MyUserDetailsService.loadUserByUsername**: a store lookup. An absent user is
  a "not found" error; a present user is wrapped in a principal.
- **UserPrincipal**: wraps one stored user. Its authorities are always `{"USER"}`
  and its four account flags are always true.
- **UserService**: `register` overwrites the entity's password with its encoding
  and saves the entity. `verify` returns a token when authentication succeeds
  and the literal `"Failure"` otherwise.

Layout, one module per file:

| file | module | models |
|---|---|---|
| wrappers.dfy | Wrappers | Option (null) and Result (thrown exceptions) |
| accounts.dfy | Accounts | the `Users` entity (a class), a stored row `UserRecord`, the store `UserRepo` |
| principals.dfy | Principals | `UserPrincipal` |
| compact.dfy | Compact | a stand-in for the signed compact token form, and parsing with a key |
| tokens.dfy | Tokens | `JWTService` |
| user_details.dfy | UserDetails | `MyUserDetailsService` |
| filter.dfy | Filter | `JwtFilter`, the security context and the filter chain |
| login.dfy | Login | `UserService` |
| scenario.dfy | Scenario | the register, login, protected-request flow on fresh objects |

Abstractions:

- The signing key is a constructor argument. The key generator is not modelled.
- The clock is a parameter, an integer number of milliseconds. `generateToken`
  reads the clock twice, once for issued-at and once for expiration, so it
  takes two readings.
- BCrypt is an uninterpreted function `encode: string -> string`.
- The authentication manager's answer is an input: it either returns an
  authentication (authenticated or not) or throws.
- The user table is a map from username to row.
- A token is a record `{subject, issuedAt, expiration, keyId}`. `keyId` is the
  identity of the key that signed it. Its wire form is a stand-in for RFC 7515
  compact serialisation: four escaped fields, each ending in `.`, with the times
  written in decimal. `Compact.ParseCharacterised` proves the key property:
  parsing `s` with key `k` gives token `t` exactly when `s` is the wire form of
  `t` and `t` was signed with `k`.

Behaviour of the code worth noting:

- **Token lifetime.** The expiry literal `60 * 60 * 30` is added to a
  millisecond clock reading, so a token lives 108000 ms (108 seconds).
- **Expiry boundary.** `before` is strict, so a token is still valid at the
  instant `now == expiration`.
- **Foreign-key tokens.** On a token signed with another key, `validateToken`
  fails with the parse error.
- **Unparsable bearer token.** In the filter, `Bearer garbage` ends the request
  with the parse error, and the request is not forwarded.
- **Unknown user.** On a request that is not yet authenticated, a token whose
  subject is not stored ends the request with the "not found" error. On a
  request that already holds an authentication, the lookup is skipped and the
  request is forwarded.

## Model

| member | source | states |
|---|---|---|
| Compact.ParseCharacterised | src/main/java/com/srinjay/secureApp/service/JWTService.java:96-101 | `Parse` (the stand-in for the signed-claims parser) with key k yields token t if and only if the string is exactly `Wire(t)` (the stand-in for the compact form) and t was signed with k; nothing else parses |
| Compact.ReadWire | src/main/java/com/srinjay/secureApp/service/JWTService.java:55-63 | reading an issued wire form gives back every claim and the signing key unchanged |
| Compact.WireOfRead | src/main/java/com/srinjay/secureApp/service/JWTService.java:96-101 | any string that reads as a token is that token's wire form: no second spelling is accepted |
| Compact.ForeignSignatureRejected | src/main/java/com/srinjay/secureApp/service/JWTService.java:97-100 | a well-formed token signed with another key is rejected with a signature error |
| Compact.NoSeparatorMalformed | src/main/java/com/srinjay/secureApp/service/JWTService.java:100 | a string with no field separator is rejected as malformed under any key |
| Tokens.JwtService.constructor | src/main/java/com/srinjay/secureApp/service/JWTService.java:31-45 | the signing key is the generated key, held in a constant that nothing later changes |
| Tokens.JwtService.GenerateToken | src/main/java/com/srinjay/secureApp/service/JWTService.java:53-64 | the token parses under the service key to subject = username, issued-at = first clock reading, expiration = second reading + 60*60*30, and no other claim |
| Tokens.JwtService.ExtractUserName | src/main/java/com/srinjay/secureApp/service/JWTService.java:77-102 | a subject is returned exactly when the token parses under the service key, and is that token's subject; otherwise the parse error |
| Tokens.JwtService.ExtractExpiration | src/main/java/com/srinjay/secureApp/service/JWTService.java:124-126 | the expiration claim, returned only from a token that parses under the service key |
| Tokens.JwtService.IsTokenExpired | src/main/java/com/srinjay/secureApp/service/JWTService.java:117-119 | true exactly when the expiration is strictly before now; an error when the token does not parse |
| Tokens.JwtService.ValidateToken | src/main/java/com/srinjay/secureApp/service/JWTService.java:109-112 | for a token that parses, true if and only if subject = the user's name and now <= expiration; an unparsable token is an error, never true or false |
| Tokens.ExtractGenerated | src/main/java/com/srinjay/secureApp/service/JWTService.java:53-79 | extracting the user name from a token the same service issued gives back the username |
| Tokens.TokenLifetime | src/main/java/com/srinjay/secureApp/service/JWTService.java:59-60 | issued-at is the first clock reading, and when the second reading is not earlier, expiration - issued-at >= 108000 |
| Tokens.FreshTokenValidity | src/main/java/com/srinjay/secureApp/service/JWTService.java:109-119 | a freshly issued token validates for its user exactly while now <= second reading + 108000, including the expiry instant itself |
| Tokens.ForeignUserNeverValid | src/main/java/com/srinjay/secureApp/service/JWTService.java:109-111 | a token issued for another name validates as false for this principal, at any time |
| Tokens.ExtractOnlyOwnTokens | src/main/java/com/srinjay/secureApp/service/JWTService.java:88-101 | any token that yields a user name is the wire form of a token for that name signed with the service's own key |
| Tokens.ForeignKeyRejected | src/main/java/com/srinjay/secureApp/service/JWTService.java:96-101 | a token issued by a service with another key yields a signature error from extraction and from validation, never a subject |
| Accounts.Users.SetPassword | src/main/java/com/srinjay/secureApp/service/UserService.java:43 | the entity's password is replaced and its username kept |
| Accounts.UserRepo.FindByUsername | src/main/java/com/srinjay/secureApp/repo/UserRepo.java:9 | a row is found exactly when the username is stored, it is that stored row, and in a well-keyed store it carries the username asked for |
| Accounts.UserRepo.Save | src/main/java/com/srinjay/secureApp/service/UserService.java:44 | the row is written under its username, replacing any earlier row, and returned as saved; a well-keyed store stays well keyed |
| Principals.PrincipalExposesUser | src/main/java/com/srinjay/secureApp/model/UserPrincipal.java:19-41 | the principal reports the wrapped user's username and stored password |
| Principals.AuthoritiesAreFixed | src/main/java/com/srinjay/secureApp/model/UserPrincipal.java:24-29 | every principal's authorities are exactly {USER}, whichever user it wraps |
| Principals.AccountAlwaysUsable | src/main/java/com/srinjay/secureApp/model/UserPrincipal.java:43-69 | the four account flags are true for every principal |
| UserDetails.MyUserDetailsService.LoadUserByUsername | src/main/java/com/srinjay/secureApp/service/MyUserDetailsService.java:23-40 | fails exactly when the username is absent, with the message username + " not found"; otherwise wraps the stored row, whose username (in a well-keyed store) is the one asked for; reads the store only |
| UserDetails.LoadedPrincipalMatchesRow | src/main/java/com/srinjay/secureApp/service/MyUserDetailsService.java:27-39 | a stored user's principal carries the stored username and the stored (encoded) password |
| Filter.SecurityContext.SetAuthentication | src/main/java/com/srinjay/secureApp/config/JwtFilter.java:78 | the context afterwards holds exactly the given authentication |
| Filter.FilterChain.DoFilter | src/main/java/com/srinjay/secureApp/config/JwtFilter.java:83 | the request is passed on once more |
| Filter.BearerToken | src/main/java/com/srinjay/secureApp/config/JwtFilter.java:50-51 | a token is taken exactly when the header is present and starts with "Bearer ", and the header is then "Bearer " followed by the token |
| Filter.BearerTokenOf | src/main/java/com/srinjay/secureApp/config/JwtFilter.java:51 | for the header "Bearer " + t the extracted token is exactly t |
| Filter.JwtFilter.DoFilterInternal | src/main/java/com/srinjay/secureApp/config/JwtFilter.java:39-84 | the outcome and the new authentication are those of `Gate` (the filter's steps as one function) for the header, the earlier authentication and now; the request is forwarded exactly once on normal completion and not at all when an error propagates |
| Filter.NoBearerPassesThrough | src/main/java/com/srinjay/secureApp/config/JwtFilter.java:45-57 | with no header, or one that does not start with "Bearer ", the context is unchanged and the request is forwarded |
| Filter.ExistingAuthenticationKept | src/main/java/com/srinjay/secureApp/config/JwtFilter.java:57 | an authentication already in the context is never overwritten |
| Filter.AuthenticatedIff | src/main/java/com/srinjay/secureApp/config/JwtFilter.java:57-79 | on an unauthenticated request an authentication is set if and only if the token parses under the service key, its subject is a stored user whose row has that name, and now <= expiration; it holds that user's principal (looked up by the extracted name), no credentials and {USER} |
| Filter.InvalidTokenForwardedAnonymous | src/main/java/com/srinjay/secureApp/config/JwtFilter.java:64-83 | a parsable token for the wrong user, or past its expiration with a parser that does not itself check exp, leaves the request unauthenticated and still forwards it |
| Filter.UnparsableTokenThrows | src/main/java/com/srinjay/secureApp/config/JwtFilter.java:50-53 | a bearer token that does not parse under the service key ends the pass with that error, context unchanged |
| Filter.UnknownUserThrows | src/main/java/com/srinjay/secureApp/config/JwtFilter.java:57-61 | on an unauthenticated request, a token whose subject is not stored ends the pass with subject + " not found" |
| Filter.ThrowLeavesContext | src/main/java/com/srinjay/secureApp/config/JwtFilter.java:52-78 | a pass that ends in an error leaves the context as it was |
| Filter.GarbageBearerThrows | src/main/java/com/srinjay/secureApp/config/JwtFilter.java:50-53 | the header "Bearer garbage" ends the pass with a malformed-token error, not as anonymous |
| Filter.IssuedTokenAuthenticates | src/main/java/com/srinjay/secureApp/config/JwtFilter.java:45-83 | a token the filter's own service issued for a stored user authenticates an unauthenticated request as that user up to its expiry instant, and, with a parser that does not itself check exp, leaves it anonymous afterwards |
| Login.UserService.Register | src/main/java/com/srinjay/secureApp/service/UserService.java:42-45 | the entity's password becomes encode(old password), its username is unchanged, the store gets that row under the username whether or not one existed, and the saved row, hash included, is returned |
| Login.UserService.Verify | src/main/java/com/srinjay/secureApp/service/UserService.java:56-73 | on success the reply is a token that parses to the user's name with the usual issued-at and expiration; on failure the reply is "Failure"; an exception from authentication propagates; the store is not read or written |
| Login.FailureReplyIsNoToken | src/main/java/com/srinjay/secureApp/service/UserService.java:72 | the reply "Failure" is not a token: extracting a user name from it is a malformed-token error |
| Login.LoginTokenNamesUser | src/main/java/com/srinjay/secureApp/service/UserService.java:67-68 | a successful login's token yields the logged-in username back |
| Scenario.RegisterThenLogin | src/main/java/com/srinjay/secureApp/controller/UserController.java:17-25 | registering then logging in on a fresh store leaves exactly one row, holding the encoded password, and replies with the service's token for the username |
| Scenario.RegisterLoginAccess | src/main/java/com/srinjay/secureApp/controller/UserController.java:17-25 | after registering and logging in, the issued token as a bearer header authenticates the request as that user; no header leaves it anonymous and forwarded; "Bearer garbage" ends it with a malformed-token error |

## Left out

- Cryptography is not modelled. This covers HMAC-SHA256 key generation, the
  Base64 round trip of the key and signing with it (JWTService.java:39-41,
  62, 69-72). A key is an identity carried in the token. Anyone who knows that
  identity can therefore build a token the model accepts. Signature
  unforgeability, and rejection of a payload tampered under the right key, are
  properties of HMAC and are not modelled.
- The exception wrapped at JWTService.java:42-44 (no HmacSHA256 provider) is not
  modelled. The constructor always succeeds.
- The jjwt library's compact serialisation and parser are replaced by the
  stand-in in compact.dfy. The library's own check of `exp` during parsing is
  not modelled. NumericDate truncation to whole seconds (section 2 of RFC 7519)
  is also not modelled.
- Tokens without a subject claim are not modelled. Whether `.subject(username)`
  at JWTService.java:58 drops a blank username, giving a token with no subject,
  is library behaviour. The model's tokens always carry the subject, so the
  filter's `username != null` test at JwtFilter.java:57 fails only when there
  is no bearer header. A token issued for the empty username therefore
  authenticates in the model, where the real program might forward the request
  anonymously.
- Login.UserService.Register: states that the stored password is
  encode(original password). That it differs from the plaintext is a BCrypt
  property and is not modelled, because `encode` is uninterpreted.
- Spring's AuthenticationManager and DaoAuthenticationProvider are not
  modelled. Their answer is an input to `Verify`, and in the scenario it is
  taken as success.
- The request details at JwtFilter.java:75 (remote address and session) are
  not modelled.
- `SecurityContextHolder` is thread-local and requests run concurrently. The
  model gives each request its own context object.
- The filter fetches the lookup service through `ApplicationContext.getBean`.
  In the model the filter holds that service directly.
- The request and response objects are not modelled. The filter chain only
  counts forwards.
- Users.java is not part of this model. Its entity is modelled as username and
  password, without the integer id. The model's store is keyed by username, so
  a second registration under the same name overwrites the first. What the real
  table does then depends on Users.java: it may add a second row, or a unique
  constraint on the username may make `save` fail.
- Null request fields are not modelled: model strings are never null. A
  registration body with no password would reach `encoder.encode(null)` at
  UserService.java:43.
- The console message printed at MyUserDetailsService.java:31 when a user is
  not found is output only and is not modelled.
- Aliasing between the principal and the entity is not modelled. A
  `UserPrincipal` wraps a row value, but the Java principal holds a reference to
  the entity object.
- Framework wiring in AppSecurityConfig.java is not modelled: the filter chain,
  CSRF, HTTP basic, the session policy, the `/register` and `/login` allow-list
  and filter ordering. HomeController.java is also left out. UserController.java
  appears only as the flow in scenario.dfy.
