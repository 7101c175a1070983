# User registration and session model

A Dafny model of the user service of a small Spring web application. Users
register with a name, an email, a password and phones. They log in with an
email and a password, and then call the protected routes with a bearer
token. The model covers:

- the user service (`UserServiceImpl`): registration, login, lookup by id, listing;
- the user and phone stores it shares with the authentication filter and the seeder;
- the session-token codec (`JwtTokenUtil`);
- the per-request authentication gate (`JwtAuthenticationFilter`);
- the route authorization table (`SecurityConfig`);
- the password policy check (`PasswordValidator`);
- the error-response shaping (`GlobalExceptionHandler`);
- the start-up administrator seeding (`DataSeeder`).

The main theorem is single active session. `login` overwrites the stored
token, and the gate accepts a token only when it equals the stored one, so
a new login retires the previous token (`Sessions.LoginRetiresEarlierToken`,
`Gate.OnlyStoredTokenAuthenticates`). `Sessions.SessionScenario` runs the
whole sequence: register, log in twice, present the first and then the
second login's token.

Files, one module each: `Wrappers.dfy` (Option, Result), `Text.dfy`
(decimal fields), `PasswordEncoder.dfy`, `JwtTokenUtil.dfy`, `Entities.dfy`,
`Repositories.dfy`, `UserServiceImpl.dfy`, `JwtAuthenticationFilter.dfy`,
`Sessions.dfy`, `SecurityConfig.dfy`, `PasswordValidator.dfy`,
`GlobalExceptionHandler.dfy`, `DataSeeder.dfy`.

Modelling choices:

- **Stores.** The user store is a class holding a `seq<User>`. A user's id
  is its position in the store, standing for the generated UUID. The store's
  invariant (`WellFormed`) is that ids are positions and that emails are
  unique, as the email column's unique constraint demands. `Insert` refuses
  a duplicate email the way that constraint does. The service and the
  seeder are proved never to reach that refusal.
- **Passwords.** BCrypt is replaced by a concrete digest: the version
  marker, the salt as a decimal field, then the password. The salt, random
  in the original, is a parameter. The stand-in has the properties callers
  rely on: a digest matches its own password and differs from the
  plaintext. It also matches no other password, which BCrypt guarantees only
  for passwords of at most 72 bytes (see "## Left out").
- **Tokens.** A token is a concrete string: issue time, expiration, signing
  key id and subject, decimal and '.'-separated. A token "is signed" by a
  key when it carries that key's id. As in a JWT, the issue and expiration
  claims are whole seconds (`NumericDate`): the milliseconds of the clock
  reading are dropped. Parsing follows jjwt's order:
  - a blank string (empty, or only characters for which Java's
    `Character.isWhitespace` holds) is an IllegalArgumentException;
  - then the structure is read (malformed);
  - then the signature is checked;
  - then the expiration, which fails when `now` is after the expiration
    second (jjwt uses a strict `Date.after`).

  `generateToken` reads the clock twice (`TokenClock`): `new Date()` for
  the issue date, then `System.currentTimeMillis()` for the expiration. A
  token whose second reading is `x` ms validates up to and including
  `ExpiryInstant`, the start of its expiration second: between 999 ms and
  0 ms before `x + 60000`. When the two readings straddle a second
  boundary, the expiration claim lies 61 seconds after the issue claim,
  not 60 (`Jwt.GeneratedTokenLifetime`, `Jwt.StraddlingReadingsLiveLonger`).
  Signing is deterministic, so two logins whose readings fall in the same
  seconds, date by date (`SameSeconds`), issue the very same token, and the
  second login does not retire the first one's token
  (`Sessions.SameSecondLoginKeepsToken`). Two logins in the same issue
  second whose expiration readings fall in different seconds issue
  different tokens, and the second does retire the first.
- **Subject of an expired token.** One might expect the subject of an
  expired but well-signed token to stay readable. The code does not allow
  this: `getEmailFromToken` calls the same `parseClaimsJws` as
  `validateToken`, and that call rejects expired tokens. The model follows
  the code (`JwtTokenUtil.GetEmailFromToken` succeeds exactly when
  `ValidateToken` does).
- **Clock.** Time is a parameter (milliseconds), one per reading of the
  original. `createUser` and `login` take the `LocalDateTime.now()` reading
  kept as the last login, and the two readings of `generateToken`. The
  gate's two parses each read the clock. They appear
  as `validatedAt` and `parsedAt`. If a token expires between the two
  readings, `getEmailFromToken` throws out of the filter and the rest of the
  chain does not run (`Gate.ExpiryBetweenReadingsRaises`). With a single
  reading this never happens (`Gate.SingleReadingNeverRaises`).
- **Password pattern.** The regular-expression engine is replaced by a
  predicate on whole strings. `.*` and `\w+\d+!`, the patterns the
  validator's tests set, are written out as predicates.

## Model

| member | source | states |
|---|---|---|
| Jwt.JwtTokenUtil.GenerateToken | src/main/java/com/nisum/users/utils/JwtTokenUtil.java:22-31 | the token decodes to subject = email, issued at the second of the first reading, expiring at the second of the second reading + 60 000 ms, signed with this instance's key |
| Jwt.NumericDateAfterLifetime | src/main/java/com/nisum/users/utils/JwtTokenUtil.java:24-28 | adding the one-minute lifetime to a reading moves its second by exactly 60, whatever the reading's milliseconds |
| Jwt.ExpiryInstant | src/main/java/com/nisum/users/utils/JwtTokenUtil.java:24-28 | the last valid instant of a token whose expiration reading is x is a whole second between x + 59 001 and x + 60 000 ms |
| Jwt.DecodedHasText | src/main/java/com/nisum/users/utils/JwtTokenUtil.java:55-58 | a string that decodes as a token is never blank |
| Jwt.JwtTokenUtil.ParseClaimsJws | src/main/java/com/nisum/users/utils/JwtTokenUtil.java:55-58 | parsing succeeds iff the string decodes, carries this instance's key and now is not after the expiration second; on success it yields the decoded claims; it fails with the IllegalArgumentException iff the string is blank |
| Jwt.JwtTokenUtil.ValidateToken | src/main/java/com/nisum/users/utils/JwtTokenUtil.java:39-46 | true iff parseClaimsJws succeeds at that reading; every parse failure, the IllegalArgumentException of a blank string included, gives false and never escapes |
| Jwt.JwtTokenUtil.GetEmailFromToken | src/main/java/com/nisum/users/utils/JwtTokenUtil.java:54-61 | succeeds exactly when validateToken holds at the same time, and then returns the token's subject; otherwise fails with the error parseClaimsJws raised |
| Jwt.DecodeCompact | src/main/java/com/nisum/users/utils/JwtTokenUtil.java:25-30 | decoding a compact token gives back its claims and signing key |
| Jwt.CompactInjective | src/main/java/com/nisum/users/utils/JwtTokenUtil.java:25-30 | two tokens are equal strings only if they carry the same claims and key |
| Jwt.GetEmailFromGeneratedToken | src/main/java/com/nisum/users/utils/JwtTokenUtil.java:54-60 | getEmailFromToken(generateToken(e)) == e at every reading up to ExpiryInstant |
| Jwt.GeneratedTokenValidates | src/main/java/com/nisum/users/utils/JwtTokenUtil.java:39-45 | a generated token validates under the issuing instance at every reading up to ExpiryInstant |
| Jwt.StraddlingReadingsLiveLonger | src/main/java/com/nisum/users/utils/JwtTokenUtil.java:27-28 | readings of 999 ms and 1 000 ms give issued-at 0 and expiration 61 |
| Jwt.GeneratedTokenExpires | src/main/java/com/nisum/users/utils/JwtTokenUtil.java:39-45 | after ExpiryInstant a generated token no longer validates, and reading its subject fails as expired |
| Jwt.GeneratedTokenLifetime | src/main/java/com/nisum/users/utils/JwtTokenUtil.java:24-28 | issued-at is the first reading's second, expiration the second reading's second + 60, its instant is ExpiryInstant; with readings under a second apart the lifetime is 60 seconds when they share a second and 61 when they straddle one |
| Jwt.ExpiredTokenInvalid | src/main/java/com/nisum/users/utils/JwtTokenUtil.java:39-45 | after its expiration second a token never validates, and reading its subject fails |
| Jwt.BlankTokenRejected | src/main/java/com/nisum/users/utils/JwtTokenUtil.java:39-45 | a blank string does not validate (no exception), and reading its subject fails with the IllegalArgumentException |
| Jwt.ForeignTokenInvalid | src/main/java/com/nisum/users/utils/JwtTokenUtil.java:13 | a token issued under one key never validates under another, and reading its subject fails with a signature error |
| Jwt.MalformedTokenRejected | src/main/java/com/nisum/users/utils/JwtTokenUtil.java:39-45 | on a malformed string validateToken is false (no exception) and getEmailFromToken fails |
| Jwt.InvalidJwtTokenRejected | src/test/java/com/nisum/users/utils/JwtTokenUtilTest.java:50-56 | "invalidJwtToken" does not validate, and reading its subject fails as malformed |
| Jwt.GenerateTokenInjective | src/main/java/com/nisum/users/utils/JwtTokenUtil.java:22-31 | one instance issues equal tokens iff the emails are equal and both pairs of readings fall in the same seconds, date by date |
| PasswordEncoder.MatchesEncode | src/main/java/com/nisum/users/serviceImpl/UserServiceImpl.java:96 | a password matches every digest made from it |
| PasswordEncoder.MatchesOnlyItsPassword | src/main/java/com/nisum/users/serviceImpl/UserServiceImpl.java:96-102 | a digest matches no password other than its own |
| PasswordEncoder.EncodeDiffersFromRaw | src/main/java/com/nisum/users/serviceImpl/UserServiceImpl.java:76 | the stored digest differs from the plaintext |
| Repositories.FindByEmail | src/main/java/com/nisum/users/serviceImpl/UserServiceImpl.java:61 | returns a stored user with that email, and returns nothing iff no stored user has it |
| Repositories.FindByEmailFindsStored | src/main/java/com/nisum/users/entities/User.java:30-32 | with unique emails, looking up a stored user's email finds exactly that user |
| Repositories.FindById | src/main/java/com/nisum/users/serviceImpl/UserServiceImpl.java:54 | returns the stored user with that id, and returns nothing iff there is none |
| Repositories.AppendPreservesWellFormed | src/main/java/com/nisum/users/entities/User.java:31 | adding a user whose email is absent, with the next id, keeps ids and email uniqueness |
| Repositories.ReplacePreservesWellFormed | src/main/java/com/nisum/users/serviceImpl/UserServiceImpl.java:98-100 | overwriting a user in place with the same id and email keeps the invariant |
| Repositories.UserRepository.Insert | src/main/java/com/nisum/users/serviceImpl/UserServiceImpl.java:82 | stores the user with the next id and keeps the invariant; a duplicate email stores nothing |
| Repositories.UserRepository.Update | src/main/java/com/nisum/users/serviceImpl/UserServiceImpl.java:100 | replaces exactly that user's record and keeps the invariant |
| Repositories.PhoneRepository.SaveAll | src/main/java/com/nisum/users/serviceImpl/UserServiceImpl.java:71 | appends the phones in order |
| Users.ToPhones | src/main/java/com/nisum/users/serviceImpl/UserServiceImpl.java:64-69 | one phone per request phone, same order, number/cityCode/countryCode copied field by field |
| Users.UserServiceImpl.GetUsers | src/main/java/com/nisum/users/serviceImpl/UserServiceImpl.java:38-42 | returns every stored user and only those |
| Users.UserServiceImpl.GetUserById | src/main/java/com/nisum/users/serviceImpl/UserServiceImpl.java:51-55 | returns the stored user with that id; fails with "User not found" iff no user has it |
| Users.UserServiceImpl.CreateUser | src/main/java/com/nisum/users/serviceImpl/UserServiceImpl.java:58-83 | a registered email fails with EmailAlreadyExistsException and changes neither store; otherwise the phones are saved and exactly one user is added (request name and email, digest, copied phones, last login now, active, token for the email), keeping email uniqueness |
| Users.UserServiceImpl.Login | src/main/java/com/nisum/users/serviceImpl/UserServiceImpl.java:90-104 | fails iff the email is unknown or the password does not match, in both cases with "Invalid email or password" and no change; on success only that user's token (a fresh token for the email) and last login change |
| Users.CreatedUserProperties | src/test/java/com/nisum/users/serviceImpl/UserServiceImplTest.java:89-99 | the registered user keeps name and email, is active, has as many phones as requested, a digest that matches the password and differs from it, and a token that validates and reads back as the email until it expires |
| Gate.BearerToken | src/main/java/com/nisum/users/config/JwtAuthenticationFilter.java:44-48 | a token is taken iff the header is present and starts with "Bearer "; it is the header minus exactly those 7 characters |
| Gate.AuthenticateToken | src/main/java/com/nisum/users/config/JwtAuthenticationFilter.java:60-77 | an invalid token never authenticates; authentication happens iff the token validates, its subject has a stored user and the stored token equals it; the identity is the subject with the single authority "USER"; an exception escapes only when the token expired between the two clock readings |
| Gate.Filter | src/main/java/com/nisum/users/config/JwtAuthenticationFilter.java:42-51 | without a bearer header the request proceeds unauthenticated; otherwise the decision is authenticateToken on the stripped token |
| Gate.BearerHeaderToken | src/main/java/com/nisum/users/config/JwtAuthenticationFilter.java:46-47 | a header "Bearer " + t carries exactly the token t |
| Gate.StoredTokenAuthenticates | src/main/java/com/nisum/users/config/JwtAuthenticationFilter.java:60-74 | until it expires, a user's stored token presented as a bearer header admits that user with the authority "USER" |
| Gate.SingleReadingNeverRaises | src/main/java/com/nisum/users/config/JwtAuthenticationFilter.java:61-62 | when both parses read the same time, the gate never throws |
| Gate.ExpiryBetweenReadingsRaises | src/main/java/com/nisum/users/config/JwtAuthenticationFilter.java:61-62 | a generated token validated at its ExpiryInstant and parsed 1 ms later makes the gate throw an expiry error |
| Gate.OnlyStoredTokenAuthenticates | src/main/java/com/nisum/users/config/JwtAuthenticationFilter.java:65 | any token that authenticates a stored user is that user's stored token: at most one session per user |
| Gate.JwtAuthenticationFilter.DoFilterInternal | src/main/java/com/nisum/users/config/JwtAuthenticationFilter.java:42-51 | sets the identity exactly when the gate authenticates, leaves the context alone otherwise, and invokes the chain exactly once unless an exception escaped |
| Sessions.LoginRetiresEarlierToken | src/main/java/com/nisum/users/serviceImpl/UserServiceImpl.java:97-98 | after a login stores a new token, a token issued for that user with readings in other seconds authenticates no one |
| Sessions.RetiredTokenRefused | src/main/java/com/nisum/users/serviceImpl/UserServiceImpl.java:97-100 | after a login with readings in other seconds replaced it, an earlier token presented with one clock reading passes the gate without an identity |
| Sessions.SameSecondLoginKeepsToken | src/main/java/com/nisum/users/serviceImpl/UserServiceImpl.java:97-98 | a login whose readings fall in the same seconds as the previous one's stores the very token already held, and the user is still found by email |
| Sessions.SessionScenario | src/main/java/com/nisum/users/config/JwtAuthenticationFilter.java:65 | register, log in twice with readings in different seconds: the registration token is accepted, then the first login's token is refused before it expires and the second login's token accepted |
| SecurityConfig.Decide | src/main/java/com/nisum/users/config/SecurityConfig.java:36-43 | the result is the access of the first matching rule; nothing iff no rule matches |
| SecurityConfig.DecideFirstMatch | src/main/java/com/nisum/users/config/SecurityConfig.java:36-43 | when rule i matches and no earlier rule does, rule i's access is the decision |
| SecurityConfig.RulesAlwaysDecide | src/main/java/com/nisum/users/config/SecurityConfig.java:43 | the configured table decides every request |
| SecurityConfig.IsPublicIff | src/main/java/com/nisum/users/config/SecurityConfig.java:36-43 | a request is public iff it is the login path, a POST to the users collection, or under swagger-ui, v3/api-docs, h2-console or actuator |
| SecurityConfig.LoginIsPublic | src/main/java/com/nisum/users/config/SecurityConfig.java:37 | the login path is public for every HTTP method |
| SecurityConfig.RegistrationPublicListingProtected | src/main/java/com/nisum/users/config/SecurityConfig.java:38 | POST to the users collection is public; every other method on it needs authentication |
| SecurityConfig.UserByIdProtected | src/main/java/com/nisum/users/config/SecurityConfig.java:43 | GET on a user by id needs authentication for every id |
| SecurityConfig.ToolingPathsPublic | src/main/java/com/nisum/users/config/SecurityConfig.java:39-42 | every path below the four tooling roots is public |
| SecurityConfig.UnauthenticatedReachesOnlyPublic | src/main/java/com/nisum/users/config/SecurityConfig.java:36-47 | of the requests the gate lets proceed and the table admits, one without an identity targets a public route, and one on a protected route carries a valid bearer token stored for the user it names |
| Validation.PasswordValidator.IsValid | src/main/java/com/nisum/users/utils/PasswordValidator.java:25-39 | null is invalid and leaves the context alone; otherwise the result is the pattern on the whole value; a mismatch disables the default violation and adds exactly one violation with the configured message; a match leaves the context alone |
| Validation.WordDigitsBangIff | src/test/java/com/nisum/users/utils/PasswordValidatorTest.java:59 | the pattern \w+\d+! matches exactly two or more word characters ending in a digit, then '!' |
| Validation.ValidatorTestCases | src/test/java/com/nisum/users/utils/PasswordValidatorTest.java:22-89 | null is invalid; "" is valid under .*; "Valid123!" is valid and "InvalidPassword" invalid under \w+\d+! |
| ErrorHandling.LinkedMap.Put | src/main/java/com/nisum/users/exceptions/GlobalExceptionHandler.java:31 | put sets the key's value and changes no other; a present key keeps its position, a new key is appended |
| ErrorHandling.CollectFieldErrors | src/main/java/com/nisum/users/exceptions/GlobalExceptionHandler.java:29-32 | the loop's map equals putting every field error in turn |
| ErrorHandling.PutAllLastMessageWins | src/main/java/com/nisum/users/exceptions/GlobalExceptionHandler.java:29-32 | each field's entry is the message of its last error; a field with no error has no entry |
| ErrorHandling.FirstIndexOfSnoc | src/main/java/com/nisum/users/exceptions/GlobalExceptionHandler.java:29-32 | one more error keeps an earlier field's first report, makes the last position the first report of a new field, and reports no other field |
| ErrorHandling.PutAllKeys | src/main/java/com/nisum/users/exceptions/GlobalExceptionHandler.java:29-32 | the keys are exactly the fields some error names |
| ErrorHandling.PutAllKeyOrder | src/main/java/com/nisum/users/exceptions/GlobalExceptionHandler.java:29-32 | keys stand in the order in which their fields were first reported |
| ErrorHandling.HandleValidationExceptions | src/main/java/com/nisum/users/exceptions/GlobalExceptionHandler.java:24-36 | status 400; the body's keys are "error" then "fieldErrors", with "Bad Request" and the collected field errors |
| ErrorHandling.HandleNotFoundException | src/main/java/com/nisum/users/exceptions/GlobalExceptionHandler.java:44-50 | status 404 with exactly "error" = "Not Found" and "message" = the exception's message |
| ErrorHandling.HandleEmailAlreadyExistsException | src/main/java/com/nisum/users/exceptions/GlobalExceptionHandler.java:59-65 | status 409 with exactly "error" = "Conflict" and "message" = "Email already exists" |
| ErrorHandling.HandleServiceError | src/main/java/com/nisum/users/exceptions/GlobalExceptionHandler.java:44-65 | 404 iff not-found, 409 iff conflict, and the message entry is the exception's message |
| Seeding.DataSeeder.Run | src/main/java/com/nisum/users/utils/DataSeeder.java:23-35 | the store becomes the seeded store for the digest of "Admin123" and stays well formed |
| Seeding.SeedAddsAdmin | src/main/java/com/nisum/users/utils/DataSeeder.java:26-33 | without an admin, exactly one user is appended: "Admin", admin@example.com, active, no token, no last login, no phones (the builder leaves the list null, shown as empty), digest matching "Admin123"; uniqueness kept |
| Seeding.SeedKeepsExistingAdmin | src/main/java/com/nisum/users/utils/DataSeeder.java:26 | with a user holding the admin email, seeding changes nothing |
| Seeding.SeedIdempotent | src/main/java/com/nisum/users/utils/DataSeeder.java:26-34 | seeding twice equals seeding once, whatever the second salt |
| Seeding.SeededAdminNotAuthenticated | src/main/java/com/nisum/users/utils/DataSeeder.java:27-32 | the freshly seeded admin has no token, so no token authenticates as admin |

## Left out

- HS256 signing, Base64url/JSON encoding and key generation: tokens use the decimal stand-in described above, and the key is an identifier carried in the token, so forgery resistance is not modelled.
- jjwt drops a blank subject. No caller issues a token for a blank email, so this is not modelled.
- BCrypt hashing: the digest stand-in is injective and not one-way; salting strength and cost are not modelled.
- PasswordEncoder.MatchesOnlyItsPassword: BCrypt reads only the first 72 bytes of a password, so longer passwords sharing that prefix match the same digest (or are refused, depending on the Spring Security version); the stand-in compares the whole password.
- The regular-expression engine: a pattern is a predicate parameter. Only the two test patterns are written out.
- The clock and randomness gathering (`LocalDateTime.now()`, `System.currentTimeMillis()`, salts, keys): they are parameters.
- JPA/Hibernate: generated UUIDs are replaced by positions. `createdAt`/`updatedAt` timestamps, transactions and the phone entities' ids are not modelled.
- Repositories.UserRepository.Update: covers only a save that keeps the user's email, the only kind the service performs.
- The check-then-insert race in `createUser` and the thread-local security context: the model is sequential.
- Null DTO fields and a null phone list: bean validation rejects them before the service runs. The PasswordValidator null case is modelled.
- The seeded administrator's null phone list (the builder never sets it) is shown as the empty list.
- HTTP plumbing, Spring wiring, the filter-chain machinery beyond one invocation count, Swagger annotations, CSRF and frame-option headers, and the controller's DTO copying.
- Path normalisation and trailing-slash matching in the request matchers: paths are compared literally.
- `updateUser`, a stub that returns null.
- The annotation-driven validation wiring (`@NotBlank`, `@Email`, `@Valid`, the `ValidPassword` annotation) that produces the field errors: field errors are an input.
- `UserLoginDTO`, `NotFoundException` and `UserRepository` are not modelled on their own; their shapes follow their uses in the service.
