/** The per-request authentication gate of `JwtAuthenticationFilter`: take
    the bearer token from the Authorization header, validate it, look up the
    user its subject names, and accept it only if it is exactly the token
    stored for that user.

    `validateToken` and `getEmailFromToken` each read the clock; their two
    readings are the parameters `validatedAt` and `parsedAt`. A token that
    expires between the two readings makes `getEmailFromToken` throw, and the
    exception leaves the filter before the rest of the chain runs. */
module Gate {
  import opened Wrappers
  import opened Text
  import opened Entities
  import opened Repositories
  import opened Jwt

  const BEARER_PREFIX: string := "Bearer "
  const USER_AUTHORITY: string := "USER"

  /** The identity put into the security context: a username and its authorities. */
  datatype Authentication = Authentication(username: string, authorities: seq<string>)

  /** How one pass of the gate ends: the request proceeds, with or without an
      identity, or an exception escapes the filter. */
  datatype GateOutcome = Proceed(authentication: Option<Authentication>) | Raised(error: JwtError) {
    predicate Authenticated() { Proceed? && authentication.Some? }
  }

  /** The token a header carries: the header without its 7-character
      "Bearer " prefix; nothing when the header is absent or lacks the prefix. */
  function BearerToken(header: Option<string>): (token: Option<string>)
    ensures token.Some? <==> header.Some? && StartsWith(header.value, BEARER_PREFIX)
    ensures token.Some? ==> header.value == BEARER_PREFIX + token.value && |header.value| == |token.value| + 7
  {
    if header.Some? && StartsWith(header.value, BEARER_PREFIX) then Some(header.value[|BEARER_PREFIX|..])
    else None
  }

  /** `authenticateToken`: validate, read the subject, look the user up and
      compare the presented token with the stored one. */
  function AuthenticateToken(jwt: JwtTokenUtil, users: seq<User>, token: string, validatedAt: nat, parsedAt: nat): (r: GateOutcome)
    ensures !jwt.ValidateToken(token, validatedAt) ==> r == Proceed(None)
    ensures r.Authenticated() <==>
              && jwt.ValidateToken(token, validatedAt)
              && jwt.ValidateToken(token, parsedAt)
              && FindByEmail(users, Decode(token).value.claims.subject).Some?
              && FindByEmail(users, Decode(token).value.claims.subject).value.token == Some(token)
    ensures r.Authenticated() ==>
              r.authentication.value == Authentication(Decode(token).value.claims.subject, [USER_AUTHORITY])
    ensures r.Raised? ==> r.error == Expired && validatedAt <= Decode(token).value.claims.expiration * 1000 < parsedAt
  {
    if !jwt.ValidateToken(token, validatedAt) then Proceed(None)
    else match jwt.GetEmailFromToken(token, parsedAt)
      case Failure(e) => Raised(e)
      case Success(email) =>
        var found := FindByEmail(users, email);
        if found.Some? && found.value.token == Some(token) then
          Proceed(Some(Authentication(email, [USER_AUTHORITY])))
        else Proceed(None)
  }

  /** The decision of `doFilterInternal` for one request. */
  function Filter(jwt: JwtTokenUtil, users: seq<User>, header: Option<string>, validatedAt: nat, parsedAt: nat): (r: GateOutcome)
    ensures BearerToken(header).None? ==> r == Proceed(None)
    ensures BearerToken(header).Some? ==> r == AuthenticateToken(jwt, users, header.value[7..], validatedAt, parsedAt)
  {
    match BearerToken(header)
    case None => Proceed(None)
    case Some(token) => AuthenticateToken(jwt, users, token, validatedAt, parsedAt)
  }

  /** When both parses read the same clock value, the gate never throws. */
  lemma SingleReadingNeverRaises(jwt: JwtTokenUtil, users: seq<User>, header: Option<string>, now: nat)
    ensures Filter(jwt, users, header, now, now).Proceed?
  {
  }

  /** A token still valid at the first reading and expired at the second
      makes `getEmailFromToken` throw out of the gate. */
  lemma ExpiryBetweenReadingsRaises(jwt: JwtTokenUtil, users: seq<User>, email: string, issued: TokenClock)
    ensures var token := jwt.GenerateToken(email, issued);
            var expiry := ExpiryInstant(issued);
            AuthenticateToken(jwt, users, token, expiry, expiry + 1) == Raised(Expired)
  {
    var token := jwt.GenerateToken(email, issued);
    var expiry := ExpiryInstant(issued);
    GeneratedTokenValidates(jwt, email, issued, expiry);
    GeneratedTokenExpires(jwt, email, issued, expiry + 1);
  }

  /** Whatever token authenticates a stored user is the token stored for them:
      each user has at most one accepted session token at any moment. */
  lemma OnlyStoredTokenAuthenticates(jwt: JwtTokenUtil, users: seq<User>, i: nat, token: string, validatedAt: nat, parsedAt: nat)
    requires WellFormed(users) && i < |users|
    requires AuthenticateToken(jwt, users, token, validatedAt, parsedAt) == Proceed(Some(Authentication(users[i].email, [USER_AUTHORITY])))
    ensures users[i].token == Some(token)
  {
    FindByEmailFindsStored(users, i);
  }

  /** A header made of "Bearer " and a token carries exactly that token. */
  lemma BearerHeaderToken(token: string)
    ensures BearerToken(Some(BEARER_PREFIX + token)) == Some(token)
  {
    assert (BEARER_PREFIX + token)[..|BEARER_PREFIX|] == BEARER_PREFIX;
    assert (BEARER_PREFIX + token)[|BEARER_PREFIX|..] == token;
  }

  /** Until it expires, the token stored for a user, presented as a bearer
      header, admits that user with the authority "USER". */
  lemma StoredTokenAuthenticates(jwt: JwtTokenUtil, users: seq<User>, i: nat, issued: TokenClock, now: nat)
    requires WellFormed(users) && i < |users|
    requires users[i].token == Some(jwt.GenerateToken(users[i].email, issued))
    requires now <= ExpiryInstant(issued)
    ensures Filter(jwt, users, Some(BEARER_PREFIX + users[i].token.value), now, now)
              == Proceed(Some(Authentication(users[i].email, [USER_AUTHORITY])))
  {
    BearerHeaderToken(users[i].token.value);
    FindByEmailFindsStored(users, i);
    GetEmailFromGeneratedToken(jwt, users[i].email, issued, now);
  }

  /** The request's security context, holding at most one identity. */
  class SecurityContext {
    var authentication: Option<Authentication>

    constructor ()
      ensures authentication == None
    {
      authentication := None;
    }
  }

  /** The remainder of the filter chain; it only counts how often it runs. */
  class FilterChain {
    var invocations: nat

    constructor ()
      ensures invocations == 0
    {
      invocations := 0;
    }

    method DoFilter()
      modifies this
      ensures invocations == old(invocations) + 1
    {
      invocations := invocations + 1;
    }
  }

  class JwtAuthenticationFilter {
    const jwtTokenUtil: JwtTokenUtil
    const userRepository: UserRepository

    constructor (jwtTokenUtil: JwtTokenUtil, userRepository: UserRepository)
      ensures this.jwtTokenUtil == jwtTokenUtil && this.userRepository == userRepository
    {
      this.jwtTokenUtil := jwtTokenUtil;
      this.userRepository := userRepository;
    }

    /** `doFilterInternal`: sets the identity when the gate accepts the token,
        leaves the context alone otherwise, and passes the request on exactly
        once unless an exception escaped. */
    method DoFilterInternal(header: Option<string>, validatedAt: nat, parsedAt: nat, context: SecurityContext, chain: FilterChain)
      returns (outcome: GateOutcome)
      modifies context, chain
      ensures outcome == Filter(jwtTokenUtil, userRepository.users, header, validatedAt, parsedAt)
      ensures context.authentication == if outcome.Authenticated() then outcome.authentication else old(context.authentication)
      ensures chain.invocations == old(chain.invocations) + if outcome.Raised? then 0 else 1
    {
      outcome := Filter(jwtTokenUtil, userRepository.users, header, validatedAt, parsedAt);
      if outcome.Raised? {
        return;
      }
      if outcome.Authenticated() {
        context.authentication := outcome.authentication;
      }
      chain.DoFilter();
    }
  }
}
