/** Single active session: `login` overwrites the stored token, and the gate
    accepts only the stored token, so a new login retires the previous one. */
module Sessions {
  import opened Wrappers
  import opened Entities
  import opened Repositories
  import opened Jwt
  import opened PasswordEncoder
  import opened Users
  import opened Gate

  /** After a login stores a token issued with the readings `second` for user
      `i`, a token issued for that user with readings in other seconds no
      longer authenticates anyone. */
  lemma LoginRetiresEarlierToken(jwt: JwtTokenUtil, users: seq<User>, i: nat, first: TokenClock, second: TokenClock,
                                 loggedIn: nat, validatedAt: nat, parsedAt: nat)
    requires WellFormed(users) && i < |users| && !SameSeconds(first, second)
    ensures var e := users[i].email;
            var after := users[i := users[i].(token := Some(jwt.GenerateToken(e, second)), lastLogin := Some(loggedIn))];
            !AuthenticateToken(jwt, after, jwt.GenerateToken(e, first), validatedAt, parsedAt).Authenticated()
  {
    var e := users[i].email;
    var t1 := jwt.GenerateToken(e, first);
    var t2 := jwt.GenerateToken(e, second);
    var after := users[i := users[i].(token := Some(t2), lastLogin := Some(loggedIn))];
    ReplacePreservesWellFormed(users, after[i]);
    FindByEmailFindsStored(after, i);
    GenerateTokenInjective(jwt, e, first, e, second);
    assert Decode(t1).value.claims.subject == e;
  }

  /** With one clock reading, the gate lets a retired token's request through
      without an identity. */
  lemma RetiredTokenRefused(jwt: JwtTokenUtil, users: seq<User>, i: nat, first: TokenClock, second: TokenClock,
                            loggedIn: nat, now: nat)
    requires WellFormed(users) && i < |users| && !SameSeconds(first, second)
    ensures var e := users[i].email;
            var after := users[i := users[i].(token := Some(jwt.GenerateToken(e, second)), lastLogin := Some(loggedIn))];
            Filter(jwt, after, Some(BEARER_PREFIX + jwt.GenerateToken(e, first)), now, now) == Proceed(None)
  {
    var e := users[i].email;
    var after := users[i := users[i].(token := Some(jwt.GenerateToken(e, second)), lastLogin := Some(loggedIn))];
    LoginRetiresEarlierToken(jwt, users, i, first, second, loggedIn, now, now);
    BearerHeaderToken(jwt.GenerateToken(e, first));
    SingleReadingNeverRaises(jwt, after, Some(BEARER_PREFIX + jwt.GenerateToken(e, first)), now);
  }

  /** Two logins whose readings fall in the same seconds are issued the same
      token, so the second does not retire the first: the earlier token is the
      stored one. */
  lemma SameSecondLoginKeepsToken(jwt: JwtTokenUtil, users: seq<User>, i: nat, first: TokenClock, second: TokenClock,
                                  loggedIn: nat)
    requires WellFormed(users) && i < |users| && SameSeconds(first, second)
    ensures var e := users[i].email;
            var after := users[i := users[i].(token := Some(jwt.GenerateToken(e, second)), lastLogin := Some(loggedIn))];
            && jwt.GenerateToken(e, first) == jwt.GenerateToken(e, second)
            && FindByEmail(after, e) == Some(after[i])
            && after[i].token == Some(jwt.GenerateToken(e, first))
  {
    var e := users[i].email;
    var after := users[i := users[i].(token := Some(jwt.GenerateToken(e, second)), lastLogin := Some(loggedIn))];
    GenerateTokenInjective(jwt, e, first, e, second);
    ReplacePreservesWellFormed(users, after[i]);
    FindByEmailFindsStored(after, i);
  }

  /** Registration into an empty store: the store then holds exactly the new
      user, whose digest matches the password and whose token is fresh. */
  method Register(service: UserServiceImpl, dto: UserCreateDTO, salt: nat, now: nat, tokenClock: TokenClock) returns (u: User)
    requires service.userRepository.Valid() && service.userRepository.users == []
    modifies service.userRepository, service.phoneRepository
    ensures service.userRepository.Valid() && service.userRepository.users == [u]
    ensures u.id == 0 && u.email == dto.email && Matches(dto.password, u.password)
    ensures u.token == Some(service.jwtTokenUtil.GenerateToken(dto.email, tokenClock))
  {
    var created := service.CreateUser(dto, salt, now, tokenClock);
    u := created.value;
    MatchesEncode(salt, dto.password);
  }

  /** A login with the right password by the only stored user: the store then
      holds that user with a fresh token and last login. */
  method LogIn(service: UserServiceImpl, credentials: UserLoginDTO, u: User, tokenClock: TokenClock, now: nat)
    returns (u': User)
    requires service.userRepository.Valid() && service.userRepository.users == [u]
    requires u.email == credentials.email && Matches(credentials.password, u.password)
    modifies service.userRepository
    ensures service.userRepository.Valid() && service.userRepository.users == [u']
    ensures u' == u.(token := Some(service.jwtTokenUtil.GenerateToken(credentials.email, tokenClock)), lastLogin := Some(now))
  {
    assert FindByEmail([u], credentials.email) == Some(u);
    var r := service.Login(credentials, tokenClock, now);
    u' := r.value;
  }

  /** Presenting the only stored user's token while it lives admits that user. */
  method PresentStoredToken(filter: JwtAuthenticationFilter, context: SecurityContext, chain: FilterChain,
                            u: User, issued: TokenClock, now: nat) returns (outcome: GateOutcome)
    requires filter.userRepository.users == [u] && u.id == 0
    requires u.token == Some(filter.jwtTokenUtil.GenerateToken(u.email, issued))
    requires now <= ExpiryInstant(issued)
    modifies context, chain
    ensures outcome == Proceed(Some(Authentication(u.email, [USER_AUTHORITY])))
  {
    outcome := filter.DoFilterInternal(Some(BEARER_PREFIX + u.token.value), now, now, context, chain);
    StoredTokenAuthenticates(filter.jwtTokenUtil, [u], 0, issued, now);
  }

  /** Presenting the token of an earlier login, once a later login has
      replaced it, admits no one. */
  method PresentRetiredToken(filter: JwtAuthenticationFilter, context: SecurityContext, chain: FilterChain,
                             u1: User, u2: User, first: TokenClock, second: TokenClock, loggedIn: nat, now: nat)
    returns (outcome: GateOutcome)
    requires u1.id == 0 && !SameSeconds(first, second)
    requires u1.token == Some(filter.jwtTokenUtil.GenerateToken(u1.email, first))
    requires u2 == u1.(token := Some(filter.jwtTokenUtil.GenerateToken(u1.email, second)), lastLogin := Some(loggedIn))
    requires filter.userRepository.users == [u2]
    modifies context, chain
    ensures outcome == Proceed(None)
  {
    var jwt := filter.jwtTokenUtil;
    var token := u1.token.value;
    RetiredTokenRefused(jwt, [u1], 0, first, second, loggedIn, now);
    assert [u1][0 := u2] == [u2];
    assert Filter(jwt, [u2], Some(BEARER_PREFIX + token), now, now) == Proceed(None);
    outcome := filter.DoFilterInternal(Some(BEARER_PREFIX + token), now, now, context, chain);
  }

  /** A user registers and is accepted with the registration token; after
      logging in twice, with readings in different seconds, the token of the
      first login is refused before it expires, while the token of the second
      is accepted. The registration token is presented at the registration's
      second token reading, both login tokens at the second login's; each
      call's last-login reading is taken next to its token readings. */
  method SessionScenario(key: nat, dto: UserCreateDTO, salt: nat,
                         registered: TokenClock, firstLogin: TokenClock, secondLogin: TokenClock)
    returns (withRegistrationToken: GateOutcome, withFirstToken: GateOutcome, withSecondToken: GateOutcome)
    requires !SameSeconds(firstLogin, secondLogin) && secondLogin.expiresFrom <= ExpiryInstant(firstLogin)
    ensures withRegistrationToken == Proceed(Some(Authentication(dto.email, [USER_AUTHORITY])))
    ensures withFirstToken == Proceed(None)
    ensures withSecondToken == Proceed(Some(Authentication(dto.email, [USER_AUTHORITY])))
  {
    var jwt := JwtTokenUtil(key);
    var userRepository := new UserRepository();
    var phoneRepository := new PhoneRepository();
    var service := new UserServiceImpl(userRepository, phoneRepository, jwt);
    var filter := new JwtAuthenticationFilter(jwt, userRepository);
    var context := new SecurityContext();
    var chain := new FilterChain();

    var u0 := Register(service, dto, salt, registered.issuedAt, registered);
    withRegistrationToken := PresentStoredToken(filter, context, chain, u0, registered, registered.expiresFrom);

    var credentials := UserLoginDTO(dto.email, dto.password);
    var u1 := LogIn(service, credentials, u0, firstLogin, firstLogin.expiresFrom);
    var u2 := LogIn(service, credentials, u1, secondLogin, secondLogin.expiresFrom);

    var presented := secondLogin.expiresFrom;
    withFirstToken := PresentRetiredToken(filter, context, chain, u1, u2, firstLogin, secondLogin, presented, presented);
    withSecondToken := PresentStoredToken(filter, context, chain, u2, secondLogin, presented);
  }
}
