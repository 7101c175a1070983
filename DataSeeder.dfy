/** `DataSeeder.run`: on start-up, store an administrator unless a user with
    the administrator's email already exists. The encoder's salt is a
    parameter. */
module Seeding {
  import opened Wrappers
  import opened Entities
  import opened Repositories
  import opened PasswordEncoder
  import opened Jwt
  import opened Gate

  const ADMIN_NAME: string := "Admin"
  const ADMIN_EMAIL: string := "admin@example.com"
  const ADMIN_PASSWORD: string := "Admin123"

  /** The seeded administrator: no last login and no token. The builder never
      sets the phone list, which stays null; the model has no null list and
      shows it as the empty one. */
  function AdminUser(id: nat, digest: string): User {
    User(id, ADMIN_NAME, ADMIN_EMAIL, digest, [], None, None, true)
  }

  /** The store after seeding with the password digest `digest`. */
  function Seeded(users: seq<User>, digest: string): seq<User> {
    if FindByEmail(users, ADMIN_EMAIL).None? then users + [AdminUser(|users|, digest)] else users
  }

  class DataSeeder {
    const userRepository: UserRepository

    constructor (userRepository: UserRepository)
      ensures this.userRepository == userRepository
    {
      this.userRepository := userRepository;
    }

    method Run(salt: nat)
      requires userRepository.Valid()
      modifies userRepository
      ensures userRepository.Valid()
      ensures userRepository.users == Seeded(old(userRepository.users), Encode(salt, ADMIN_PASSWORD))
    {
      if FindByEmail(userRepository.users, ADMIN_EMAIL).None? {
        var admin := AdminUser(0, Encode(salt, ADMIN_PASSWORD));
        var _ := userRepository.Insert(admin);
      }
    }
  }

  /** Without an administrator, seeding adds exactly one user: the active
      administrator, without phones, last login or token, whose digest matches
      "Admin123"; the store stays well formed. */
  lemma SeedAddsAdmin(users: seq<User>, salt: nat)
    requires WellFormed(users) && FindByEmail(users, ADMIN_EMAIL).None?
    ensures var after := Seeded(users, Encode(salt, ADMIN_PASSWORD));
            && WellFormed(after)
            && after[..|users|] == users && |after| == |users| + 1
            && after[|users|].name == ADMIN_NAME && after[|users|].email == ADMIN_EMAIL
            && after[|users|].isActive && after[|users|].token == None
            && after[|users|].phones == [] && after[|users|].lastLogin == None
            && Matches(ADMIN_PASSWORD, after[|users|].password)
  {
    AppendPreservesWellFormed(users, AdminUser(|users|, Encode(salt, ADMIN_PASSWORD)));
    MatchesEncode(salt, ADMIN_PASSWORD);
    var after := Seeded(users, Encode(salt, ADMIN_PASSWORD));
    assert after[..|users|] == users;
  }

  /** With an administrator already stored, seeding changes nothing. */
  lemma SeedKeepsExistingAdmin(users: seq<User>, digest: string, i: nat)
    requires i < |users| && users[i].email == ADMIN_EMAIL
    ensures Seeded(users, digest) == users
  {
    assert users[i] in users;
  }

  /** Seeding twice leaves the store as seeding once, whatever the second salt. */
  lemma SeedIdempotent(users: seq<User>, first: string, second: string)
    ensures Seeded(Seeded(users, first), second) == Seeded(users, first)
  {
    var once := Seeded(users, first);
    if FindByEmail(users, ADMIN_EMAIL).None? {
      SeedKeepsExistingAdmin(once, second, |users|);
    }
  }

  /** A freshly seeded administrator has no token, so no token authenticates
      as the administrator until the administrator logs in. */
  lemma SeededAdminNotAuthenticated(jwt: JwtTokenUtil, users: seq<User>, digest: string, token: string, validatedAt: nat, parsedAt: nat)
    requires WellFormed(users) && FindByEmail(users, ADMIN_EMAIL).None?
    ensures AuthenticateToken(jwt, Seeded(users, digest), token, validatedAt, parsedAt)
              != Proceed(Some(Authentication(ADMIN_EMAIL, [USER_AUTHORITY])))
  {
    var after := Seeded(users, digest);
    AppendPreservesWellFormed(users, AdminUser(|users|, digest));
    if AuthenticateToken(jwt, after, token, validatedAt, parsedAt) == Proceed(Some(Authentication(ADMIN_EMAIL, [USER_AUTHORITY]))) {
      OnlyStoredTokenAuthenticates(jwt, after, |users|, token, validatedAt, parsedAt);
    }
  }
}
