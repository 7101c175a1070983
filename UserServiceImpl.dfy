/** `UserServiceImpl`: registration, login and lookup over the shared user
    store. The clock and the encoder's random salt are parameters: `now` is
    the `LocalDateTime.now()` reading kept as the last login, and `tokenClock`
    the two readings `generateToken` takes. */
module Users {
  import opened Wrappers
  import opened Entities
  import opened Repositories
  import opened Jwt
  import opened PasswordEncoder

  /** The phone entities built from the request, field by field and in order. */
  function ToPhones(dtos: seq<PhoneDTO>): (phones: seq<Phone>)
    ensures |phones| == |dtos|
    ensures forall i :: 0 <= i < |dtos| ==>
              phones[i] == Phone(dtos[i].number, dtos[i].citycode, dtos[i].countrycode)
    decreases |dtos|
  {
    if dtos == [] then []
    else [Phone(dtos[0].number, dtos[0].citycode, dtos[0].countrycode)] + ToPhones(dtos[1..])
  }

  class UserServiceImpl {
    const userRepository: UserRepository
    const phoneRepository: PhoneRepository
    const jwtTokenUtil: JwtTokenUtil

    constructor (userRepository: UserRepository, phoneRepository: PhoneRepository, jwtTokenUtil: JwtTokenUtil)
      ensures this.userRepository == userRepository
      ensures this.phoneRepository == phoneRepository
      ensures this.jwtTokenUtil == jwtTokenUtil
    {
      this.userRepository := userRepository;
      this.phoneRepository := phoneRepository;
      this.jwtTokenUtil := jwtTokenUtil;
    }

    /** `getUsers`: every stored user. */
    method GetUsers() returns (all: seq<User>)
      ensures |all| == |userRepository.users|
      ensures forall u :: u in userRepository.users <==> u in all
    {
      all := userRepository.users;
    }

    /** `getUserById`: the user with that id, or "User not found". */
    method GetUserById(id: nat) returns (r: Result<User, ServiceError>)
      requires userRepository.Valid()
      ensures r.Success? ==> r.value in userRepository.users && r.value.id == id
      ensures r.Failure? ==> r.error == NotFoundException(USER_NOT_FOUND)
      ensures r.Failure? <==> forall u :: u in userRepository.users ==> u.id != id
    {
      match FindById(userRepository.users, id)
      case Some(u) => r := Success(u);
      case None => r := Failure(NotFoundException(USER_NOT_FOUND));
    }

    /** `createUser`: refuses a registered email before touching either store;
        otherwise saves the phones, then one active user holding the digest of
        the password, the phones and a fresh token for the email. */
    method CreateUser(dto: UserCreateDTO, salt: nat, now: nat, tokenClock: TokenClock) returns (r: Result<User, ServiceError>)
      requires userRepository.Valid()
      modifies userRepository, phoneRepository
      ensures userRepository.Valid()
      ensures FindByEmail(old(userRepository.users), dto.email).Some? ==>
                && r == Failure(EmailAlreadyExistsException)
                && userRepository.users == old(userRepository.users)
                && phoneRepository.phones == old(phoneRepository.phones)
      ensures FindByEmail(old(userRepository.users), dto.email).None? ==>
                && r.Success?
                && r.value == User(|old(userRepository.users)|, dto.name, dto.email,
                                   Encode(salt, dto.password), ToPhones(dto.phones), Some(now),
                                   Some(jwtTokenUtil.GenerateToken(dto.email, tokenClock)), true)
                && userRepository.users == old(userRepository.users) + [r.value]
                && phoneRepository.phones == old(phoneRepository.phones) + ToPhones(dto.phones)
    {
      if FindByEmail(userRepository.users, dto.email).Some? {
        return Failure(EmailAlreadyExistsException);
      }
      var phones := ToPhones(dto.phones);
      phoneRepository.SaveAll(phones);
      var user := User(0, dto.name, dto.email, Encode(salt, dto.password), phones, Some(now),
                       Some(jwtTokenUtil.GenerateToken(dto.email, tokenClock)), true);
      var saved := userRepository.Insert(user);
      r := Success(saved.value);
    }

    /** `login`: on a password match the user's token is replaced by a fresh
        one and its last login set; an unknown email and a wrong password fail
        alike, leaving the store as it was. */
    method Login(dto: UserLoginDTO, tokenClock: TokenClock, now: nat) returns (r: Result<User, ServiceError>)
      requires userRepository.Valid()
      modifies userRepository
      ensures userRepository.Valid()
      ensures r.Failure? <==>
                || FindByEmail(old(userRepository.users), dto.email).None?
                || !Matches(dto.password, FindByEmail(old(userRepository.users), dto.email).value.password)
      ensures r.Failure? ==>
                r.error == NotFoundException(INVALID_CREDENTIALS) && userRepository.users == old(userRepository.users)
      ensures r.Success? ==>
                var u := FindByEmail(old(userRepository.users), dto.email).value;
                && u.id < |old(userRepository.users)|
                && r.value == u.(token := Some(jwtTokenUtil.GenerateToken(dto.email, tokenClock)), lastLogin := Some(now))
                && userRepository.users == old(userRepository.users)[u.id := r.value]
    {
      var found := FindByEmail(userRepository.users, dto.email);
      if found.None? {
        return Failure(NotFoundException(INVALID_CREDENTIALS));
      }
      var user := found.value;
      if Matches(dto.password, user.password) {
        var token := jwtTokenUtil.GenerateToken(user.email, tokenClock);
        var updated := user.(token := Some(token), lastLogin := Some(now));
        userRepository.Update(updated);
        r := Success(updated);
      } else {
        r := Failure(NotFoundException(INVALID_CREDENTIALS));
      }
    }
  }

  /** What a successful registration stores: the request's name and email, a
      digest that matches the password and differs from it, one phone per
      request phone, active, and a token that validates for the email until
      it expires. */
  lemma CreatedUserProperties(jwt: JwtTokenUtil, dto: UserCreateDTO, id: nat, salt: nat, now: nat,
                              tokenClock: TokenClock, at: nat)
    requires at <= ExpiryInstant(tokenClock)
    ensures var u := User(id, dto.name, dto.email, Encode(salt, dto.password), ToPhones(dto.phones), Some(now),
                          Some(jwt.GenerateToken(dto.email, tokenClock)), true);
            && u.name == dto.name && u.email == dto.email && u.isActive
            && Matches(dto.password, u.password) && u.password != dto.password
            && |u.phones| == |dto.phones|
            && u.token.Some? && jwt.ValidateToken(u.token.value, at)
            && jwt.GetEmailFromToken(u.token.value, at) == Success(dto.email)
  {
    MatchesEncode(salt, dto.password);
    EncodeDiffersFromRaw(salt, dto.password);
    GetEmailFromGeneratedToken(jwt, dto.email, tokenClock, at);
  }
}
