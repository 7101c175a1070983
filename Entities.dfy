/** The records the service works on: the persisted `User` and `Phone`
    entities, the request bodies it receives, and the exceptions it throws. */
module Entities {
  import opened Wrappers

  datatype Phone = Phone(number: string, cityCode: string, countryCode: string)

  /** A stored user. `id` stands for the generated UUID; `lastLogin` and
      `token` are nullable columns; `password` holds the digest. */
  datatype User = User(
    id: nat,
    name: string,
    email: string,
    password: string,
    phones: seq<Phone>,
    lastLogin: Option<nat>,
    token: Option<string>,
    isActive: bool)

  datatype PhoneDTO = PhoneDTO(number: string, citycode: string, countrycode: string)

  datatype UserCreateDTO = UserCreateDTO(name: string, email: string, password: string, phones: seq<PhoneDTO>)

  datatype UserLoginDTO = UserLoginDTO(email: string, password: string)

  const EMAIL_ALREADY_EXISTS: string := "Email already exists"
  const INVALID_CREDENTIALS: string := "Invalid email or password"
  const USER_NOT_FOUND: string := "User not found"

  /** The service's exceptions, each with the message `getMessage` returns. */
  datatype ServiceError = NotFoundException(message: string) | EmailAlreadyExistsException {
    function Message(): string {
      match this
      case NotFoundException(m) => m
      case EmailAlreadyExistsException => EMAIL_ALREADY_EXISTS
    }
  }
}
