/** The user entity and the request bodies the endpoints receive. */
module Entities {

  /** The generated primary key of a user row. */
  type UserId = nat

  /** A row of the user table. `password` holds the encoder's output, never the submitted text. */
  datatype User = User(
    id: UserId,
    email: string,
    firstName: string,
    lastName: string,
    password: string,
    role: string,
    enabled: bool)

  /** Registration form. `matchingPassword` is carried but never compared by the application. */
  datatype UserModel = UserModel(
    firstName: string,
    lastName: string,
    email: string,
    password: string,
    matchingPassword: string)

  /** Body of the reset, save-password and change-password endpoints. */
  datatype PasswordModel = PasswordModel(email: string, oldPassword: string, newPassword: string)

  /** Why an operation failed where the application would throw. */
  datatype Error =
    | NotFound        // a lookup returned null and the code dereferenced it
    | DuplicateEmail  // the account directory refuses a second user with the same email

  /** The role every self-registered user receives. */
  const USER_ROLE := "USER"
}
