/** The records the services exchange with storage and with clients. */
module Models {

  /** A stored account.  The plaintext password is excluded from persistence,
      so a stored user holds only the hash. */
  datatype User = User(id: nat, login: string, passwordHash: string)

  /** A task.  `owner` is the `UserID` column every query filters on. */
  datatype Todo = Todo(id: nat, owner: nat, name: string, description: string, finished: bool)

  /** The pair of signed tokens handed to a client. */
  datatype Tokens = Tokens(refreshToken: string, accessToken: string)
}
