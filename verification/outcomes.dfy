/** The result and error vocabulary shared by the services and the controllers. */
module Outcomes {

  datatype Option<+T> = None | Some(value: T)

  /** Every error a service can hand back to a controller.  The first three are the
      sentinel errors the services declare; the others carry an error that came from
      a collaborator (the database driver or the JWT library). */
  datatype Error =
    | AlreadyExists                 // the login is taken
    | Unauthorized                  // unknown login or wrong password, deliberately one value
    | NotFound                      // no task with that id owned by the caller
    | Storage(message: string)      // a database error other than "record not found"
    | DuplicateKey                  // an insert under a primary key that is already taken
    | Signing(message: string)      // producing a signed token failed
    | Malformed(message: string)    // the presented token could not be decoded
    | UnexpectedSigningMethod       // the key function refused a token not signed with HMAC
    | Rejected(message: string)     // signature or time-based claims of the token did not verify

  datatype Result<+T> = Ok(value: T) | Err(error: Error)

  /** Storage faults handed to an operation that touches the database twice:
      `read` for the lookup, `write` for the mutation that follows it. */
  datatype Faults = Faults(read: Option<string>, write: Option<string>)

  const NoFaults := Faults(None, None)

  /** The message text of the Go error value (its `Error()` string). */
  const UserExistsText: string := "user already exists"
  const UnauthorizedText: string := "unauthorized"
  const TodoNotFoundText: string := "todo not found"
  const DuplicateKeyText: string :=
    "ERROR: duplicate key value violates unique constraint \"todos_pkey\" (SQLSTATE 23505)"
  const KeyFuncText: string := "something got wrong i guess \U{1F433}"

  function Describe(e: Error): string {
    match e
    case AlreadyExists => UserExistsText
    case Unauthorized => UnauthorizedText
    case NotFound => TodoNotFoundText
    case Storage(m) => m
    case DuplicateKey => DuplicateKeyText
    case Signing(m) => m
    case Malformed(m) => m
    case UnexpectedSigningMethod =>
      // the JWT library wraps the key function's error in its own text
      "token is unverifiable: error while executing keyfunc: " + KeyFuncText
    case Rejected(m) => m
  }
}
