# Owner-scoped TODO service: a Dafny model

This project models the core of a small multi-user TODO HTTP service written in Go:

- the **user service** (`Register`, `Login`, `Refresh` and the token pair they share),
- the **task service** (`Create`, `List`, `Find`, `Update`, `Delete`, every one filtered by owner),
- the two **controllers** that turn HTTP requests into service calls and service errors into
  HTTP statuses.

Each service call is a pure function (or, where the database order is unspecified, a method)
from the current store to a result and the next store. Database faults are explicit
parameters. The hashing and JWT libraries form a `Crypto` record of plain functions, passed in
as a parameter. The current time is a parameter too.

Modules:

| module | file | what it holds |
|---|---|---|
| `Outcomes` | outcomes.dfy | `Option`, `Result`, the `Error` taxonomy, the Go error texts, injected storage `Faults` |
| `Models` | models.dfy | `User`, `Todo` (with the owner column the services filter on), `Tokens` |
| `Decimal` | decimal.dfy | `strconv.ParseUint(s, 10, 64)` as Go's accumulation loop, against a reference digit-string value |
| `Jwt` | jwt.dfy | the library boundary: `Claims`, signing methods, `Crypto`, and the `Faithful` assumption about the library |
| `UserService` | user_service.dfy | the account directory (users in id order plus a serial), registration, login, refresh |
| `TodoService` | todo_service.dfy | the task table (`map<nat, Todo>` plus a serial) and its five operations |
| `Http` | http.dfy | statuses, JSON bodies, body-parse outcomes |
| `TodoController`, `UserController` | todo_controller.dfy, user_controller.dfy | the eight handlers |

Behaviour worth knowing, as the code has it:

- A task's owner always comes from the token's `id` claim. The body's owner is overwritten.
- A task that is missing and a task owned by someone else give the same `NotFound`, so the
  same 404.
- `Create` inserts a nonzero id from the body as given. A taken id makes the insert fail with a
  duplicate-key error (500). It never overwrites a record, but the 500 against a 200 tells a
  client whether some task, anyone's, already holds that id.
- `Refresh` never reads the token's `subject` claim. An unexpired access token refreshes as
  well as a refresh token (`RefreshIgnoresKind`).
- Claims hold whole seconds and HS256 is deterministic. A refresh in the same second as the
  issue therefore returns the identical pair (`RefreshInSameSecondRepeatsPair`). Nothing makes
  a new pair differ from the old one.
- Refresh errors answer 500, not 401.
- Register and Login declare a `validation` branch, but it writes field errors into a map that
  was never allocated. A body with an empty login or password therefore panics inside the
  handler (`Panic` response) instead of answering 400.

## Model

| member | source | states |
|---|---|---|
| Decimal.ParseUint | controllers/todoController.go:81-89 | the path id is accepted exactly when it is a non-empty string of decimal digits denoting at most 2^64-1, and the result is the number it denotes; Go's cutoff and wrap-around checks reject precisely the rest |
| Decimal.RenderDenotes | controllers/todoController.go:82-89 | every id a client was given, rendered in decimal, is a digit string denoting that id, so the parser accepts it back as the same id |
| UserService.FindByLogin | services/userService.go:89-96 | the lookup by login finds a row exactly when some user has that login, and then the first such row |
| UserService.FirstMatchHasLeastId | services/userService.go:89 | with rows in primary-key order, the row found is the matching row with the least id, as `First` orders by primary key |
| UserService.IssuePair | services/userService.go:59-83 | a pair is issued exactly when both signings succeed, holding the two signed tokens; otherwise the refresh token's signing error is returned if that signing failed, and the access token's if only it failed |
| UserService.IssuedPairCarriesClaims | services/userService.go:59-69 | the refresh token decodes to HS256 claims {id, "refresh_token", now+259200} and the access token to {id, "access_token", now+3600} |
| UserService.Register | services/userService.go:33-84 | AlreadyExists exactly when the login is taken (any password); a lookup or insert error is returned unchanged with no user created; otherwise exactly one user is appended with the next serial id, the login and the password's hash, and the pair is issued for that id; the directory invariant is preserved |
| UserService.Login | services/userService.go:86-131 | a storage error is returned as is; an unknown login gives Unauthorized; any success issues the pair for a stored user with that login and that password's hash; login never changes the directory |
| UserService.LoginAuthenticates | services/userService.go:89-104 | with unique logins, login gives Unauthorized exactly when no user has that login and that password's hash, the same error whichever way it failed |
| UserService.RegisterThenLogin | services/userService.go:50-116 | after a successful registration, logging in with the same credentials issues a pair for the newly assigned id |
| UserService.Refresh | services/userService.go:133-172 | an undecodable token, a non-HMAC header or a failed verification gives its error and no tokens; a decodable HMAC token that verifies is answered with the pair for its id claim, and only such a token succeeds; no state is touched |
| UserService.RefreshKeepsSubject | services/userService.go:145-158 | refreshing with an issued refresh token before its expiry issues a pair for the same user id |
| UserService.RefreshIgnoresKind | services/userService.go:145-146 | an issued access token, before its expiry, refreshes exactly like the refresh token: the kind is never checked |
| UserService.RefreshInSameSecondRepeatsPair | services/userService.go:148-158 | a refresh in the second of issue returns the very same pair |
| TodoService.Create | services/todoService.go:29-32 | the record is stored as given, owner included, under an id not previously in the table: the next serial id when the body's id is zero, the body's id otherwise; it is returned with that id and other records are unchanged; a taken id fails with the duplicate-key error without overwriting; a storage fault is returned unchanged; the serial advances exactly on a fault-free insert that leaves the id zero |
| TodoService.List | services/todoService.go:34-39 | exactly the records owned by the user, each once, in some order; an empty table is not an error; a storage error gives no list |
| TodoService.Find | services/todoService.go:41-53 | the record when one with that id is owned by the user, NotFound otherwise (missing or foreign alike); a storage error is returned unchanged |
| TodoService.Update | services/todoService.go:55-68 | NotFound with the table unchanged unless a record with that id is owned by the given owner; a lookup or save fault is returned unchanged with the table unchanged; on success that record is replaced in full and returned, and no other record changes; the serial never moves |
| TodoService.Delete | services/todoService.go:70-83 | NotFound with the table unchanged unless the user owns the record; a lookup or delete fault is returned unchanged with the table unchanged; on success exactly that record is removed and returned as it was; the serial never moves |
| TodoService.ResultsDependOnlyOnOwnRecords | services/todoService.go:41-83 | what Find, Update and Delete report to a user is determined by the records that user owns alone |
| TodoService.ForeignRecordLooksMissing | services/todoService.go:43-46 | another owner's record gives Find, Update and Delete the same answers as if it were absent |
| TodoService.CreateThenFind | services/todoService.go:29-53 | a created record is found again by its owner under its assigned id |
| TodoService.DeleteUndoesCreate | services/todoService.go:29-83 | deleting a just-created record returns it and restores the table |
| TodoService.OwnerScenario | services/todoService.go:29-83 | from an empty table, a created task gets id 1, its owner finds it, another user gets NotFound, and after deletion the owner gets NotFound too |
| TodoController.ScopedError | controllers/todoController.go:96-105 | NotFound maps to 404 "not found" and every other service error to 500 carrying the error's own text |
| TodoController.CreateHandler | controllers/todoController.go:30-62 | an unparsable body answers 400 with no service call; the stored owner is the token's id; a service error answers 500 with its text; success answers 200 with the created record |
| TodoController.CreateIgnoresBodyOwner | controllers/todoController.go:48-52 | the owner named in the body has no effect on the exchange |
| TodoController.ListHandler | controllers/todoController.go:64-78 | the token owner's records, each once, with 200, or 500 on a service error |
| TodoController.FindHandler | controllers/todoController.go:80-109 | a malformed id answers 400 "bad id" before any lookup; otherwise the token owner's record with 200, or 404 "not found" for a missing or foreign id |
| TodoController.UpdateHandler | controllers/todoController.go:111-149 | an unparsable body answers 400; the owner is forced to the token's id; 200 with the new record when that user owns the id, 404 "not found" when not, 500 for any other service error |
| TodoController.UpdateCannotReachForeignRecord | controllers/todoController.go:129-141 | whatever the body says, a record owned by another user answers 404 and stays unchanged |
| TodoController.DeleteHandler | controllers/todoController.go:151-180 | a malformed id answers 400 "bad id" with the table unchanged; otherwise the token owner's record is removed and returned, 404 "not found" for a missing or foreign id, 500 for any other service error |
| UserController.RegisterHandler | controllers/userController.go:27-61 | an unparsable body answers 400; AlreadyExists answers 409 "user already exists"; other errors answer 500 with the error's own text; success returns the service's pair under "token" |
| UserController.RegisterConflictIffTaken | controllers/userController.go:45-51 | registration answers 409 exactly when the login is already taken |
| UserController.RegisterIgnoresBodyIdAndHash | controllers/userController.go:27-45 | an id or password hash supplied in the body changes nothing |
| UserController.LoginHandler | controllers/userController.go:63-97 | an unparsable body answers 400; Unauthorized answers 401 "wrong password or username"; other errors answer 500 with the error's own text; success returns the pair under "token" |
| UserController.LoginRejectsExactlyBadCredentials | controllers/userController.go:81-87 | with unique logins, 401 is answered exactly when no user matches login and password hash, always with the same message |
| UserController.RefreshHandler | controllers/userController.go:99-112 | every refresh error answers 500, never 401; success returns the service's pair under "token" |
| UserController.RegisterThenRefresh | controllers/userController.go:99-112 | the refresh token from a successful registration, presented before expiry, answers with a pair for the registered id |

## Left out

- Storage: GORM, Postgres and migrations are replaced by an abstract table. A database error
  other than "record not found" is an explicit `Option<string>` fault per database call.
  An insert that leaves the id zero advances the serial, even when it fails on a taken id.
  Postgres also spends a serial value on an insert that fails for any other reason; the model
  does not. After such a failure, the next default id in Postgres can be one higher than in
  the model.
- Hashing and signing: SHA-256, hex formatting, and HS256 signing and verification are library
  calls. They appear as the function fields of `Crypto`. Properties about issued tokens assume
  `Jwt.Faithful`: a signed token decodes to its claims and verifies before its `exp`.
- Expiry checking inside the JWT library is part of `Crypto.verify`. This model does not state
  how it works.
- The library wraps the key function's error text in its own prefix. `Outcomes.Describe`
  reproduces the JWT library's own error prefix.
- Time: `now` is a parameter. The source reads the clock separately for each token, so the two
  `exp` values can straddle a second boundary. The model uses one `now` for both.
- The `id` claim travels as a JSON number and is read back through a `float64` cast. The model
  treats it as a `nat`. It leaves out the precision loss above 2^53 and the panic on a missing
  or non-numeric claim.
- Postgres stores ids as signed 64-bit integers, so the driver refuses an id above 2^63-1.
  The model does not single that case out; it falls under the free storage-fault parameter.
- Ids in request bodies are `nat`. Decoding a body whose id exceeds 64 bits fails as a
  body-parse error, which the `BodyParse` parameter covers.
- Fiber body parsing and JSON encoding: the decoded body is a `BodyParse` value. An encoding
  error carries the framework's message, kept opaque.
- The task validator is left out: the `TODO` record carries no validation tags, so that branch
  never fires.
- The access and refresh middlewares and the route table in cmd/root.go are left out. They
  hand a claims value to a middleware library whose checks are not part of this model, so no
  property here claims that token kinds are told apart.
- Configuration, flags, the server loop and the process entry point are left out.
- The check-then-insert race in `Register` under concurrent requests is left out. Each
  operation is one sequential step.
- The older, unscoped API (`api/`, `services/todo.go`) is left out. Nothing on the process's
  start-up path wires it.
- TodoService.Update: GORM's `Save` inserts when the id is zero. That branch is unreachable
  because no stored record has id zero (`TodoService.Wf`), so the model always replaces.
- UserService.Register: the stored hash is `Crypto.hash(password)` and `User` has no password
  field. Beyond that, the model cannot show that the hash differs from the plaintext, because
  the hash function is abstract.
