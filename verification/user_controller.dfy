/** The account handlers: register, login and refresh.  Each hands the service's
    token pair back unchanged under the "token" key. */
module UserController {
  import opened Outcomes
  import opened Models
  import opened Http
  import opened Jwt
  import UserService

  type Directory = UserService.Directory

  /** The decoded request body: every field of the user record can arrive, but only
      `login` and `password` are passed on. */
  datatype UserBody = UserBody(id: nat, login: string, password: string, passwordHash: string)

  datatype UserExchange = UserExchange(response: Response, directory: Directory)

  const ConflictText: string := "user already exists"
  const WrongCredentialsText: string := "wrong password or username"
  const NilMapPanic: string := "assignment to entry in nil map"

  /** The `required,min=1` tags on login and password. */
  predicate PassesValidation(b: UserBody) {
    |b.login| >= 1 && |b.password| >= 1
  }

  /** POST /register.  A body that fails validation reaches the branch that writes
      its field errors into a map that was never made, and the handler panics. */
  function RegisterHandler(d: Directory, c: Crypto, secret: string, body: BodyParse<UserBody>,
                           now: int, f: Faults): (r: UserExchange)
    ensures body.Unparsable? ==>
      r == UserExchange(Response(StatusBadRequest, ErrorJson(body.message)), d)
    ensures body.Parsed? && !PassesValidation(body.value) ==> r == UserExchange(Panic(NilMapPanic), d)
    ensures body.Parsed? && PassesValidation(body.value) ==>
      var step := UserService.Register(d, c, secret, body.value.login, body.value.password, now, f);
      && r.directory == step.directory
      && (step.result.Ok? <==> r.response.Response? && r.response.status == StatusOK)
      && (step.result.Ok? ==> r.response.body == TokenJson(step.result.value))
      && (step.result == Err(AlreadyExists) <==>
            r.response == Response(StatusConflict, ErrorJson("user already exists")))
      && (r.response.Response? && r.response.status == StatusInternalServerError <==>
            step.result.Err? && step.result.error != AlreadyExists)
      && (step.result.Err? && step.result.error != AlreadyExists ==>
            r.response == Response(StatusInternalServerError, ErrorJson(Describe(step.result.error))))
  {
    match body
    case Unparsable(m) => UserExchange(Response(StatusBadRequest, ErrorJson(m)), d)
    case Parsed(b) =>
      if !PassesValidation(b) then UserExchange(Panic(NilMapPanic), d)
      else
        var step := UserService.Register(d, c, secret, b.login, b.password, now, f);
        match step.result
        case Ok(tokens) => UserExchange(Response(StatusOK, TokenJson(tokens)), step.directory)
        case Err(e) =>
          if e == AlreadyExists then UserExchange(Response(StatusConflict, ErrorJson(ConflictText)), step.directory)
          else UserExchange(Response(StatusInternalServerError, ErrorJson(Describe(e))), step.directory)
  }

  /** Registration answers 409 exactly when the login is taken, whatever the password. */
  lemma RegisterConflictIffTaken(d: Directory, c: Crypto, secret: string, b: UserBody, now: int,
                                 write: Option<string>)
    requires PassesValidation(b)
    ensures var r := RegisterHandler(d, c, secret, Parsed(b), now, Faults(None, write));
      (r.response.Response? && r.response.status == StatusConflict) <==> UserService.HasLogin(d, b.login)
  {
  }

  /** The id and password hash a client puts in the body change nothing. */
  lemma RegisterIgnoresBodyIdAndHash(d: Directory, c: Crypto, secret: string, b: UserBody,
                                     id: nat, hash: string, now: int, f: Faults)
    ensures RegisterHandler(d, c, secret, Parsed(b), now, f) ==
      RegisterHandler(d, c, secret, Parsed(b.(id := id, passwordHash := hash)), now, f)
  {
    assert PassesValidation(b) <==> PassesValidation(b.(id := id, passwordHash := hash));
  }

  /** POST /login.  Unauthorized answers 401 with one fixed message, however the
      login failed; any other error answers 500. */
  function LoginHandler(d: Directory, c: Crypto, secret: string, body: BodyParse<UserBody>,
                        now: int, fault: Option<string>): (r: Response)
    ensures body.Unparsable? ==> r == Response(StatusBadRequest, ErrorJson(body.message))
    ensures body.Parsed? && !PassesValidation(body.value) ==> r == Panic(NilMapPanic)
    ensures body.Parsed? && PassesValidation(body.value) ==>
      var result := UserService.Login(d, c, secret, body.value.login, body.value.password, now, fault);
      && (result.Ok? <==> r.Response? && r.status == StatusOK)
      && (result.Ok? ==> r.body == TokenJson(result.value))
      && (result == Err(Unauthorized) <==>
            r == Response(StatusUnauthorized, ErrorJson("wrong password or username")))
      && (r.Response? && r.status == StatusInternalServerError <==>
            result.Err? && result.error != Unauthorized)
      && (result.Err? && result.error != Unauthorized ==>
            r == Response(StatusInternalServerError, ErrorJson(Describe(result.error))))
  {
    match body
    case Unparsable(m) => Response(StatusBadRequest, ErrorJson(m))
    case Parsed(b) =>
      if !PassesValidation(b) then Panic(NilMapPanic)
      else
        match UserService.Login(d, c, secret, b.login, b.password, now, fault)
        case Ok(tokens) => Response(StatusOK, TokenJson(tokens))
        case Err(e) =>
          if e == Unauthorized then Response(StatusUnauthorized, ErrorJson(WrongCredentialsText))
          else Response(StatusInternalServerError, ErrorJson(Describe(e)))
  }

  /** With unique logins, login answers 401 exactly when no stored user has that
      login and that password's hash; the answer is the same whether the login is
      unknown or the password wrong. */
  lemma LoginRejectsExactlyBadCredentials(d: Directory, c: Crypto, secret: string, b: UserBody, now: int)
    requires UserService.UniqueLogins(d)
    requires PassesValidation(b)
    ensures var r := LoginHandler(d, c, secret, Parsed(b), now, None);
      && (r.Response? && r.status == StatusUnauthorized <==>
            !exists i :: 0 <= i < |d.users| && d.users[i].login == b.login &&
              d.users[i].passwordHash == c.hash(b.password))
      && (r.Response? && r.status == StatusUnauthorized ==>
            r.body == ErrorJson("wrong password or username"))
  {
    UserService.LoginAuthenticates(d, c, secret, b.login, b.password, now);
  }

  /** GET /refresh, behind the refresh-token middleware: the raw token goes to the
      service; every service error answers 500, never 401. */
  function RefreshHandler(c: Crypto, secret: string, raw: string, now: int): (r: Response)
    ensures r.Response? && r.status in {StatusOK, StatusInternalServerError}
    ensures var result := UserService.Refresh(c, secret, raw, now);
      && (result.Ok? <==> r.status == StatusOK)
      && (result.Ok? ==> r.body == TokenJson(result.value))
      && (result.Err? ==> r.body == ErrorJson(Describe(result.error)))
  {
    match UserService.Refresh(c, secret, raw, now)
    case Ok(tokens) => Response(StatusOK, TokenJson(tokens))
    case Err(e) => Response(StatusInternalServerError, ErrorJson(Describe(e)))
  }

  /** A refresh token issued at registration, presented before it expires, yields a
      200 carrying a pair for the registered user's id. */
  lemma RegisterThenRefresh(d: Directory, c: Crypto, secret: string, b: UserBody, now: int, later: int)
    requires Faithful(c)
    requires PassesValidation(b)
    requires later < now + UserService.RefreshLifetime
    requires RegisterHandler(d, c, secret, Parsed(b), now, NoFaults).response.Response?
    requires RegisterHandler(d, c, secret, Parsed(b), now, NoFaults).response.status == StatusOK
    ensures var tokens := RegisterHandler(d, c, secret, Parsed(b), now, NoFaults).response.body.token;
      RefreshHandler(c, secret, tokens.refreshToken, later) ==
        match UserService.IssuePair(c, secret, d.serial, later)
        case Ok(pair) => Response(StatusOK, TokenJson(pair))
        case Err(e) => Response(StatusInternalServerError, ErrorJson(Describe(e)))
  {
    var step := UserService.Register(d, c, secret, b.login, b.password, now, NoFaults);
    assert step.result.Ok?;
    UserService.RefreshKeepsSubject(c, secret, d.serial, now, later);
  }
}
