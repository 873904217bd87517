/** Accounts and token pairs: registration, login and refresh.  Storage is a sequence
    of users in insertion order; ids come from a serial counter, as a database
    sequence hands them out. */
module UserService {
  import opened Outcomes
  import opened Models
  import opened Jwt

  const Hour: int := 3600
  const RefreshLifetime: int := 72 * Hour
  const AccessLifetime: int := Hour
  const RefreshSubject: string := "refresh_token"
  const AccessSubject: string := "access_token"

  datatype Directory = Directory(users: seq<User>, serial: nat)

  /** The state a registration step leaves behind, with its result. */
  datatype UserStep = UserStep(result: Result<Tokens>, directory: Directory)

  /** Rows appear in ascending id order and every id was drawn from the serial. */
  ghost predicate IdOrdered(d: Directory) {
    && d.serial > 0
    && (forall i :: 0 <= i < |d.users| ==> 0 < d.users[i].id < d.serial)
    && (forall i, j :: 0 <= i < j < |d.users| ==> d.users[i].id < d.users[j].id)
  }

  ghost predicate UniqueLogins(d: Directory) {
    forall i, j :: 0 <= i < j < |d.users| ==> d.users[i].login != d.users[j].login
  }

  ghost predicate Wf(d: Directory) {
    IdOrdered(d) && UniqueLogins(d)
  }

  ghost predicate HasLogin(d: Directory, login: string) {
    exists i :: 0 <= i < |d.users| && d.users[i].login == login
  }

  /** The position of the first row with `login`: the row a `login = ?` query
      with `First` returns. */
  function FindByLogin(users: seq<User>, login: string): (r: Option<nat>)
    ensures r.None? <==> forall i :: 0 <= i < |users| ==> users[i].login != login
    ensures r.Some? ==> r.value < |users| && users[r.value].login == login
    ensures r.Some? ==> forall i :: 0 <= i < r.value ==> users[i].login != login
  {
    if users == [] then None
    else if users[0].login == login then Some(0)
    else match FindByLogin(users[1..], login)
      case None => None
      case Some(i) => Some(i + 1)
  }

  /** `First` orders by primary key: with rows in id order, the first match is the
      matching row with the least id. */
  lemma FirstMatchHasLeastId(d: Directory, login: string)
    requires IdOrdered(d)
    requires FindByLogin(d.users, login).Some?
    ensures forall j :: 0 <= j < |d.users| && d.users[j].login == login ==>
      d.users[FindByLogin(d.users, login).value].id <= d.users[j].id
  {
  }

  function RefreshClaims(id: nat, now: int): Claims {
    Claims(id, RefreshSubject, now + RefreshLifetime)
  }

  function AccessClaims(id: nat, now: int): Claims {
    Claims(id, AccessSubject, now + AccessLifetime)
  }

  /** Sign the refresh token, then the access token, both for `id`; the first
      signing failure is the result. */
  function IssuePair(c: Crypto, secret: string, id: nat, now: int): (r: Result<Tokens>)
    ensures r.Err? ==> r.error.Signing?
    ensures r.Ok? <==>
      c.sign(secret, RefreshClaims(id, now)).Done? && c.sign(secret, AccessClaims(id, now)).Done?
    ensures c.sign(secret, RefreshClaims(id, now)).Failed? ==>
      r == Err(Signing(c.sign(secret, RefreshClaims(id, now)).message))
    ensures c.sign(secret, RefreshClaims(id, now)).Done? && c.sign(secret, AccessClaims(id, now)).Failed? ==>
      r == Err(Signing(c.sign(secret, AccessClaims(id, now)).message))
    ensures r.Ok? ==>
      r.value == Tokens(c.sign(secret, RefreshClaims(id, now)).value, c.sign(secret, AccessClaims(id, now)).value)
  {
    match c.sign(secret, RefreshClaims(id, now))
    case Failed(m) => Err(Signing(m))
    case Done(refresh) =>
      match c.sign(secret, AccessClaims(id, now))
      case Failed(m) => Err(Signing(m))
      case Done(access) => Ok(Tokens(refresh, access))
  }

  /** Every issued pair carries the subject's id; the refresh token says
      "refresh_token" and lives 72 hours, the access token says "access_token" and
      lives one hour. */
  lemma IssuedPairCarriesClaims(c: Crypto, secret: string, id: nat, now: int)
    requires Faithful(c)
    requires IssuePair(c, secret, id, now).Ok?
    ensures var p := IssuePair(c, secret, id, now).value;
      && c.decode(p.refreshToken) == Done(Decoded(Hmac(256), Claims(id, "refresh_token", now + 259200)))
      && c.decode(p.accessToken) == Done(Decoded(Hmac(256), Claims(id, "access_token", now + 3600)))
  {
  }

  /** Register: look the login up, refuse a taken one, store the hash of the
      password under the next serial id, then issue a pair for the new id.
      A signing failure comes after the insert, so the account stays. */
  function Register(d: Directory, c: Crypto, secret: string, login: string, password: string,
                    now: int, f: Faults): (r: UserStep)
    ensures r.result == Err(AlreadyExists) <==> f.read.None? && HasLogin(d, login)
    ensures f.read.Some? ==> r == UserStep(Err(Storage(f.read.value)), d)
    ensures f.read.None? && !HasLogin(d, login) && f.write.Some? ==>
      r == UserStep(Err(Storage(f.write.value)), d)
    ensures r.directory == d || r.directory == Directory(d.users + [User(d.serial, login, c.hash(password))], d.serial + 1)
    ensures r.directory != d <==> f.read.None? && !HasLogin(d, login) && f.write.None?
    ensures r.result.Ok? ==> r.directory.users == d.users + [User(d.serial, login, c.hash(password))]
    ensures r.directory != d ==> r.result == IssuePair(c, secret, d.serial, now)
    ensures Wf(d) ==> Wf(r.directory)
  {
    if f.read.Some? then UserStep(Err(Storage(f.read.value)), d)
    else if FindByLogin(d.users, login).Some? then UserStep(Err(AlreadyExists), d)
    else if f.write.Some? then UserStep(Err(Storage(f.write.value)), d)
    else
      var user := User(d.serial, login, c.hash(password));
      UserStep(IssuePair(c, secret, user.id, now), Directory(d.users + [user], d.serial + 1))
  }

  /** Login: an unknown login and a wrong password give the same error; on success
      the pair is issued for the stored user's id.  Login reads the directory only. */
  function Login(d: Directory, c: Crypto, secret: string, login: string, password: string,
                 now: int, fault: Option<string>): (r: Result<Tokens>)
    ensures fault.Some? ==> r == Err(Storage(fault.value))
    ensures fault.None? && !HasLogin(d, login) ==> r == Err(Unauthorized)
    ensures r.Err? && r.error != Unauthorized ==> r.error.Storage? || r.error.Signing?
    ensures r != Err(Unauthorized) && fault.None? ==>
      exists i :: 0 <= i < |d.users| && d.users[i].login == login &&
        d.users[i].passwordHash == c.hash(password) && r == IssuePair(c, secret, d.users[i].id, now)
  {
    if fault.Some? then Err(Storage(fault.value))
    else match FindByLogin(d.users, login)
      case None => Err(Unauthorized)
      case Some(i) =>
        var user := d.users[i];
        if user.login != login || user.passwordHash != c.hash(password) then Err(Unauthorized)
        else IssuePair(c, secret, user.id, now)
  }

  /** With unique logins, login fails with Unauthorized exactly when no stored user
      has that login and the hash of that password. */
  lemma LoginAuthenticates(d: Directory, c: Crypto, secret: string, login: string, password: string, now: int)
    requires UniqueLogins(d)
    ensures Login(d, c, secret, login, password, now, None) == Err(Unauthorized) <==>
      !exists i :: 0 <= i < |d.users| && d.users[i].login == login && d.users[i].passwordHash == c.hash(password)
  {
    var r := FindByLogin(d.users, login);
    if r.Some? {
      var i := r.value;
      forall j | 0 <= j < |d.users| && d.users[j].login == login
        ensures j == i
      {
      }
    }
  }

  /** Registering and then logging in with the same credentials issues a pair for
      the id the registration assigned. */
  lemma RegisterThenLogin(d: Directory, c: Crypto, secret: string, login: string, password: string,
                          now: int, later: int)
    requires Register(d, c, secret, login, password, now, NoFaults).result.Ok?
    ensures var d' := Register(d, c, secret, login, password, now, NoFaults).directory;
      Login(d', c, secret, login, password, later, None) == IssuePair(c, secret, d.serial, later)
  {
    var d' := Register(d, c, secret, login, password, now, NoFaults).directory;
    var n := |d.users|;
    assert d'.users[n].login == login;
    var r := FindByLogin(d'.users, login);
    assert forall j :: 0 <= j < n ==> d'.users[j] == d.users[j];
    assert r.Some? && r.value == n;
  }

  /** Refresh: decode the token, refuse a non-HMAC header in the key function, let
      the library check signature and expiry, then issue a pair for the token's
      `id` claim.  The token's `subject` is never read and no state is touched. */
  function Refresh(c: Crypto, secret: string, raw: string, now: int): (r: Result<Tokens>)
    ensures c.decode(raw).Failed? ==> r == Err(Malformed(c.decode(raw).message))
    ensures c.decode(raw).Done? && !c.decode(raw).value.alg.Hmac? ==> r == Err(UnexpectedSigningMethod)
    ensures c.decode(raw).Done? && c.decode(raw).value.alg.Hmac? && c.verify(secret, raw, now).Failed? ==>
      r == Err(Rejected(c.verify(secret, raw, now).message))
    ensures c.decode(raw).Done? && c.decode(raw).value.alg.Hmac? && c.verify(secret, raw, now).Done? ==>
      r == IssuePair(c, secret, c.decode(raw).value.claims.id, now)
    ensures r.Ok? ==>
      && c.decode(raw).Done? && c.decode(raw).value.alg.Hmac?
      && c.verify(secret, raw, now).Done?
      && r == IssuePair(c, secret, c.decode(raw).value.claims.id, now)
  {
    match c.decode(raw)
    case Failed(m) => Err(Malformed(m))
    case Done(token) =>
      if !token.alg.Hmac? then Err(UnexpectedSigningMethod)
      else match c.verify(secret, raw, now)
        case Failed(m) => Err(Rejected(m))
        case Done(_) => IssuePair(c, secret, token.claims.id, now)
  }

  /** Refreshing with an issued refresh token before it expires issues a pair for
      the same user. */
  lemma RefreshKeepsSubject(c: Crypto, secret: string, id: nat, now: int, later: int)
    requires Faithful(c)
    requires IssuePair(c, secret, id, now).Ok?
    requires later < now + RefreshLifetime
    ensures Refresh(c, secret, IssuePair(c, secret, id, now).value.refreshToken, later) ==
      IssuePair(c, secret, id, later)
  {
    IssuedPairCarriesClaims(c, secret, id, now);
  }

  /** Refresh does not look at the token's kind: an access token, presented within
      its hour, refreshes just as well. */
  lemma RefreshIgnoresKind(c: Crypto, secret: string, id: nat, now: int, later: int)
    requires Faithful(c)
    requires IssuePair(c, secret, id, now).Ok?
    requires later < now + AccessLifetime
    ensures Refresh(c, secret, IssuePair(c, secret, id, now).value.accessToken, later) ==
      IssuePair(c, secret, id, later)
  {
    IssuedPairCarriesClaims(c, secret, id, now);
  }

  /** Claims hold whole seconds and signing is deterministic, so a refresh within
      the second the pair was issued hands back the very same pair. */
  lemma RefreshInSameSecondRepeatsPair(c: Crypto, secret: string, id: nat, now: int)
    requires Faithful(c)
    requires IssuePair(c, secret, id, now).Ok?
    ensures Refresh(c, secret, IssuePair(c, secret, id, now).value.refreshToken, now) ==
      IssuePair(c, secret, id, now)
  {
    RefreshKeepsSubject(c, secret, id, now, now);
  }
}
