/**
 * The session rules the three user handlers share, and what they imply together:
 * how a registered user is built, how a refresh token is rotated, when a presented
 * refresh token is accepted, the responses the handlers return, and the
 * properties that relate several calls (a rotated token cannot be replayed, a
 * registered user can log in, registration keeps identities unique).
 */
module Sessions {
  import opened Wrappers
  import opened Text
  import opened Queries
  import opened Entity
  import opened Persistence
  import opened Response
  import opened UserCQ
  import opened Mappings
  import opened AuthService
  import opened Configuration

  /** The configuration key the login and refresh handlers read the refresh-token lifetime from. */
  const RefreshDaysKey := "JWT:RefreshTokenExpirationTimeInDays"

  /** The user that registration stores: the mapped command with its refresh token and
      password hash filled in. */
  function RegisteredUser(cmd: CreateUserCommand, id: Guid, now: Instant, token: string, hash: string): (u: User)
    ensures UserKey(u) == id && u.email == cmd.email && u.userName == cmd.username
    ensures u.refreshToken == Some(token) && u.passwordHash == Some(hash)
    // The schema accepts the row exactly when the command's own fields fit it.
    ensures UserStorable(u) <==>
              && cmd.name.Some? && Utf16Length(cmd.name.value) <= 50
              && (cmd.surname.None? || Utf16Length(cmd.surname.value) <= 50)
              && cmd.email.Some? && cmd.username.Some?
  {
    MapCreateUserCommand(cmd, id, now).(refreshToken := Some(token), passwordHash := Some(hash))
  }

  /** A user with a new refresh token and expiry. */
  function Rotate(u: User, token: string, expiry: Instant): (v: User)
    // The row keeps its key, its identity and whether the schema accepts it.
    ensures UserKey(v) == UserKey(u) && v.email == u.email && v.userName == u.userName
    ensures UserStorable(v) <==> UserStorable(u)
    ensures v.refreshToken == Some(token) && v.refreshTokenExpiry == Some(expiry)
  {
    u.(refreshToken := Some(token), refreshTokenExpiry := Some(expiry))
  }

  /** The rotation a login or refresh at `now` performs: the next refresh token from the
      generator, and an expiry the configured number of days after now (0 days when the
      setting is missing or does not parse). */
  function SessionRotation(u: User, stream: nat -> byte, position: nat, config: Config, now: Instant): (v: User)
    ensures UserKey(v) == UserKey(u) && v.email == u.email && v.userName == u.userName
    ensures v.passwordHash == u.passwordHash
    ensures UserStorable(v) <==> UserStorable(u)
    ensures v.refreshToken == Some(RefreshTokenAt(stream, position))
  {
    Rotate(u, RefreshTokenAt(stream, position), AddDays(now, ConfiguredDays(config, RefreshDaysKey)))
  }

  /** A rotated session holds a well-formed refresh token and expires the configured number
      of whole days after now: whatever `int.TryParse` reads from the setting, so `n` days
      for the decimal `n`, `n` days before now for `-n`, and no days at all for a missing
      or unparsable setting. */
  lemma SessionRotationExpiry(u: User, stream: nat -> byte, position: nat, config: Config, now: Instant, n: nat)
    ensures var v := SessionRotation(u, stream, position, config, now);
      && v.refreshToken.Some? && |v.refreshToken.value| == 172
      && (RefreshDaysKey in config && TryParseInt32(Some(config[RefreshDaysKey])).Some? ==>
            v.refreshTokenExpiry == Some(now + TryParseInt32(Some(config[RefreshDaysKey])).value * TicksPerDay))
      && (RefreshDaysKey in config && config[RefreshDaysKey] == Decimal(n) && n <= MaxInt32 ==>
            v.refreshTokenExpiry == Some(now + n * TicksPerDay))
      && (RefreshDaysKey in config && config[RefreshDaysKey] == "-" + Decimal(n) && n <= MaxInt32 ==>
            v.refreshTokenExpiry == Some(now - n * TicksPerDay))
      && (RefreshDaysKey !in config || TryParseInt32(Some(config[RefreshDaysKey])).None? ==>
            v.refreshTokenExpiry == Some(now))
  {
    assert |RefreshTokenAt(stream, position)| == 172 by {
      RefreshTokenShape(stream, position);
    }
    ConfiguredRefreshDays(config, n);
  }

  /** The refresh-token lifetime the handlers read: `n` for the decimal `n`, `-n` for
      `-n`, 0 when the setting is missing or does not parse. */
  lemma ConfiguredRefreshDays(config: Config, n: nat)
    ensures RefreshDaysKey in config && config[RefreshDaysKey] == Decimal(n) && n <= MaxInt32 ==>
              ConfiguredDays(config, RefreshDaysKey) == n
    ensures RefreshDaysKey in config && config[RefreshDaysKey] == "-" + Decimal(n) && n <= MaxInt32 ==>
              ConfiguredDays(config, RefreshDaysKey) == -(n as int)
    ensures RefreshDaysKey !in config || TryParseInt32(Some(config[RefreshDaysKey])).None? ==>
              ConfiguredDays(config, RefreshDaysKey) == 0
  {
    if RefreshDaysKey in config && n <= MaxInt32 &&
       (config[RefreshDaysKey] == Decimal(n) || config[RefreshDaysKey] == "-" + Decimal(n)) {
      ParseDecimal(n);
    }
    if RefreshDaysKey !in config || TryParseInt32(Some(config[RefreshDaysKey])).None? {
      UnparsableIsZero(config, RefreshDaysKey);
    }
  }

  /** Rotation changes the two token fields and nothing else, so it keeps the key and
      what the schema checks. */
  lemma RotateOnlyTokenFields(u: User, token: string, expiry: Instant)
    ensures var v := Rotate(u, token, expiry);
      && v.refreshToken == Some(token) && v.refreshTokenExpiry == Some(expiry)
      && v.id == u.id && v.name == u.name && v.surName == u.surName && v.email == u.email
      && v.passwordHash == u.passwordHash && v.userName == u.userName
      && (UserStorable(v) <==> UserStorable(u))
  {
  }

  /** The value a successful register, login or refresh returns. */
  function SessionValue(u: User, jwt: string): (vm: RefreshTokenViewModel)
    // The mapped user, with the JWT and nothing else added.
    ensures vm.tokenJwt == Some(jwt) && vm.(tokenJwt := None) == ToRefreshTokenViewModel(u)
  {
    ToRefreshTokenViewModel(u).(tokenJwt := Some(jwt))
  }

  /** What the session value carries: the user's identity, its refresh token, and the JWT. */
  lemma SessionValueCarries(u: User, jwt: string)
    ensures var vm := SessionValue(u, jwt);
      && vm.tokenJwt == Some(jwt) && vm.refreshToken == u.refreshToken
      && vm.email == u.email && vm.username == u.userName && vm.name == u.name && vm.surname == u.surName
  {
  }

  /** C#'s lifted `<` on `DateTime?`: false when the left side is null. */
  predicate LiftedLess(a: Option<Instant>, b: Instant)
  {
    a.Some? && a.value < b
  }

  /** The refresh handler's guard passes: the user exists, its token equals the presented
      one (null equals null), and its expiry is not before now. */
  predicate RefreshAccepted(found: Option<User>, presented: Option<string>, now: Instant)
    ensures RefreshAccepted(found, presented, now) ==>
              found.Some? && presented == found.value.refreshToken &&
              (found.value.refreshTokenExpiry.Some? ==> now <= found.value.refreshTokenExpiry.value)
  {
    found.Some? && found.value.refreshToken == presented && !LiftedLess(found.value.refreshTokenExpiry, now)
  }

  /** The edge cases of the guard: an expiry equal to now passes, an earlier one fails, a
      null expiry never expires, and a null stored token matches a missing cookie. */
  lemma RefreshAcceptedCases(u: User, now: Instant)
    ensures !RefreshAccepted(None, u.refreshToken, now)
    ensures u.refreshTokenExpiry == Some(now) ==> RefreshAccepted(Some(u), u.refreshToken, now)
    ensures u.refreshTokenExpiry.None? ==> RefreshAccepted(Some(u), u.refreshToken, now)
    ensures u.refreshTokenExpiry.Some? && u.refreshTokenExpiry.value < now ==> !RefreshAccepted(Some(u), u.refreshToken, now)
    ensures u.refreshToken.None? && !LiftedLess(u.refreshTokenExpiry, now) ==> RefreshAccepted(Some(u), None, now)
    ensures forall t :: Some(t) != u.refreshToken ==> !RefreshAccepted(Some(u), Some(t), now)
  {
  }

  /** The title the register handler answers each unavailable (email, username) pair with. */
  function ConflictTitle(a: ValidationFielUserEnum): string
    requires a != UsernameAndEmailAvailable
  {
    match a
    case EmailUnavailable => "Email já cadastrado."
    case UsernameUnavailable => "UserName já cadastrado."
    case UsernameAndEmailUnavailable => "UserName e e-mail indisponíveis."
  }

  /** The description that goes with each title. */
  function ConflictDescription(a: ValidationFielUserEnum): string
    requires a != UsernameAndEmailAvailable
  {
    match a
    case EmailUnavailable =>
      "O email apresentado já esta sendo utilizado, por favor, tente outro e-mail."
    case UsernameUnavailable =>
      "O UserName apresentado já esta sendo utilizado, por favor, tente outro username."
    case UsernameAndEmailUnavailable =>
      "O UserName e e-mail apresentados já estão sendo utilizado, por favor, tente outros."
  }

  /** The error answer to each unavailable pair: status 400, no value, and the pair's
      own title. */
  function ConflictResponse<T>(a: ValidationFielUserEnum): (r: ResponseBase<T>)
    requires a != UsernameAndEmailAvailable
    ensures r.value.None?
    ensures r.responseInfo.Some? && r.responseInfo.value.httpStatus == 400
    ensures r.responseInfo.value.title == Some(ConflictTitle(a))
  {
    Failure(ConflictTitle(a), ConflictDescription(a), 400)
  }

  /** The three conflicts are told apart by their titles (which differ in length). */
  lemma ConflictTitlesDistinct(a: ValidationFielUserEnum, b: ValidationFielUserEnum)
    requires a != UsernameAndEmailAvailable && b != UsernameAndEmailAvailable && a != b
    ensures ConflictTitle(a) != ConflictTitle(b)
  {
    var lengths := map[EmailUnavailable := 20, UsernameUnavailable := 23, UsernameAndEmailUnavailable := 32];
    assert |ConflictTitle(a)| == lengths[a];
    assert |ConflictTitle(b)| == lengths[b];
  }

  const UnknownEmail := ("Usuário não encontrado.", "O e-mail informado não está cadastrado.")
  const WrongPassword := ("Senha inválida.", "A senha informada está incorreta.")
  const InvalidRefresh := ("Token inválido.", "Refresh Token inválido ou expirado. Faça login novamente.")

  /** The login handler's checks pass: a user has the email, a password was given, and
      its hash is the stored one. */
  predicate LoginAccepted(rows: seq<User>, request: LoginUserCommand, sha256: seq<byte> -> Digest)
    ensures LoginAccepted(rows, request, sha256) ==>
              request.password.Some? && EmailTaken(rows, request.email)
  {
    FirstOrDefaultSpec(rows, EmailIs(request.email));
    var found := FirstOrDefault(rows, EmailIs(request.email));
    found.Some? && request.password.Some? && found.value.passwordHash == Some(PasswordHash(sha256, request.password.value))
  }

  /** The login guard in the source's terms: accepted exactly when some user has the
      email, a password was given, and the first such user's stored hash is the hash of
      that password. */
  lemma LoginAcceptedMeaning(rows: seq<User>, request: LoginUserCommand, sha256: seq<byte> -> Digest)
    ensures LoginAccepted(rows, request, sha256) <==>
              exists k :: 0 <= k < |rows| && rows[k].email == request.email &&
                          (forall j :: 0 <= j < k ==> rows[j].email != request.email) &&
                          request.password.Some? &&
                          rows[k].passwordHash == Some(PasswordHash(sha256, request.password.value))
  {
    var p := EmailIs(request.email);
    FirstOrDefaultSpec(rows, p);
    var k := FirstIndex(rows, p);
    if LoginAccepted(rows, request, sha256) {
      FirstOrDefaultAt(rows, p, k);
      assert forall j :: 0 <= j < k ==> rows[j].email != request.email by {
        assert forall j :: 0 <= j < k ==> !p(rows[j]);
      }
    }
    if exists k :: 0 <= k < |rows| && rows[k].email == request.email &&
                   (forall j :: 0 <= j < k ==> rows[j].email != request.email) &&
                   request.password.Some? &&
                   rows[k].passwordHash == Some(PasswordHash(sha256, request.password.value)) {
      var m :| 0 <= m < |rows| && rows[m].email == request.email &&
               (forall j :: 0 <= j < m ==> rows[j].email != request.email) &&
               request.password.Some? &&
               rows[m].passwordHash == Some(PasswordHash(sha256, request.password.value));
      assert p(rows[m]);
      assert forall j :: 0 <= j < m ==> !p(rows[j]);
      FirstOrDefaultAt(rows, p, m);
    }
  }

  /** A user a lookup finds in a valid table is a stored, schema-valid row. */
  lemma FoundIsStored(rows: seq<User>, p: User -> bool)
    requires TableValid(UserKey, UserStorable, rows)
    requires FirstOrDefault(rows, p).Some?
    ensures UserStorable(FirstOrDefault(rows, p).value)
    ensures KeyPresent(UserKey, rows, FirstOrDefault(rows, p).value.id)
  {
    FirstOrDefaultSpec(rows, p);
  }

  /** No two users share an email, and no two share a username. */
  predicate NoDuplicateIdentities(rows: seq<User>)
  {
    forall i, j :: 0 <= i < j < |rows| ==> rows[i].email != rows[j].email && rows[i].userName != rows[j].userName
  }

  /** Appending a user whose pair was classified available keeps identities unique. */
  lemma RegisterKeepsIdentitiesUnique(rows: seq<User>, u: User)
    requires NoDuplicateIdentities(rows)
    requires Classify(rows, u.email, u.userName) == UsernameAndEmailAvailable
    ensures NoDuplicateIdentities(rows + [u])
  {
    var r := rows + [u];
    forall i, j | 0 <= i < j < |r| ensures r[i].email != r[j].email && r[i].userName != r[j].userName {
      if j == |rows| {
        assert r[i] == rows[i];
        assert !EmailTaken(rows, u.email) && !UserNameTaken(rows, u.userName);
      }
    }
  }

  /** With identities unique, a user is the first and only match for its own email and
      for its own username. */
  lemma UniqueLookup(rows: seq<User>, k: nat)
    requires NoDuplicateIdentities(rows)
    requires k < |rows|
    ensures FirstOrDefault(rows, EmailIs(rows[k].email)) == Some(rows[k])
    ensures FirstOrDefault(rows, UserNameIs(rows[k].userName)) == Some(rows[k])
  {
    FirstOrDefaultAt(rows, EmailIs(rows[k].email), k);
    FirstOrDefaultAt(rows, UserNameIs(rows[k].userName), k);
  }

  /** Replacing the first match of `p` by a row with the same key that still matches
      makes the replacement the first match. */
  lemma FindAfterReplace(rows: seq<User>, p: User -> bool, e: User)
    requires UniqueKeys(UserKey, rows)
    requires FirstOrDefault(rows, p).Some?
    requires UserKey(e) == UserKey(FirstOrDefault(rows, p).value) && p(e)
    ensures FirstOrDefault(ReplaceByKey(UserKey, rows, e), p) == Some(e)
  {
    var k := FirstIndex(rows, p);
    var r := ReplaceByKey(UserKey, rows, e);
    forall j | 0 <= j < k ensures !p(r[j]) {
      assert UserKey(rows[j]) != UserKey(rows[k]);
    }
    FirstOrDefaultAt(r, p, k);
  }

  /** After a refresh rotates a user's token, presenting the old token again fails,
      provided the generator produced a different token. */
  lemma ReplayAfterRefreshFails(rows: seq<User>, username: Option<string>, presented: Option<string>,
                                token: string, expiry: Instant, now: Instant, later: Instant)
    requires UniqueKeys(UserKey, rows)
    requires RefreshAccepted(FirstOrDefault(rows, UserNameIs(username)), presented, now)
    requires Some(token) != presented
    ensures var u := FirstOrDefault(rows, UserNameIs(username)).value;
            var rotated := ReplaceByKey(UserKey, rows, Rotate(u, token, expiry));
            !RefreshAccepted(FirstOrDefault(rotated, UserNameIs(username)), presented, later)
  {
    var u := FirstOrDefault(rows, UserNameIs(username)).value;
    FirstOrDefaultSpec(rows, UserNameIs(username));
    FindAfterReplace(rows, UserNameIs(username), Rotate(u, token, expiry));
  }

  /** After a login rotates a user's token, the token it held before no longer refreshes
      that user's session, provided the generator produced a different token. */
  lemma StaleTokenAfterLogin(rows: seq<User>, email: Option<string>, token: string, expiry: Instant, later: Instant)
    requires UniqueKeys(UserKey, rows) && NoDuplicateIdentities(rows)
    requires FirstOrDefault(rows, EmailIs(email)).Some?
    requires Some(token) != FirstOrDefault(rows, EmailIs(email)).value.refreshToken
    ensures var u := FirstOrDefault(rows, EmailIs(email)).value;
            var rotated := ReplaceByKey(UserKey, rows, Rotate(u, token, expiry));
            !RefreshAccepted(FirstOrDefault(rotated, UserNameIs(u.userName)), u.refreshToken, later)
  {
    var u := FirstOrDefault(rows, EmailIs(email)).value;
    FirstOrDefaultSpec(rows, EmailIs(email));
    var k := FirstIndex(rows, EmailIs(email));
    UniqueLookup(rows, k);
    FindAfterReplace(rows, UserNameIs(u.userName), Rotate(u, token, expiry));
  }

  /** A user just registered with a password is found by its email and passes the
      login password check with that same password. */
  lemma LoginAfterRegister(rows: seq<User>, cmd: CreateUserCommand, id: Guid, now: Instant,
                           token: string, sha256: seq<byte> -> Digest)
    requires NoDuplicateIdentities(rows)
    requires Classify(rows, cmd.email, cmd.username) == UsernameAndEmailAvailable
    requires cmd.password.Some?
    ensures var u := RegisteredUser(cmd, id, now, token, PasswordHash(sha256, cmd.password.value));
      && FirstOrDefault(rows + [u], EmailIs(cmd.email)) == Some(u)
      && u.passwordHash == Some(PasswordHash(sha256, cmd.password.value))
  {
    var u := RegisteredUser(cmd, id, now, token, PasswordHash(sha256, cmd.password.value));
    RegisterKeepsIdentitiesUnique(rows, u);
    UniqueLookup(rows + [u], |rows|);
  }
}
