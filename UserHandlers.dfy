/**
 * The three session handlers: register (`CreateUserCommandHandler`), login
 * (`LoginUserCommandHandler`) and refresh (`RefreshTokenCommandHandler`). Each
 * looks a user up, may stop early with an error response, may rotate the user's
 * refresh token and expiry, commits, and answers with the user's session value.
 *
 * An exception that escapes a handler is a `Faulted` outcome: a null password
 * reaching the UTF-8 encoder, or a commit the database rejects.
 */
module UserHandlers {
  import opened Wrappers
  import opened Queries
  import opened Entity
  import opened Persistence
  import opened Repository
  import opened Response
  import opened UserCQ
  import opened Mappings
  import opened Configuration
  import opened AuthService
  import opened Sessions

  class CreateUserCommandHandler {
    const context: TasksDbContext
    const authService: AuthService

    /** The handler and the credential service share one request-scoped context. */
    ghost predicate Valid()
      reads context.users, context.workSpaces
    {
      context.Valid() && authService.context == context
    }

    constructor (context: TasksDbContext, authService: AuthService)
      requires authService.context == context
      ensures this.context == context && this.authService == authService
    {
      this.context := context;
      this.authService := authService;
    }

    /** The user a successful registration stores, given the generator's position. */
    function NewUser(request: CreateUserCommand, newId: Guid, now: Instant, position: nat): User
      requires request.password.Some?
    {
      RegisteredUser(request, newId, now, RefreshTokenAt(authService.rng.stream, position),
                     PasswordHash(authService.sha256, request.password.value))
    }

    /** `Handle`: register a user. `newId` is the key the store generates, `now` the clock. */
    method Handle(request: CreateUserCommand, newId: Guid, now: Instant) returns (r: Outcome<RefreshTokenViewModel>)
      requires Valid()
      modifies context.users, context.workSpaces, authService.rng
      ensures Valid()
      // A taken email or username: the matching 400 answer, and nothing changes.
      ensures var a := Classify(old(context.users.rows), request.email, request.username);
              a != UsernameAndEmailAvailable ==>
                r == Completed(ConflictResponse(a)) && unchanged(context.users, context.workSpaces, authService.rng)
      // An available pair: a refresh token is drawn; a null password throws before anything is staged.
      ensures Classify(old(context.users.rows), request.email, request.username) == UsernameAndEmailAvailable ==>
                authService.rng.position == old(authService.rng.position) + 128
      ensures Classify(old(context.users.rows), request.email, request.username) == UsernameAndEmailAvailable &&
              request.password.None? ==>
                r == Faulted(NullArgument) && unchanged(context.users, context.workSpaces)
      // Otherwise the new user is staged and committed with whatever was pending.
      ensures Classify(old(context.users.rows), request.email, request.username) == UsernameAndEmailAvailable &&
              request.password.Some? ==>
                var u := NewUser(request, newId, now, old(authService.rng.position));
                var nu := ApplyAll(UserKey, UserStorable, old(context.users.rows), old(context.users.staged) + [Added(u)]);
                var nw := ApplyAll(WorkSpaceKey, WorkSpaceStorable, old(context.workSpaces.rows), old(context.workSpaces.staged));
                && (r.Completed? <==> nu.Some? && nw.Some?)
                && (r.Completed? ==>
                      && UserStorable(u)
                      && context.users.rows == nu.value && context.workSpaces.rows == nw.value
                      && context.users.staged == [] && context.workSpaces.staged == []
                      && r.response == Success(SessionValue(u, authService.generateJwt(u.email.value, u.userName.value))))
                && (r.Faulted? ==>
                      && r.fault == CommitRejected
                      && context.users.rows == old(context.users.rows)
                      && context.users.staged == old(context.users.staged) + [Added(u)]
                      && unchanged(context.workSpaces))
      // With nothing pending before, exactly the new user is appended, and unique identities stay unique.
      ensures old(context.users.staged) == [] && old(context.workSpaces.staged) == [] &&
              Classify(old(context.users.rows), request.email, request.username) == UsernameAndEmailAvailable &&
              request.password.Some? ==>
                var u := NewUser(request, newId, now, old(authService.rng.position));
                && (r.Completed? <==> UserStorable(u) && !KeyPresent(UserKey, old(context.users.rows), newId))
                && (r.Completed? ==> context.users.rows == old(context.users.rows) + [u])
      ensures old(context.users.staged) == [] && NoDuplicateIdentities(old(context.users.rows)) ==>
                NoDuplicateIdentities(context.users.rows)
    {
      var availability := authService.UniqueEmailAbdUserName(request.email, request.username);
      if availability == EmailUnavailable {
        return Completed(ConflictResponse(EmailUnavailable));
      }
      if availability == UsernameUnavailable {
        return Completed(ConflictResponse(UsernameUnavailable));
      }
      if availability == UsernameAndEmailUnavailable {
        return Completed(ConflictResponse(UsernameAndEmailUnavailable));
      }
      var rows, staged := context.users.rows, context.users.staged;
      var position := authService.rng.position;

      var user := MapCreateUserCommand(request, newId, now);
      var token := authService.GenerateRefreshJWT();
      user := user.(refreshToken := Some(token));
      if request.password.None? {
        return Faulted(NullArgument);
      }
      var hash := authService.HashingPassword(request.password.value);
      user := user.(passwordHash := Some(hash));
      assert user == NewUser(request, newId, now, position);

      context.users.Add(user);
      if staged == [] {
        ApplyFreshInsert(UserKey, UserStorable, rows, user);
        assert [] + [Added(user)] == [Added(user)];
        assert ApplyAll(WorkSpaceKey, WorkSpaceStorable, context.workSpaces.rows, []) == Some(context.workSpaces.rows);
      }
      ApplyAllLastAccepted(UserKey, UserStorable, rows, staged, Added(user));
      var ok := context.SaveChanges();
      if !ok {
        return Faulted(CommitRejected);
      }
      if staged == [] && NoDuplicateIdentities(rows) {
        RegisterKeepsIdentitiesUnique(rows, user);
      }

      var refreshTokenVM := ToRefreshTokenViewModel(user);
      refreshTokenVM := refreshTokenVM.(tokenJwt := Some(authService.generateJwt(user.email.value, user.userName.value)));
      return Completed(Success(refreshTokenVM));
    }
  }

  class LoginUserCommandHandler {
    const unitOfWork: UnitOfWork
    const authService: AuthService
    const configuration: Config

    constructor (unitOfWork: UnitOfWork, authService: AuthService, configuration: Config)
      ensures this.unitOfWork == unitOfWork && this.authService == authService
      ensures this.configuration == configuration
    {
      this.unitOfWork := unitOfWork;
      this.authService := authService;
      this.configuration := configuration;
    }

    /** `Handle`: authenticate by email and password, then rotate the refresh token. */
    method Handle(request: LoginUserCommand, now: Instant) returns (r: Outcome<RefreshTokenViewModel>)
      requires unitOfWork.Valid()
      modifies unitOfWork.context.users, unitOfWork.context.workSpaces, authService.rng
      ensures unitOfWork.Valid()
      // Unknown email: 404, nothing changes.
      ensures FirstOrDefault(old(unitOfWork.context.users.rows), EmailIs(request.email)).None? ==>
                && r == Completed(Failure(UnknownEmail.0, UnknownEmail.1, 404))
                && unchanged(unitOfWork.context.users, unitOfWork.context.workSpaces, authService.rng)
      // A null password throws in the encoder; nothing changes.
      ensures FirstOrDefault(old(unitOfWork.context.users.rows), EmailIs(request.email)).Some? && request.password.None? ==>
                r == Faulted(NullArgument) && unchanged(unitOfWork.context.users, unitOfWork.context.workSpaces, authService.rng)
      // Wrong password: 404, and the token and expiry are not rotated.
      ensures var found := FirstOrDefault(old(unitOfWork.context.users.rows), EmailIs(request.email));
              found.Some? && request.password.Some? &&
              found.value.passwordHash != Some(PasswordHash(authService.sha256, request.password.value)) ==>
                && r == Completed(Failure(WrongPassword.0, WrongPassword.1, 404))
                && unchanged(unitOfWork.context.users, unitOfWork.context.workSpaces, authService.rng)
      // Success: one `Update` of the rotated user, then `Commit`.
      ensures LoginAccepted(old(unitOfWork.context.users.rows), request, authService.sha256) ==>
                var u := SessionRotation(FirstOrDefault(old(unitOfWork.context.users.rows), EmailIs(request.email)).value,
                                 authService.rng.stream, old(authService.rng.position), configuration, now);
                var nu := ApplyAll(UserKey, UserStorable, old(unitOfWork.context.users.rows),
                                   old(unitOfWork.context.users.staged) + [Modified(u)]);
                var nw := ApplyAll(WorkSpaceKey, WorkSpaceStorable, old(unitOfWork.context.workSpaces.rows),
                                   old(unitOfWork.context.workSpaces.staged));
                && authService.rng.position == old(authService.rng.position) + 128
                && UserStorable(u)
                && (r.Completed? <==> nu.Some? && nw.Some?)
                && (r.Completed? ==>
                      && unitOfWork.context.users.rows == nu.value && unitOfWork.context.workSpaces.rows == nw.value
                      && unitOfWork.context.users.staged == [] && unitOfWork.context.workSpaces.staged == []
                      && r.response == Success(SessionValue(u, authService.generateJwt(u.email.value, u.userName.value))))
                && (r.Faulted? ==>
                      && r.fault == CommitRejected
                      && unitOfWork.context.users.rows == old(unitOfWork.context.users.rows)
                      && unitOfWork.context.users.staged == old(unitOfWork.context.users.staged) + [Modified(u)]
                      && unchanged(unitOfWork.context.workSpaces))
      // With nothing pending before, the login commits and replaces exactly that user's row.
      ensures LoginAccepted(old(unitOfWork.context.users.rows), request, authService.sha256) &&
              old(unitOfWork.context.users.staged) == [] && old(unitOfWork.context.workSpaces.staged) == [] ==>
                var u := SessionRotation(FirstOrDefault(old(unitOfWork.context.users.rows), EmailIs(request.email)).value,
                                 authService.rng.stream, old(authService.rng.position), configuration, now);
                r.Completed? && unitOfWork.context.users.rows == ReplaceByKey(UserKey, old(unitOfWork.context.users.rows), u)
    {
      var rows, staged := unitOfWork.context.users.rows, unitOfWork.context.users.staged;
      var position := authService.rng.position;

      var found := unitOfWork.userRepository.Get(EmailIs(request.email));
      if found.None? {
        return Completed(Failure(UnknownEmail.0, UnknownEmail.1, 404));
      }
      var user := found.value;
      FoundIsStored(rows, EmailIs(request.email));
      if request.password.None? {
        return Faulted(NullArgument);
      }
      var passwordHash := authService.HashingPassword(request.password.value);
      if user.passwordHash != Some(passwordHash) {
        return Completed(Failure(WrongPassword.0, WrongPassword.1, 404));
      }

      var refreshTokenExpirationTimeInDays := ConfiguredDays(configuration, RefreshDaysKey);
      var token := authService.GenerateRefreshJWT();
      user := Rotate(user, token, AddDays(now, refreshTokenExpirationTimeInDays));
      assert user == SessionRotation(found.value, authService.rng.stream, position, configuration, now);

      var _ := unitOfWork.userRepository.Update(user);
      if staged == [] {
        ApplyStoredUpdate(UserKey, UserStorable, rows, user);
        assert [] + [Modified(user)] == [Modified(user)];
        assert ApplyAll(WorkSpaceKey, WorkSpaceStorable, unitOfWork.context.workSpaces.rows, []) ==
               Some(unitOfWork.context.workSpaces.rows);
      }
      var ok := unitOfWork.Commit();
      if !ok {
        return Faulted(CommitRejected);
      }

      var refreshTokenVM := ToRefreshTokenViewModel(user);
      refreshTokenVM := refreshTokenVM.(tokenJwt := Some(authService.generateJwt(user.email.value, user.userName.value)));
      return Completed(Success(refreshTokenVM));
    }
  }

  class RefreshTokenCommandHandler {
    const unitOfWork: UnitOfWork
    const authService: AuthService
    const configuration: Config

    constructor (unitOfWork: UnitOfWork, authService: AuthService, configuration: Config)
      ensures this.unitOfWork == unitOfWork && this.authService == authService
      ensures this.configuration == configuration
    {
      this.unitOfWork := unitOfWork;
      this.authService := authService;
      this.configuration := configuration;
    }

    /** `Handle`: accept a username and refresh token, then rotate the refresh token. */
    method Handle(request: RefreshTokenCommand, now: Instant) returns (r: Outcome<RefreshTokenViewModel>)
      requires unitOfWork.Valid()
      modifies unitOfWork.context.users, unitOfWork.context.workSpaces, authService.rng
      ensures unitOfWork.Valid()
      // Unknown user, another token, or an expiry before now: 400, nothing changes.
      ensures !RefreshAccepted(FirstOrDefault(old(unitOfWork.context.users.rows), UserNameIs(request.username)),
                               request.refreshToken, now) ==>
                && r == Completed(Failure(InvalidRefresh.0, InvalidRefresh.1, 400))
                && unchanged(unitOfWork.context.users, unitOfWork.context.workSpaces, authService.rng)
      // Accepted: the tracked user's new token and expiry are detected as a change and committed.
      ensures RefreshAccepted(FirstOrDefault(old(unitOfWork.context.users.rows), UserNameIs(request.username)),
                              request.refreshToken, now) ==>
                var u := SessionRotation(FirstOrDefault(old(unitOfWork.context.users.rows), UserNameIs(request.username)).value,
                                 authService.rng.stream, old(authService.rng.position), configuration, now);
                var nu := ApplyAll(UserKey, UserStorable, old(unitOfWork.context.users.rows),
                                   old(unitOfWork.context.users.staged) + [Modified(u)]);
                var nw := ApplyAll(WorkSpaceKey, WorkSpaceStorable, old(unitOfWork.context.workSpaces.rows),
                                   old(unitOfWork.context.workSpaces.staged));
                && authService.rng.position == old(authService.rng.position) + 128
                && UserStorable(u)
                && (r.Completed? <==> nu.Some? && nw.Some?)
                && (r.Completed? ==>
                      && unitOfWork.context.users.rows == nu.value && unitOfWork.context.workSpaces.rows == nw.value
                      && unitOfWork.context.users.staged == [] && unitOfWork.context.workSpaces.staged == []
                      && r.response == Success(SessionValue(u, authService.generateJwt(u.email.value, u.userName.value))))
                && (r.Faulted? ==>
                      && r.fault == CommitRejected
                      && unitOfWork.context.users.rows == old(unitOfWork.context.users.rows)
                      && unitOfWork.context.users.staged == old(unitOfWork.context.users.staged) + [Modified(u)]
                      && unchanged(unitOfWork.context.workSpaces))
      // With nothing pending before, the refresh commits and replaces exactly that user's row.
      ensures RefreshAccepted(FirstOrDefault(old(unitOfWork.context.users.rows), UserNameIs(request.username)),
                              request.refreshToken, now) &&
              old(unitOfWork.context.users.staged) == [] && old(unitOfWork.context.workSpaces.staged) == [] ==>
                var u := SessionRotation(FirstOrDefault(old(unitOfWork.context.users.rows), UserNameIs(request.username)).value,
                                 authService.rng.stream, old(authService.rng.position), configuration, now);
                r.Completed? && unitOfWork.context.users.rows == ReplaceByKey(UserKey, old(unitOfWork.context.users.rows), u)
    {
      var rows, staged := unitOfWork.context.users.rows, unitOfWork.context.users.staged;
      var position := authService.rng.position;

      var user := unitOfWork.userRepository.Get(UserNameIs(request.username));
      if !RefreshAccepted(user, request.refreshToken, now) {
        return Completed(Failure(InvalidRefresh.0, InvalidRefresh.1, 400));
      }
      var found := user.value;
      FoundIsStored(rows, UserNameIs(request.username));

      var token := authService.GenerateRefreshJWT();
      var refreshTokenExpirationTimeInDays := ConfiguredDays(configuration, RefreshDaysKey);
      var rotated := Rotate(found, token, AddDays(now, refreshTokenExpirationTimeInDays));
      assert rotated == SessionRotation(found, authService.rng.stream, position, configuration, now);

      unitOfWork.context.users.MarkModified(rotated);
      if staged == [] {
        ApplyStoredUpdate(UserKey, UserStorable, rows, rotated);
        assert [] + [Modified(rotated)] == [Modified(rotated)];
        assert ApplyAll(WorkSpaceKey, WorkSpaceStorable, unitOfWork.context.workSpaces.rows, []) ==
               Some(unitOfWork.context.workSpaces.rows);
      }
      var ok := unitOfWork.Commit();
      if !ok {
        return Faulted(CommitRejected);
      }

      var refreshTokenVM := ToRefreshTokenViewModel(rotated);
      refreshTokenVM := refreshTokenVM.(tokenJwt := Some(authService.generateJwt(rotated.email.value, rotated.userName.value)));
      return Completed(Success(refreshTokenVM));
    }
  }
}
