# Authentication and session lifecycle of AppTaks, in Dafny

This project models the authentication and session core of the AppTaks task-management backend, and proves properties of the model. The core has these parts:

- **Credential service** (`AuthService`). It hashes passwords as SHA-256 rendered in upper-case hex. It generates refresh tokens as 128 random bytes in base64. It classifies an (email, username) pair as available or taken. It issues JWTs.
- **Register handler** (`CreateUserCommandHandler`). It checks the pair, maps the command to a `User` with a refresh token and a password hash, adds it and saves.
- **Login handler** (`LoginUserCommandHandler`). It finds the user by email and checks the password hash. It then rotates the refresh token and its expiry, calls `Update` and commits.
- **Refresh handler** (`RefreshTokenCommandHandler`). It finds the user by username. It accepts the presented refresh token only if it equals the stored one and is not expired. It then rotates the token and commits.
- **Workspace handler** (`CreateWorkSpaceHandler`). It finds the owner by id, stages a new workspace and commits.
- **Store**. `BaseRepository<T>` provides `Get`, `GetAll`, `Create` and `Update`; the last two only stage changes. `UnitOfWork.Commit` saves the shared `TasksDbContext`.
- **Supporting rules**. These are the `User` and `WorkSpace` records with their annotations, the AutoMapper profile (a registered user's refresh token expires two days after registration), and the two FluentValidation validators.

Modelling choices:

- **Nullable strings.** A C# `string?` is an `Option<string>`. Option equality is C# equality, so null equals null.
- **Time.** Time is one integer clock counted in `DateTime` ticks (`TicksPerDay = 864000000000`). `now` is a parameter of each handler. The code mixes `DateTime.Now` and `DateTime.UtcNow`; the model uses the one clock for both.
- **Configuration.** It is a `map<string, string>`. A lifetime setting is read with `int.TryParse` (`Configuration.TryParseInt32`), which models .NET's integer grammar and gives 0 when parsing fails.
- **Library internals.**
  - SHA-256 is a function from bytes to a 32-byte `Digest`.
  - JWT issuance is a function of (email, username): `AuthService.generateJwt`.
  - The random generator is an `EntropySource` that hands out the bytes of a fixed stream from a moving position.
  - The key EF generates for a new row is a `newId` parameter.
- **Store.** The database context has two tables, `users` and `workSpaces`. Each table holds its committed `rows` and its `staged` changes (`Added` or `Modified`).
- **Commit.** `SaveChanges` applies every staged change of both tables in one step, or none of them. The database rejects three things:
  - an insert whose key is taken;
  - an update of a key that is not stored;
  - a row that breaks the schema (a `[Required]` column that is null, or a value longer than its column).
- **Mutation without `Update`.** The refresh handler changes a tracked user and never calls `Update`. EF's change detection then stages a modification, which the model writes as `EntitySet.MarkModified`.
- **Exceptions.** An exception that escapes a handler is the outcome `Faulted`. Two are modelled: `NullArgument`, when a null password reaches the UTF-8 encoder, and `CommitRejected`, when `SaveChanges` throws. Any other result is `Completed(ResponseBase)`.

Where the code and the intended design differ, the model follows the code:

- The register flow sets the refresh-token expiry to a fixed now plus two days. This comes from the mapping profile, not from the configured lifetime.
- The refresh flow treats a null expiry as not expired, because C#'s lifted `<` is false when one side is null.
- A null password, or a commit the database rejects, ends in an exception, not in an error response.
- `UnitOfWork` declares no `WorkSpaceRepository`, but `CreateWorkSpaceHandler` uses one. The model gives `UnitOfWork` a workspace repository over the same context.

## Model

| member | source | states |
|---|---|---|
| Response.Failure | Application/Response/ResponseInfo.cs:6-22 | An error response carries its `ResponseInfo`, with the given status, and a null value |
| Response.Success | Application/Response/ResponseBase.cs:9-20 | A success response has a null `ResponseInfo` and carries the value |
| Queries.FirstIndex | Infra/Repository/UnitOfWork/BaseRepository.cs:31-34 | The index of the first element satisfying the predicate: no earlier element satisfies it, and it is the sequence length when none does |
| Queries.Exists | Services/AuthServices/AuthService.cs:103-105 | `List.Exists` is true exactly when some element satisfies the predicate |
| Queries.FirstOrDefaultSpec | Infra/Repository/UnitOfWork/BaseRepository.cs:31-34 | `FirstOrDefault` returns an element of the sequence that satisfies the predicate and has no earlier match, and returns null exactly when no element matches |
| Queries.FirstOrDefaultAt | Infra/Repository/UnitOfWork/BaseRepository.cs:31-34 | If index k is the earliest element that satisfies the predicate, `FirstOrDefault` returns that element |
| HexFormat.HexUpperAt | Services/AuthServices/AuthService.cs:89-92 | Digest byte k becomes characters 2k and 2k+1 of the output: the high nibble first, then the low nibble, as upper-case hex digits |
| HexFormat.HexUpperLength | Services/AuthServices/AuthService.cs:86-95 | The hex text has two characters per byte |
| HexFormat.HexUpperAlphabet | Services/AuthServices/AuthService.cs:91 | Every output character is one of 0-9 or A-F |
| HexFormat.HexRoundTrip | Services/AuthServices/AuthService.cs:89-92 | Decoding the hex text gives back exactly the digest bytes |
| HexFormat.HexUpperInjective | Services/AuthServices/AuthService.cs:89-92 | Different digests give different hex texts |
| Base64.EncodeShape | Services/AuthServices/AuthService.cs:72 | The RFC 4648 section 4 encoding has 4·⌈n/3⌉ characters; all are from the base64 alphabet except a trailing '=' padding of 0, 1 or 2 characters by n mod 3 |
| Base64.RoundTrip | Services/AuthServices/AuthService.cs:72 | Decoding the encoding gives back the bytes. The decoder is strict: it accepts padding only in the last group, and requires the unused pad bits to be zero |
| Base64.NonCanonicalPaddingRejected | Services/AuthServices/AuthService.cs:72 | Padded groups with non-zero unused bits ("AB==", "AAB=") are rejected, as section 3.5 of RFC 4648 permits, so every accepted text is a canonical encoding |
| Base64.Encode128 | Services/AuthServices/AuthService.cs:63-72 | 128 bytes encode to 172 characters: 171 from the alphabet, then one '=' |
| AuthService.EntropySource.GetBytes | Services/AuthServices/AuthService.cs:66-69 | Fills the array in place with the next `Length` bytes of the generator's stream, and advances the generator by that many |
| AuthService.AuthService.HashingPassword | Services/AuthServices/AuthService.cs:81-96 | The byte-by-byte `X2` loop yields `PasswordHash`, the upper-case hex of SHA-256 over the password's UTF-8 bytes |
| AuthService.PasswordHashShape | Services/AuthServices/AuthService.cs:84-95 | The hash is unsalted: 64 upper-case hex characters, a function of the password alone, which decode back to the digest |
| AuthService.PasswordHashMatch | Services/AuthServices/AuthService.cs:84-92 | Two passwords have equal hashes exactly when SHA-256 maps their UTF-8 bytes to the same digest |
| AuthService.AuthService.GenerateRefreshJWT | Services/AuthServices/AuthService.cs:60-73 | Returns the base64 encoding of the next 128 bytes of the generator, and advances the generator by 128 |
| AuthService.RefreshTokenShape | Services/AuthServices/AuthService.cs:63-72 | A refresh token has 172 characters. The first 171 are from the base64 alphabet and only the last is '='. It decodes to the 128 random bytes |
| AuthService.RefreshTokensDistinct | Services/AuthServices/AuthService.cs:69-72 | Different random bytes give different refresh tokens |
| AuthService.Classify | Services/AuthServices/AuthService.cs:101-122 | The answer is `UsernameAndEmailUnavailable` iff some user has the email and some user has the username. It is `EmailUnavailable` iff only the email is taken, `UsernameUnavailable` iff only the username is taken, and `UsernameAndEmailAvailable` iff neither is taken. Comparison is ordinal equality |
| AuthService.AuthService.UniqueEmailAbdUserName | Services/AuthServices/AuthService.cs:98-123 | Returns `Classify` of the committed users. It has no `modifies` clause, so it changes nothing |
| Configuration.TryParseInt32 | Application/UserCQ/Handlers/LoginUserCommandHandler.cs:83 | `int.TryParse` succeeds only with a value in the Int32 range |
| Configuration.ConfiguredDays | Application/UserCQ/Handlers/LoginUserCommandHandler.cs:83 | The lifetime a handler reads is an Int32. It is 0 when the key is missing, and the parsed value when parsing succeeds |
| Configuration.ParseDecimal | Application/UserCQ/Handlers/LoginUserCommandHandler.cs:83 | A decimal setting n, or -n, up to Int32.MaxValue parses to its value |
| Configuration.UnparsableIsZero | Application/UserCQ/Handlers/LoginUserCommandHandler.cs:83 | A missing or unparsable setting yields 0 days |
| Entity.EmailAddressMeaning | Domain/Entity/User.cs:21-23 | `[EmailAddress]` accepts a string exactly when it has no CR or LF and exactly one '@', which is neither the first nor the last character |
| Entity.AnnotationsImplyStorable | Domain/Entity/User.cs:8-33 | Consistency check between the two definitions: a `User` or `WorkSpace` meeting its declared annotations satisfies the schema's NOT NULL and column-length constraints |
| Entity.NewWorkSpaceAnnotations | Domain/Entity/WorkSpace.cs:11-19 | A workspace built with the defaults (status `Active`, created now) meets its annotations exactly when the title is non-blank and 3 to 45 code units long |
| Mappings.GenerateExpirationTime | Application/Mappings/ProfileMappings.cs:21-24 | The register-time expiry lies exactly two days after now |
| Mappings.MapCreateUserCommand | Application/Mappings/ProfileMappings.cs:12-15 | The mapped user has the assigned key. With the password hash still null, the schema would not yet accept it; the fields it copies are stated by `Mappings.RegisteredUserMapping` |
| Mappings.RegisteredUserMapping | Application/Mappings/ProfileMappings.cs:12-15 | The mapped user copies name, surname, email and username. Its refresh token and password hash are null. Its refresh-token expiry is exactly two days after now, and so later than now |
| Mappings.UserInfoHasNoToken | Application/Mappings/ProfileMappings.cs:17-18 | Definition check: `User→UserInfoViewModel` leaves `TokenJWT` null and copies the identity |
| Mappings.ToRefreshTokenViewModel | Application/UserCQ/Handlers/CreateUserCommandHandler.cs:88 | The assumed by-name `User→RefreshTokenViewModel` map: name, surname, email, username and refresh token are copied, and `TokenJWT` is null |
| Persistence.ReplaceByKey | Infra/Repository/UnitOfWork/BaseRepository.cs:61-65 | An update keeps the table's length and its key column, row by row. Updating a key that is not stored changes nothing |
| Persistence.ReplaceByKeyStored | Infra/Repository/UnitOfWork/BaseRepository.cs:61-65 | Updating a stored key of a table with unique keys keeps the keys unique. The entity takes the old row's place and is the only row with its key. As a multiset, the table loses the old row and gains the entity |
| Persistence.ApplyChangePreservesValid | Infra/Repository/UnitOfWork/UnitOfWork.cs:36-39 | A change the database accepts leaves unique keys and schema-valid rows |
| Persistence.ApplyAllPreservesValid | Infra/Repository/UnitOfWork/UnitOfWork.cs:36-39 | A commit the database accepts leaves unique keys and schema-valid rows |
| Persistence.ApplyAllConcat | Infra/Repository/UnitOfWork/UnitOfWork.cs:36-39 | Applying a concatenation of changes equals applying the first batch and then the second to its result; the whole is rejected if either part is. So two `SaveChanges` in a row are not one commit of both batches: a rejected second commit leaves the first in place, while a single commit of both leaves nothing |
| Persistence.ApplyAllLastAccepted | Application/UserCQ/Handlers/CreateUserCommandHandler.cs:83-85 | If a commit accepts a batch ending in a change, that change's row is schema-valid |
| Persistence.ApplyFreshInsert | Infra/Repository/UnitOfWork/BaseRepository.cs:50-54 | A lone staged insert commits iff the row is schema-valid and its key is not already stored; then the row is appended |
| Persistence.ApplyStoredUpdate | Infra/Repository/UnitOfWork/BaseRepository.cs:61-65 | A lone staged update commits iff the row is schema-valid and its key is stored; then that row is replaced |
| Persistence.EntitySet.Add | Infra/Repository/UnitOfWork/BaseRepository.cs:52 | `Add` stages an insert at the end of the pending changes; committed rows are untouched |
| Persistence.EntitySet.MarkModified | Infra/Repository/UnitOfWork/BaseRepository.cs:63 | `Update` and change detection stage a modification; committed rows are untouched |
| Persistence.TasksDbContext.SaveChanges | Infra/Repository/UnitOfWork/UnitOfWork.cs:36-39 | All staged changes of both tables apply or none do. On success the tables are the result and nothing is pending. On rejection both tables, and their pending changes, are exactly as before. The store stays valid |
| Repository.BaseRepository.Get | Infra/Repository/UnitOfWork/BaseRepository.cs:31-34 | Returns the first committed entity satisfying the predicate, or null; changes nothing |
| Repository.BaseRepository.GetAll | Infra/Repository/UnitOfWork/BaseRepository.cs:40-43 | Returns every committed entity of the type |
| Repository.BaseRepository.Create | Infra/Repository/UnitOfWork/BaseRepository.cs:50-54 | Returns its argument and only stages its insert; nothing is persisted |
| Repository.BaseRepository.Update | Infra/Repository/UnitOfWork/BaseRepository.cs:61-65 | Returns its argument and only stages the replacement by key; nothing is persisted |
| Repository.UnitOfWork.constructor | Infra/Repository/UnitOfWork/UnitOfWork.cs:21-25 | Uses the given user repository, or else a new one over the same context. Either way the repository is non-null and works on this context's users |
| Repository.UnitOfWork.Commit | Infra/Repository/UnitOfWork/UnitOfWork.cs:36-39 | Applies everything staged since the last commit, all or nothing, and leaves nothing pending. A commit with nothing staged succeeds and changes no rows |
| Validators.ValidateCreateUser | Application/UserCQ/Validators/CreateUserComandValidator.cs:11-15 | Reports the email-empty message iff the email is null or blank, and the email-invalid message iff the address check fails. Reports the username message iff the username is null or blank. Reports nothing else, and nothing at all exactly when all three checks pass |
| Validators.ValidateRefreshToken | Application/UserCQ/Validators/RefreshTokenCommandValidator.cs:10-12 | Reports "Username é obrigatório." iff the username is null or blank. Reports the length message iff the username is longer than 50 UTF-16 code units |
| Validators.EmailAddressRuleMeaning | Application/UserCQ/Validators/CreateUserComandValidator.cs:12 | The validator's address check accepts exactly one '@' that is neither first nor last |
| Validators.ValidatorLooserThanAnnotation | Application/UserCQ/Validators/CreateUserComandValidator.cs:12 | Every address `[EmailAddress]` accepts passes the validator. The converse fails: "a\n@b" passes the validator and is rejected by the annotation |
| Validators.EmptyAndNullEmail | Application/UserCQ/Validators/CreateUserComandValidator.cs:11-12 | Worked example, covered by `Validators.ValidateCreateUser`: an empty email gets both email messages. A null email gets only the empty message |
| Validators.CreateUserRulesIndependent | Application/UserCQ/Validators/CreateUserComandValidator.cs:11-15 | Name, surname and password are never looked at, and the email and username rules report independently |
| Validators.RefreshTokenAccepted | Application/UserCQ/Validators/RefreshTokenCommandValidator.cs:10-12 | A command is accepted iff its username is non-blank and 1 to 50 code units long. `RefreshToken` never matters |
| Validators.LongBlankUsername | Application/UserCQ/Validators/RefreshTokenCommandValidator.cs:10-12 | Worked example, covered by `Validators.ValidateRefreshToken`: a blank username of 51 spaces gets both messages, in rule order |
| Sessions.RegisteredUser | Application/UserCQ/Handlers/CreateUserCommandHandler.cs:74-80 | The user registration stores has the assigned key, the command's email and username, the drawn refresh token and the password hash. The schema accepts it exactly when the command's name, surname, email and username fit their columns |
| Sessions.SessionRotation | Application/UserCQ/Handlers/LoginUserCommandHandler.cs:83-87 | A login or refresh rotation keeps the user's key, email, username and hash, and schema validity. It installs the refresh token the generator yields; the expiry is stated by `Sessions.SessionRotationExpiry` |
| Sessions.SessionRotationExpiry | Application/UserCQ/Handlers/LoginUserCommandHandler.cs:83-87 | A rotated user holds a 172-character refresh token. Its expiry is now plus d days for whatever `int.TryParse` reads as d: now plus n days for the decimal n, now minus n days for "-n", and exactly now for a missing or unparsable setting |
| Sessions.ConfiguredRefreshDays | Application/UserCQ/Handlers/RefreshTokenCommandHandler.cs:69 | The refresh-token lifetime read from `JWT:RefreshTokenExpirationTimeInDays` is n for a setting written as the decimal n, -n for "-n", and 0 days when the setting is missing or unparsable |
| Sessions.Rotate | Application/UserCQ/Handlers/LoginUserCommandHandler.cs:86-87 | A rotated user has the new token and expiry and keeps its key, email and username. The schema accepts it exactly when it accepted the user before |
| Sessions.RotateOnlyTokenFields | Application/UserCQ/Handlers/LoginUserCommandHandler.cs:86-91 | Rotation changes only `RefreshToken` and its expiry. Id, name, surname, email, hash and username are untouched, and schema validity is kept |
| Sessions.SessionValue | Application/UserCQ/Handlers/LoginUserCommandHandler.cs:94-101 | The returned view model is the mapped user with the JWT set and nothing else added |
| Sessions.SessionValueCarries | Application/UserCQ/Handlers/LoginUserCommandHandler.cs:94-101 | The returned value carries the user's identity, its refresh token and the given JWT |
| Sessions.RefreshAccepted | Application/UserCQ/Handlers/RefreshTokenCommandHandler.cs:51 | A refresh passes the guard only for a found user whose stored token equals the presented one and whose expiry, if set, is not before now |
| Sessions.RefreshAcceptedCases | Application/UserCQ/Handlers/RefreshTokenCommandHandler.cs:51 | The refresh guard: a missing user fails; an expiry equal to now passes; an earlier expiry fails; a null expiry passes; a null stored token matches an absent cookie; any other token fails |
| Sessions.ConflictResponse | Application/UserCQ/Handlers/CreateUserCommandHandler.cs:32-72 | Every conflict answer has status 400, a null value, and the title of its own conflict |
| Sessions.ConflictTitlesDistinct | Application/UserCQ/Handlers/CreateUserCommandHandler.cs:38-66 | The three conflicts have three different titles, so a client can tell them apart |
| Sessions.LoginAccepted | Application/UserCQ/Handlers/LoginUserCommandHandler.cs:50-69 | A login passes the guard only with a password given, and only for an email some user has; the exact condition is stated by `Sessions.LoginAcceptedMeaning` |
| Sessions.LoginAcceptedMeaning | Application/UserCQ/Handlers/LoginUserCommandHandler.cs:50-69 | The login guard passes exactly when some user has the email, a password is given, and the first user with that email stores the hash of that password |
| Sessions.FoundIsStored | Application/UserCQ/Handlers/LoginUserCommandHandler.cs:50 | A user found in the store is a stored, schema-valid row whose key is present |
| Sessions.RegisterKeepsIdentitiesUnique | Application/UserCQ/Handlers/CreateUserCommandHandler.cs:30-85 | Storing a user whose pair was classified available keeps emails and usernames unique |
| Sessions.UniqueLookup | Services/AuthServices/AuthService.cs:101-105 | With unique identities, a user is the first match for its own email and for its own username |
| Sessions.FindAfterReplace | Application/UserCQ/Handlers/RefreshTokenCommandHandler.cs:48-73 | After the first match is replaced by a row with the same key that still matches, the replacement is the first match |
| Sessions.ReplayAfterRefreshFails | Application/UserCQ/Handlers/RefreshTokenCommandHandler.cs:51-66 | After a refresh rotates the token, presenting the old token fails at any time, provided the generator produced a different token |
| Sessions.StaleTokenAfterLogin | Application/UserCQ/Handlers/LoginUserCommandHandler.cs:86-91 | After a login rotates the token, the token held before no longer refreshes that user, provided the new token differs |
| Sessions.LoginAfterRegister | Application/UserCQ/Handlers/CreateUserCommandHandler.cs:80-85 | A user just registered is found by its email and passes the login password check with the same password |
| UserHandlers.CreateUserCommandHandler.Handle | Application/UserCQ/Handlers/CreateUserCommandHandler.cs:28-99 | Conflicts return their 400 answer and change nothing. Otherwise a token is drawn. A null password faults. The user with the hashed password and the drawn token is staged and committed. On success the value is that user's session with a JWT for its email and username. With nothing pending before, exactly that user is appended, and unique identities stay unique |
| UserHandlers.LoginUserCommandHandler.Handle | Application/UserCQ/Handlers/LoginUserCommandHandler.cs:47-103 | An unknown email gives 404 "Usuário não encontrado." and a wrong password gives 404 "Senha inválida."; both change nothing, including the generator. On success the user is rotated to a fresh token and the configured expiry, staged by one `Update` and committed, and the session value is returned. With nothing pending before, the commit succeeds and replaces exactly that row |
| UserHandlers.RefreshTokenCommandHandler.Handle | Application/UserCQ/Handlers/RefreshTokenCommandHandler.cs:45-86 | A missing user, a different token or an expiry before now gives 400 "Token inválido." and changes nothing. On success the tracked user's token and expiry are rotated, detected and committed, and the session value is returned. With nothing pending before, the commit succeeds and replaces exactly that row |
| WorkspaceHandlers.CreateWorkSpaceHandler.Handle | Application/WorkspaceCQ/Handlers/CreateWorkSpaceHandler.cs:22-53 | An unknown owner gives 400 "Usuário não encontrado" and creates nothing. Otherwise one workspace, owned by the found user and with the requested title, is staged and committed, and its view model is returned. With nothing pending before, exactly that workspace is appended, or the commit is rejected |
| WorkspaceHandlers.CreatedViewModel | Application/Mappings/WorkSpaceMappings.cs:11-12 | The returned view model has the workspace's id and title, the owner's id, status `Active` and the creation time |

## Left out

- SHA-256, HMAC-SHA256 JWT signing and `RandomNumberGenerator` are not modelled inside. They are a function to 32-byte digests, a function of (email, username), and a fixed byte stream.
- `GenerateJWT` claims and lifetime are not modelled. This covers the issuer, the audience and the signing key, the `CurrentTime` claim, and the `JWT:TokenExpirationTimeInDays` expiry. It also covers the `EmailIdentifier` claim, which `Split("@").ToString()` makes the array's type name rather than part of the email. A null or short signing key, which throws, is not modelled either.
- `BaseRepository.Delete` is not modelled. It passes a boxed `Guid` to `DbContext.Remove(object)`, which throws `InvalidOperationException` because `Guid` is not an entity type (BaseRepository.cs:71-75). No handler in the core calls it.
- Concurrency is not modelled. Handlers run one after another, so the race between the uniqueness check and the insert, and the race between two refreshes, are outside the model.
- `DateTime` range limits are not modelled: `AddDays` never overflows in the model.
- `DateTime.Now` and `DateTime.UtcNow` are one clock in the model, although the login handler uses UTC and the refresh handler local time.
- HTTP controllers, cookies, DI and EF configuration, Swagger, `Program.cs`, and the `Cards` and `ListCard` entities are not part of this model. The wiring in Program.cs:11-13 never calls `builder.AddMappings()` (APITasksApp/BuilderExtensions.cs:70-74), so as written no `IMapper` is registered and the controllers and handlers that take one could not be constructed; the model assumes the AutoMapper registration `AddMappings` would make.
- The command and view-model classes are not part of this model. Their fields are taken from the handlers, the mappings and the controllers.
- The profiles shown declare no `User→RefreshTokenViewModel` map. `Mappings.ToRefreshTokenViewModel` assumes one that copies fields by name, with `TokenJWT` left null. With no such map, the code would throw at `_mapper.Map<RefreshTokenViewModel>(user)`, after the commit. This happens in CreateUserCommandHandler.cs:88, LoginUserCommandHandler.cs:94 and RefreshTokenCommandHandler.cs:76. The model returns success there instead.
- The validators are modelled as functions, but the model does not connect them to the handlers. In the application, automatic FluentValidation (`builder.AddFluentValidation()`, Program.cs:13, which binds to APITasksApp/BuilderExtensions.cs:62-67) runs both validators on the controllers' arguments before a handler is invoked. The handler contracts therefore also cover commands the deployed application would reject with 400.
- Store lookups (`Get`, and so `FirstOrDefault` with `EmailIs`, `UserNameIs` or `IdIs`) are modelled as ordinal equality in sequence order. The database compares by its collation and returns rows in no fixed order; SQL Server's default collation ignores case and trailing spaces. The uniqueness check, by contrast, is ordinal (`List.Exists` in memory, AuthService.cs:101-105). So "Ana@x.com" and "ana@x.com" can both register. A login as "ANA@X.COM" may then find either row in the application, but gets 404 in the model. `Sessions.UniqueLookup`, `Sessions.LoginAfterRegister` and `Sessions.StaleTokenAfterLogin` hold for an ordinal store only.
- A lookup returns the stored value rather than a tracked object, so EF identity resolution and aliasing of tracked entities are not modelled. The refresh handler's in-place mutation is modelled as a staged modification.
- Database foreign keys and `ListsCards` are not modelled. `WorkSpace.User` holds a copy of the owner.
- The compile-level mismatches in the code are smoothed over: `IAuthService` lacks `UniqueEmailAbdUserName`, and the register handler's generic response types do not line up.
- .NET strings that hold unpaired UTF-16 surrogates cannot be represented, because a Dafny `char` is a Unicode scalar value.
- Repository.BaseRepository.Update: always stages a modification. EF Core's `Update` tracks an entity whose generated key is unset (`Guid.Empty`) as Added instead; the core handlers only update users that are already stored, so they never reach that case.
- AuthService.AuthService.GenerateRefreshJWT: does not model that the bytes are unpredictable, only which bytes of the generator's stream are used.
