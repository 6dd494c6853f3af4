/**
 * The object mappings of `ProfileMappings`: `CreateUserCommand -> User` (with the
 * register-time refresh-token expiry), `User -> UserInfoViewModel`, and the by-name
 * `User -> RefreshTokenViewModel` the handlers rely on.
 */
module Mappings {
  import opened Wrappers
  import opened Entity
  import opened UserCQ

  /** `GenerateExpirationTime`: now plus two days, a constant not read from configuration. */
  function GenerateExpirationTime(now: Instant): (t: Instant)
    ensures t > now && t - now == 2 * TicksPerDay
  {
    AddDays(now, 2)
  }

  /** `CreateUserCommand -> User`. `id` is the key the store assigns. */
  function MapCreateUserCommand(cmd: CreateUserCommand, id: Guid, now: Instant): (u: User)
    ensures UserKey(u) == id
    // With the hash still null the mapped user is not yet a row the schema accepts.
    ensures !UserStorable(u)
  {
    User(id, cmd.name, cmd.surname, cmd.email, None, cmd.username, None, Some(GenerateExpirationTime(now)))
  }

  /** `User -> UserInfoViewModel`: `TokenJWT` is left null. */
  function ToUserInfoViewModel(u: User): UserInfoViewModel
  {
    UserInfoViewModel(u.name, u.surName, u.email, u.userName, None)
  }

  /** `User -> RefreshTokenViewModel`: by name; `TokenJWT` has no source member. */
  function ToRefreshTokenViewModel(u: User): (vm: RefreshTokenViewModel)
    ensures vm.tokenJwt.None?
    ensures vm.name == u.name && vm.surname == u.surName && vm.email == u.email
    ensures vm.username == u.userName && vm.refreshToken == u.refreshToken
  {
    RefreshTokenViewModel(u.name, u.surName, u.email, u.userName, None, u.refreshToken)
  }

  /** A user mapped at registration has no credential yet, copies the command's identity
      fields, and holds a refresh-token expiry exactly two days after now. */
  lemma {:induction false} RegisteredUserMapping(cmd: CreateUserCommand, id: Guid, now: Instant)
    ensures var u := MapCreateUserCommand(cmd, id, now);
      && u.refreshToken.None? && u.passwordHash.None?
      && u.name == cmd.name && u.surName == cmd.surname && u.email == cmd.email && u.userName == cmd.username
      && u.refreshTokenExpiry.Some? && u.refreshTokenExpiry.value > now
      && u.refreshTokenExpiry.value - now == 2 * TicksPerDay
  {
  }

  /** Mapping to `UserInfoViewModel` never carries a JWT and keeps the identity fields. */
  lemma UserInfoHasNoToken(u: User)
    ensures ToUserInfoViewModel(u).tokenJwt.None?
    ensures ToUserInfoViewModel(u).email == u.email && ToUserInfoViewModel(u).username == u.userName
  {
  }
}
