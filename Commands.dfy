/**
 * The request commands and the view models the handlers return. Their C# files
 * are not part of this model: the fields are those the handlers, mappings and
 * controllers use, matched by name.
 */
module UserCQ {
  import opened Wrappers
  import opened Entity

  datatype CreateUserCommand = CreateUserCommand(
    name: Option<string>, surname: Option<string>, email: Option<string>,
    username: Option<string>, password: Option<string>)

  datatype LoginUserCommand = LoginUserCommand(email: Option<string>, password: Option<string>)

  datatype RefreshTokenCommand = RefreshTokenCommand(username: Option<string>, refreshToken: Option<string>)

  datatype UserInfoViewModel = UserInfoViewModel(
    name: Option<string>, surname: Option<string>, email: Option<string>,
    username: Option<string>, tokenJwt: Option<string>)

  datatype RefreshTokenViewModel = RefreshTokenViewModel(
    name: Option<string>, surname: Option<string>, email: Option<string>,
    username: Option<string>, tokenJwt: Option<string>, refreshToken: Option<string>)
}

module WorkspaceCQ {
  import opened Wrappers
  import opened Entity

  datatype CreateWorkspaceCommand = CreateWorkspaceCommand(userId: Guid, title: Option<string>)

  datatype CreateWorkspaceViewModel = CreateWorkspaceViewModel(
    id: Guid, title: Option<string>, userId: Option<Guid>, status: StatusItem, createAt: Instant)

  /** `WorkSpace -> CreateWorkspaceViewModel`: by name, and `UserId` from `User.Id`. */
  function ToCreateWorkspaceViewModel(w: WorkSpace): CreateWorkspaceViewModel
  {
    CreateWorkspaceViewModel(w.id, w.title, if w.user.Some? then Some(w.user.value.id) else None, w.status, w.createAt)
  }
}
