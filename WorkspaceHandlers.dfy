/**
 * `CreateWorkSpaceHandler`: looks the owner up by id, stages a new workspace
 * owned by that user through the workspace repository, and commits.
 */
module WorkspaceHandlers {
  import opened Wrappers
  import opened Queries
  import opened Entity
  import opened Persistence
  import opened Repository
  import opened Response
  import opened WorkspaceCQ
  import opened AuthService

  const UnknownUser := ("Usuário não encontrado", "Nenhum usuário encontrado com o Id informado")

  class CreateWorkSpaceHandler {
    const unitOfWork: UnitOfWork

    constructor (unitOfWork: UnitOfWork)
      ensures this.unitOfWork == unitOfWork
    {
      this.unitOfWork := unitOfWork;
    }

    /** `Handle`: create a workspace for `request.userId`. `newId` is the key the store
        generates, `now` the clock the `CreateAt` default reads. */
    method Handle(request: CreateWorkspaceCommand, newId: Guid, now: Instant) returns (r: Outcome<CreateWorkspaceViewModel>)
      requires unitOfWork.Valid()
      modifies unitOfWork.context.users, unitOfWork.context.workSpaces
      ensures unitOfWork.Valid()
      // Unknown owner: 400 without a value, and no workspace is created.
      ensures FirstOrDefault(old(unitOfWork.context.users.rows), IdIs(request.userId)).None? ==>
                && r == Completed(Failure(UnknownUser.0, UnknownUser.1, 400))
                && unchanged(unitOfWork.context.users, unitOfWork.context.workSpaces)
      // Known owner: one workspace with that owner and the requested title is staged and committed.
      ensures var found := FirstOrDefault(old(unitOfWork.context.users.rows), IdIs(request.userId));
              found.Some? ==>
                var w := NewWorkSpace(newId, request.title, found.value, now);
                var nu := ApplyAll(UserKey, UserStorable, old(unitOfWork.context.users.rows),
                                   old(unitOfWork.context.users.staged));
                var nw := ApplyAll(WorkSpaceKey, WorkSpaceStorable, old(unitOfWork.context.workSpaces.rows),
                                   old(unitOfWork.context.workSpaces.staged) + [Added(w)]);
                && w.user == Some(found.value) && found.value.id == request.userId && w.title == request.title
                && (r.Completed? <==> nu.Some? && nw.Some?)
                && (r.Completed? ==>
                      && unitOfWork.context.users.rows == nu.value && unitOfWork.context.workSpaces.rows == nw.value
                      && unitOfWork.context.users.staged == [] && unitOfWork.context.workSpaces.staged == []
                      && r.response == Success(ToCreateWorkspaceViewModel(w)))
                && (r.Faulted? ==>
                      && r.fault == CommitRejected
                      && unchanged(unitOfWork.context.users)
                      && unitOfWork.context.workSpaces.rows == old(unitOfWork.context.workSpaces.rows)
                      && unitOfWork.context.workSpaces.staged == old(unitOfWork.context.workSpaces.staged) + [Added(w)])
      // With nothing pending before, exactly that workspace is appended (or the commit is rejected).
      ensures var found := FirstOrDefault(old(unitOfWork.context.users.rows), IdIs(request.userId));
              found.Some? && old(unitOfWork.context.users.staged) == [] && old(unitOfWork.context.workSpaces.staged) == [] ==>
                var w := NewWorkSpace(newId, request.title, found.value, now);
                && (r.Completed? <==> WorkSpaceStorable(w) && !KeyPresent(WorkSpaceKey, old(unitOfWork.context.workSpaces.rows), newId))
                && (r.Completed? ==> unitOfWork.context.workSpaces.rows == old(unitOfWork.context.workSpaces.rows) + [w]
                                     && unitOfWork.context.users.rows == old(unitOfWork.context.users.rows))
    {
      var wsRows, wsStaged := unitOfWork.context.workSpaces.rows, unitOfWork.context.workSpaces.staged;
      var userStaged := unitOfWork.context.users.staged;

      var user := unitOfWork.userRepository.Get(IdIs(request.userId));
      if user.None? {
        return Completed(Failure(UnknownUser.0, UnknownUser.1, 400));
      }
      FirstOrDefaultSpec(unitOfWork.context.users.rows, IdIs(request.userId));

      var workspace := NewWorkSpace(newId, request.title, user.value, now);
      var _ := unitOfWork.workSpaceRepository.Create(workspace);
      if wsStaged == [] && userStaged == [] {
        ApplyFreshInsert(WorkSpaceKey, WorkSpaceStorable, wsRows, workspace);
        assert [] + [Added(workspace)] == [Added(workspace)];
        assert ApplyAll(UserKey, UserStorable, unitOfWork.context.users.rows, []) == Some(unitOfWork.context.users.rows);
      }
      var ok := unitOfWork.Commit();
      if !ok {
        return Faulted(CommitRejected);
      }

      return Completed(Success(ToCreateWorkspaceViewModel(workspace)));
    }
  }

  /** The view model returned for a workspace built by the handler carries its id, its
      title, the owner's id, the `Active` status and the creation time. */
  lemma CreatedViewModel(newId: Guid, title: Option<string>, owner: User, now: Instant)
    ensures var vm := ToCreateWorkspaceViewModel(NewWorkSpace(newId, title, owner, now));
      && vm.id == newId && vm.title == title && vm.userId == Some(owner.id)
      && vm.status == Active && vm.createAt == now
  {
  }
}
