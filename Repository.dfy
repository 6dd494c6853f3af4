/**
 * `BaseRepository<T>` over one table of the context, and `UnitOfWork`, which
 * holds the repositories and commits.
 */
module Repository {
  import opened Wrappers
  import opened Entity
  import opened Queries
  import opened Persistence

  class BaseRepository<T> {
    /** `_context.Set<T>()`. */
    const table: EntitySet<T>

    constructor (table: EntitySet<T>)
      ensures this.table == table
    {
      this.table := table;
    }

    /** `FirstOrDefaultAsync(expression)` over the committed rows; reads only. */
    method Get(expression: T -> bool) returns (r: Option<T>)
      ensures r == FirstOrDefault(table.rows, expression)
    {
      var rows := table.rows;
      var i := 0;
      while i < |rows|
        invariant 0 <= i <= |rows|
        invariant forall j :: 0 <= j < i ==> !expression(rows[j])
      {
        if expression(rows[i]) {
          FirstOrDefaultAt(rows, expression, i);
          return Some(rows[i]);
        }
        i := i + 1;
      }
      return None;
    }

    /** `GetAll`: a copy of every committed row. */
    method GetAll() returns (all: seq<T>)
      ensures all == table.rows
    {
      all := table.rows;
    }

    /** `Create`: stages an insert and returns its argument; nothing is persisted. */
    method Create(commandCreate: T) returns (r: T)
      modifies table
      ensures r == commandCreate
      ensures table.rows == old(table.rows) && table.staged == old(table.staged) + [Added(commandCreate)]
    {
      table.Add(commandCreate);
      r := commandCreate;
    }

    /** `Update`: stages a replacement by key and returns its argument; nothing is persisted. */
    method Update(commandUpdate: T) returns (r: T)
      modifies table
      ensures r == commandUpdate
      ensures table.rows == old(table.rows) && table.staged == old(table.staged) + [Modified(commandUpdate)]
    {
      table.MarkModified(commandUpdate);
      r := commandUpdate;
    }
  }

  class UnitOfWork {
    const context: TasksDbContext
    const userRepository: BaseRepository<User>
    const workSpaceRepository: BaseRepository<WorkSpace>

    /** The repositories work on this unit of work's context. */
    ghost predicate Valid()
      reads context.users, context.workSpaces
    {
      && context.Valid()
      && userRepository.table == context.users
      && workSpaceRepository.table == context.workSpaces
    }

    /** `UserRepository = userRepository ?? new UserRepository(context)`. */
    constructor (context: TasksDbContext, userRepository: BaseRepository?<User>)
      requires userRepository != null ==> userRepository.table == context.users
      ensures this.context == context
      ensures userRepository != null ==> this.userRepository == userRepository
      ensures userRepository == null ==> fresh(this.userRepository)
      ensures this.userRepository.table == context.users
      ensures this.workSpaceRepository.table == context.workSpaces
    {
      this.context := context;
      if userRepository != null {
        this.userRepository := userRepository;
      } else {
        this.userRepository := new BaseRepository(context.users);
      }
      this.workSpaceRepository := new BaseRepository(context.workSpaces);
    }

    /** `Commit`: `SaveChanges` on the shared context. */
    method Commit() returns (ok: bool)
      requires Valid()
      modifies context.users, context.workSpaces
      ensures Valid()
      ensures var nu := ApplyAll(UserKey, UserStorable, old(context.users.rows), old(context.users.staged));
              var nw := ApplyAll(WorkSpaceKey, WorkSpaceStorable, old(context.workSpaces.rows), old(context.workSpaces.staged));
              && (ok <==> nu.Some? && nw.Some?)
              && (ok ==> context.users.rows == nu.value && context.workSpaces.rows == nw.value)
              && (ok ==> context.users.staged == [] && context.workSpaces.staged == [])
      ensures !ok ==> unchanged(context.users, context.workSpaces)
      ensures old(context.users.staged) == [] && old(context.workSpaces.staged) == [] ==>
                && ok
                && context.users.rows == old(context.users.rows) && context.users.staged == []
                && context.workSpaces.rows == old(context.workSpaces.rows) && context.workSpaces.staged == []
    {
      assert ApplyAll(UserKey, UserStorable, context.users.rows, []) == Some(context.users.rows);
      assert ApplyAll(WorkSpaceKey, WorkSpaceStorable, context.workSpaces.rows, []) == Some(context.workSpaces.rows);
      ok := context.SaveChanges();
    }
  }
}
