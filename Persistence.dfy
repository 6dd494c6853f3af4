/**
 * The persistence context (`TasksDbContext`): per entity type a table of committed
 * rows and a list of changes staged by `Add` / `Update` / change detection, and
 * `SaveChanges`, which applies every staged change of every table in one step or,
 * if the database rejects any of them, none of them.
 *
 * The database rejects an insert whose key is already taken, an update of a key
 * that is not stored, and any row that breaks the schema (NOT NULL, column length).
 */
module Persistence {
  import opened Wrappers
  import opened Entity

  datatype Change<T> = Added(entity: T) | Modified(entity: T)

  predicate KeyPresent<T>(key: T -> Guid, rows: seq<T>, k: Guid)
  {
    exists i :: 0 <= i < |rows| && key(rows[i]) == k
  }

  predicate UniqueKeys<T>(key: T -> Guid, rows: seq<T>)
  {
    forall i, j :: 0 <= i < j < |rows| ==> key(rows[i]) != key(rows[j])
  }

  /** A table the database could hold: keys unique, every row schema-valid. */
  predicate TableValid<T>(key: T -> Guid, storable: T -> bool, rows: seq<T>)
  {
    UniqueKeys(key, rows) && forall i :: 0 <= i < |rows| ==> storable(rows[i])
  }

  /** The rows with the one whose key is `key(e)` replaced by `e`. */
  function ReplaceByKey<T>(key: T -> Guid, rows: seq<T>, e: T): (r: seq<T>)
    // The key column is untouched, so the table keeps its keys in their order.
    ensures |r| == |rows| && forall i :: 0 <= i < |rows| ==> key(r[i]) == key(rows[i])
    // Updating a key that is not stored changes nothing.
    ensures !KeyPresent(key, rows, key(e)) ==> r == rows
  {
    seq(|rows|, i requires 0 <= i < |rows| => if key(rows[i]) == key(e) then e else rows[i])
  }

  /** With unique keys, replacing the row at `k` is a splice at `k`. */
  lemma ReplaceByKeyIsSplice<T>(key: T -> Guid, rows: seq<T>, e: T, k: nat)
    requires UniqueKeys(key, rows)
    requires k < |rows| && key(rows[k]) == key(e)
    ensures ReplaceByKey(key, rows, e) == rows[..k] + [e] + rows[k + 1..]
  {
    var r := ReplaceByKey(key, rows, e);
    var spliced := rows[..k] + [e] + rows[k + 1..];
    forall i | 0 <= i < |rows|
      ensures r[i] == spliced[i]
    {
      if i < k {
        assert key(rows[i]) != key(rows[k]);
      } else if k < i {
        assert key(rows[k]) != key(rows[i]);
      }
    }
  }

  /** Replacing a stored row of a table with unique keys: the keys stay unique, `e`
      takes the place of the old row, it is the only row with its key, and the table
      as a multiset loses the old row and gains `e`. */
  lemma ReplaceByKeyStored<T>(key: T -> Guid, rows: seq<T>, e: T, k: nat)
    requires UniqueKeys(key, rows)
    requires k < |rows| && key(rows[k]) == key(e)
    ensures var r := ReplaceByKey(key, rows, e);
      && UniqueKeys(key, r)
      && r[k] == e
      && (forall i :: 0 <= i < |r| && i != k ==> key(r[i]) != key(e))
      && multiset(r) == multiset(rows) - multiset{rows[k]} + multiset{e}
  {
    ReplaceByKeyIsSplice(key, rows, e, k);
    var before, after := rows[..k], rows[k + 1..];
    assert rows == before + [rows[k]] + after;
    assert multiset(rows) == multiset(before) + multiset{rows[k]} + multiset(after);
    assert multiset(before + [e] + after) == multiset(before) + multiset{e} + multiset(after);
  }

  /** The database's answer to one staged change: the new table, or `None` if rejected. */
  function ApplyChange<T>(key: T -> Guid, storable: T -> bool, rows: seq<T>, c: Change<T>): Option<seq<T>>
  {
    match c
    case Added(e) =>
      if !storable(e) || KeyPresent(key, rows, key(e)) then None else Some(rows + [e])
    case Modified(e) =>
      if !storable(e) || !KeyPresent(key, rows, key(e)) then None else Some(ReplaceByKey(key, rows, e))
  }

  /** All staged changes in order; `None` as soon as one is rejected. */
  function ApplyAll<T>(key: T -> Guid, storable: T -> bool, rows: seq<T>, cs: seq<Change<T>>): Option<seq<T>>
    decreases |cs|
  {
    if cs == [] then Some(rows)
    else
      match ApplyChange(key, storable, rows, cs[0])
      case None => None
      case Some(next) => ApplyAll(key, storable, next, cs[1..])
  }

  /** An accepted change leaves a table the database could hold. */
  lemma ApplyChangePreservesValid<T>(key: T -> Guid, storable: T -> bool, rows: seq<T>, c: Change<T>)
    requires TableValid(key, storable, rows)
    ensures ApplyChange(key, storable, rows, c).Some? ==> TableValid(key, storable, ApplyChange(key, storable, rows, c).value)
  {
    match c
    case Added(e) =>
      if ApplyChange(key, storable, rows, c).Some? {
        var r := rows + [e];
        forall i, j | 0 <= i < j < |r| ensures key(r[i]) != key(r[j]) {
          if j == |rows| {
            assert !KeyPresent(key, rows, key(e));
          }
        }
      }
    case Modified(e) =>
  }

  /** Committing keeps every table one the database could hold. */
  lemma {:induction false} ApplyAllPreservesValid<T>(key: T -> Guid, storable: T -> bool, rows: seq<T>, cs: seq<Change<T>>)
    requires TableValid(key, storable, rows)
    ensures ApplyAll(key, storable, rows, cs).Some? ==> TableValid(key, storable, ApplyAll(key, storable, rows, cs).value)
    decreases |cs|
  {
    if cs != [] {
      ApplyChangePreservesValid(key, storable, rows, cs[0]);
      var next := ApplyChange(key, storable, rows, cs[0]);
      if next.Some? {
        ApplyAllPreservesValid(key, storable, next.value, cs[1..]);
      }
    }
  }

  /** Applying two batches in one commit is the same as committing them one after the other. */
  lemma {:induction false} ApplyAllConcat<T>(key: T -> Guid, storable: T -> bool, rows: seq<T>, cs1: seq<Change<T>>, cs2: seq<Change<T>>)
    ensures ApplyAll(key, storable, rows, cs1 + cs2) ==
              match ApplyAll(key, storable, rows, cs1)
              case None => None
              case Some(mid) => ApplyAll(key, storable, mid, cs2)
    decreases |cs1|
  {
    if cs1 == [] {
      assert cs1 + cs2 == cs2;
    } else {
      assert (cs1 + cs2)[0] == cs1[0] && (cs1 + cs2)[1..] == cs1[1..] + cs2;
      var next := ApplyChange(key, storable, rows, cs1[0]);
      if next.Some? {
        ApplyAllConcat(key, storable, next.value, cs1[1..], cs2);
      }
    }
  }

  /** A commit that accepts a batch ending in a given change accepted that change's row. */
  lemma ApplyAllLastAccepted<T>(key: T -> Guid, storable: T -> bool, rows: seq<T>, cs: seq<Change<T>>, c: Change<T>)
    ensures ApplyAll(key, storable, rows, cs + [c]).Some? ==> storable(c.entity)
  {
    ApplyAllConcat(key, storable, rows, cs, [c]);
    var mid := ApplyAll(key, storable, rows, cs);
    if mid.Some? {
      assert [c][1..] == [];
    }
  }

  /** A schema-valid insert under a fresh key is accepted and appends the row. */
  lemma ApplyFreshInsert<T>(key: T -> Guid, storable: T -> bool, rows: seq<T>, e: T)
    ensures ApplyAll(key, storable, rows, [Added(e)]) ==
              if storable(e) && !KeyPresent(key, rows, key(e)) then Some(rows + [e]) else None
  {
    assert [Added(e)][1..] == [];
  }

  /** A schema-valid update of a stored key is accepted and replaces that row. */
  lemma ApplyStoredUpdate<T>(key: T -> Guid, storable: T -> bool, rows: seq<T>, e: T)
    ensures ApplyAll(key, storable, rows, [Modified(e)]) ==
              if storable(e) && KeyPresent(key, rows, key(e)) then Some(ReplaceByKey(key, rows, e)) else None
  {
    assert [Modified(e)][1..] == [];
  }

  /** `DbSet<T>`: committed rows plus the changes staged on them since the last commit. */
  class EntitySet<T> {
    var rows: seq<T>
    var staged: seq<Change<T>>

    constructor ()
      ensures rows == [] && staged == []
    {
      rows := [];
      staged := [];
    }

    /** `Add` / `AddAsync`: stage an insert; nothing is written yet. */
    method Add(e: T)
      modifies this
      ensures rows == old(rows)
      ensures staged == old(staged) + [Added(e)]
    {
      staged := staged + [Added(e)];
    }

    /** `Update`, and the change tracker noticing a tracked entity was mutated: stage
        a replacement of the row with the same key; nothing is written yet. */
    method MarkModified(e: T)
      modifies this
      ensures rows == old(rows)
      ensures staged == old(staged) + [Modified(e)]
    {
      staged := staged + [Modified(e)];
    }
  }

  class TasksDbContext {
    const users: EntitySet<User>
    const workSpaces: EntitySet<WorkSpace>

    ghost predicate Valid()
      reads users, workSpaces
    {
      && TableValid(UserKey, UserStorable, users.rows)
      && TableValid(WorkSpaceKey, WorkSpaceStorable, workSpaces.rows)
    }

    constructor ()
      ensures Valid() && fresh(users) && fresh(workSpaces)
      ensures users.rows == [] && users.staged == [] && workSpaces.rows == [] && workSpaces.staged == []
    {
      users := new EntitySet();
      workSpaces := new EntitySet();
    }

    /** `SaveChanges`: all staged changes of both tables, atomically. `ok` is false
        where the call throws; then nothing is written and the changes stay staged. */
    method SaveChanges() returns (ok: bool)
      requires Valid()
      modifies users, workSpaces
      ensures Valid()
      ensures var nu := ApplyAll(UserKey, UserStorable, old(users.rows), old(users.staged));
              var nw := ApplyAll(WorkSpaceKey, WorkSpaceStorable, old(workSpaces.rows), old(workSpaces.staged));
              && (ok <==> nu.Some? && nw.Some?)
              && (ok ==> users.rows == nu.value && workSpaces.rows == nw.value && users.staged == [] && workSpaces.staged == [])
      ensures !ok ==> unchanged(users, workSpaces)
    {
      var nu := ApplyAll(UserKey, UserStorable, users.rows, users.staged);
      var nw := ApplyAll(WorkSpaceKey, WorkSpaceStorable, workSpaces.rows, workSpaces.staged);
      ApplyAllPreservesValid(UserKey, UserStorable, users.rows, users.staged);
      ApplyAllPreservesValid(WorkSpaceKey, WorkSpaceStorable, workSpaces.rows, workSpaces.staged);
      if nu.Some? && nw.Some? {
        users.rows, users.staged := nu.value, [];
        workSpaces.rows, workSpaces.staged := nw.value, [];
        ok := true;
      } else {
        ok := false;
      }
    }
  }
}
