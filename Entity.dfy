/**
 * The persisted records `User` and `WorkSpace`, their declared data annotations,
 * and the part of those annotations the database schema enforces on a row.
 */
module Entity {
  import opened Wrappers
  import opened Text

  /** Entity keys; `Guid.Empty` is 0. */
  type Guid = nat

  /** A point in time, counted in `DateTime` ticks of 100 ns. */
  type Instant = int

  const TicksPerDay: int := 864_000_000_000

  /** `DateTime.AddDays` for a whole number of days. */
  function AddDays(t: Instant, days: int): Instant
  {
    t + days * TicksPerDay
  }

  /** The identity record. Every reference-typed property is declared nullable. */
  datatype User = User(
    id: Guid,
    name: Option<string>,
    surName: Option<string>,
    email: Option<string>,
    passwordHash: Option<string>,
    userName: Option<string>,
    refreshToken: Option<string>,
    refreshTokenExpiry: Option<Instant>)

  /** `StatusItemEnum`; only its `Active` member is used by the core. */
  datatype StatusItem = Active | OtherStatus(code: nat)

  datatype WorkSpace = WorkSpace(
    id: Guid,
    title: Option<string>,
    user: Option<User>,
    status: StatusItem,
    createAt: Instant)

  function UserKey(u: User): Guid
  {
    u.id
  }

  function WorkSpaceKey(w: WorkSpace): Guid
  {
    w.id
  }

  /** `[Required]` on a string: not null, not empty, not only white space. */
  predicate Required(s: Option<string>)
  {
    !IsNullOrWhiteSpace(s)
  }

  /** `[StringLength(max, MinimumLength = min)]`: a null value passes. */
  predicate StringLength(s: Option<string>, min: nat, max: nat)
  {
    s.None? || min <= Utf16Length(s.value) <= max
  }

  /** `[EmailAddress]`: null passes; otherwise no line break and exactly one `@`, neither first nor last. */
  predicate EmailAddress(s: Option<string>)
  {
    s.None? ||
    var v := s.value;
    var i := IndexOf(v, '@');
    '\r' !in v && '\n' !in v && i > 0 && i != |v| - 1 && i == LastIndexOf(v, '@')
  }

  /** The annotation test is the single-`@` rule it is meant to be. */
  lemma EmailAddressMeaning(v: string)
    ensures EmailAddress(Some(v)) <==>
              '\r' !in v && '\n' !in v &&
              exists i :: 0 < i < |v| - 1 && v[i] == '@' &&
                          forall j :: 0 <= j < |v| && j != i ==> v[j] != '@'
  {
    var i := IndexOf(v, '@');
    var l := LastIndexOf(v, '@');
    if EmailAddress(Some(v)) {
      assert forall j :: 0 <= j < |v| && j != i ==> v[j] != '@';
    }
    if exists i :: 0 < i < |v| - 1 && v[i] == '@' && forall j :: 0 <= j < |v| && j != i ==> v[j] != '@' {
      var k :| 0 < k < |v| - 1 && v[k] == '@' && forall j :: 0 <= j < |v| && j != k ==> v[j] != '@';
      assert i == k && l == k;
    }
  }

  /** The annotations declared on `User`. */
  predicate UserAnnotationsValid(u: User)
  {
    && Required(u.name) && StringLength(u.name, 3, 50)
    && StringLength(u.surName, 3, 50)
    && Required(u.email) && EmailAddress(u.email)
    && Required(u.passwordHash)
    && Required(u.userName)
  }

  /** What the schema enforces on a `User` row: `[Required]` columns are NOT NULL and
      `NVARCHAR(50)` bounds `Name` and `SurName`. */
  predicate UserStorable(u: User)
  {
    && u.name.Some? && Utf16Length(u.name.value) <= 50
    && (u.surName.None? || Utf16Length(u.surName.value) <= 50)
    && u.email.Some? && u.passwordHash.Some? && u.userName.Some?
  }

  /** The annotations declared on `WorkSpace`. */
  predicate WorkSpaceAnnotationsValid(w: WorkSpace)
  {
    Required(w.title) && StringLength(w.title, 3, 45) && w.user.Some?
  }

  /** What the schema enforces on a `WorkSpace` row: a NOT NULL title of at most 45
      code units and a NOT NULL owner. */
  predicate WorkSpaceStorable(w: WorkSpace)
  {
    w.title.Some? && Utf16Length(w.title.value) <= 45 && w.user.Some?
  }

  /** Every record that meets its declared annotations is accepted by the schema. */
  lemma AnnotationsImplyStorable(u: User, w: WorkSpace)
    ensures UserAnnotationsValid(u) ==> UserStorable(u)
    ensures WorkSpaceAnnotationsValid(w) ==> WorkSpaceStorable(w)
  {
  }

  /** `new WorkSpace { User = owner, Title = title }` with the declared defaults
      (`Status = Active`, `CreateAt = DateTime.Now`). */
  function NewWorkSpace(id: Guid, title: Option<string>, owner: User, now: Instant): WorkSpace
  {
    WorkSpace(id, title, Some(owner), Active, now)
  }

  /** A new workspace meets its annotations exactly when its title does. */
  lemma NewWorkSpaceAnnotations(id: Guid, title: Option<string>, owner: User, now: Instant)
    ensures WorkSpaceAnnotationsValid(NewWorkSpace(id, title, owner, now)) <==>
              title.Some? && !IsNullOrWhiteSpace(title) && 3 <= Utf16Length(title.value) <= 45
  {
  }
}
