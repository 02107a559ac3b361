/**
 * The identity store behind `UserManager<User>` and `RoleManager<Role>`, as
 * an immutable value: the user rows, the set of existing role names, and each
 * user's role memberships. The store operations the services call whose
 * outcome depends on code outside the application layer (password checks,
 * `CreateAsync`, `UpdateAsync`, `AddToRolesAsync`, ...) are not computed
 * here: the services receive their `IdentityResult` as a parameter and this
 * module only says what a successful call writes.
 */
module Store {
  import opened Kernel

  /** Day number of `new DateOnly()` (DateOnly.MinValue). Dates are day numbers. */
  const DefaultDate: int := 0

  /**
   * The `User` entity: IdentityUser's columns the services read or write,
   * and the entity's own properties. Instants are integer seconds.
   */
  datatype User = User(
    id: string,
    userName: Option<string>,
    email: Option<string>,
    phoneNumber: Option<string>,
    birthDate: Option<int>,
    firstName: Option<string>,
    lastName: Option<string>,
    gender: bool,
    refreshToken: Option<string>,
    refreshTokenExpiration: Option<int>,
    lockoutEnabled: bool,
    lockoutEnd: Option<int>,
    accessFailedCount: nat)

  /**
   * `new User { UserName, Email, Gender, FirstName, LastName, PhoneNumber }`:
   * the remaining properties keep their defaults (birth date `new DateOnly()`,
   * no refresh token, no lockout end, no failed attempts). `id` is the Guid
   * the constructor draws. `CreateAsync` turns lockout on, because the host
   * sets `Lockout.AllowedForNewUsers`, so the stored row has it enabled.
   */
  function NewUser(id: string, userName: string, email: string, gender: bool,
                   firstName: string, lastName: string, phoneNumber: string): User
  {
    User(id, Some(userName), Some(email), Some(phoneNumber), Some(DefaultDate),
         Some(firstName), Some(lastName), gender, None, None, true, None, 0)
  }

  /** One `IdentityError`, and an `IdentityResult`: success, or failure with its errors. */
  datatype IdentityError = IdentityError(code: string, description: string)

  datatype IdentityResult = Succeeded | Failed(failures: seq<IdentityError>) {
    function Errors(): seq<IdentityError> {
      if Succeeded? then [] else failures
    }
  }

  /** `result.Errors.Select(e => new Error(e.Code, e.Description))`. */
  function StoreErrors(r: IdentityResult): (errs: seq<Error>)
    ensures |errs| == |r.Errors()|
    ensures forall i | 0 <= i < |errs| :: errs[i] == Error(r.Errors()[i].code, r.Errors()[i].description)
  {
    var es := r.Errors();
    seq(|es|, i requires 0 <= i < |es| => Error(es[i].code, es[i].description))
  }

  /**
   * Returning the mapped errors of a failed store call throws exactly when the
   * store reported the failure without any error.
   */
  lemma StoreFailureOutcome<T>(r: IdentityResult, status: int)
    requires r.Failed?
    ensures Failure<T>(StoreErrors(r), status).Raised? <==> r.failures == []
    ensures r.failures != [] ==> Failure<T>(StoreErrors(r), status).FailedWith(StoreErrors(r), status)
  {
  }

  /** The three lookups: `FindByIdAsync`, `FindByNameAsync` and `FindByEmailAsync`. */
  datatype Key = ById(id: string) | ByName(name: string) | ByEmail(email: string)

  predicate Matches(u: User, k: Key) {
    match k
    case ById(id) => u.id == id
    case ByName(n) => u.userName == Some(n)
    case ByEmail(e) => u.email == Some(e)
  }

  datatype Store = Store(users: seq<User>, roles: set<string>, memberships: map<string, seq<string>>)

  /** Two different rows share no id, no user name and no email. */
  predicate Apart(a: User, b: User) {
    && a.id != b.id
    && (a.userName.Some? ==> a.userName != b.userName)
    && (a.email.Some? ==> a.email != b.email)
  }

  /**
   * The store's uniqueness rules: ids, user names and emails are each held by
   * one row at most. Identity enforces the first two itself; emails stay
   * unique only because registration looks the email up before creating an
   * account, which the update flows never change.
   */
  predicate Valid(s: Store) {
    forall i, j | 0 <= i < |s.users| && 0 <= j < |s.users| && i != j :: Apart(s.users[i], s.users[j])
  }

  /** Position of the first row matching `k`. */
  function IndexOf(users: seq<User>, k: Key): (r: Option<nat>)
    ensures r.None? <==> forall i | 0 <= i < |users| :: !Matches(users[i], k)
    ensures r.Some? ==> r.value < |users| && Matches(users[r.value], k)
    ensures r.Some? ==> forall i | 0 <= i < r.value :: !Matches(users[i], k)
  {
    if users == [] then None
    else if Matches(users[0], k) then Some(0)
    else
      var r := IndexOf(users[1..], k);
      assert forall i | 1 <= i < |users| :: users[i] == users[1..][i - 1];
      if r.None? then None else Some(r.value + 1)
  }

  /** A lookup: the matching row, or null when there is none. */
  function Find(s: Store, k: Key): (u: Option<User>)
    ensures u.None? <==> forall i | 0 <= i < |s.users| :: !Matches(s.users[i], k)
    ensures u.Some? ==> u.value in s.users && Matches(u.value, k)
  {
    var r := IndexOf(s.users, k);
    if r.None? then None else Some(s.users[r.value])
  }

  /** In a valid store a lookup finds the one row that matches, whichever row that is. */
  lemma FindUnique(s: Store, k: Key, i: nat)
    requires Valid(s)
    requires i < |s.users| && Matches(s.users[i], k)
    ensures Find(s, k) == Some(s.users[i])
  {
    var j := IndexOf(s.users, k).value;
    assert j <= i;
  }

  /** The user name `name` is held by no row other than the one with id `id`. */
  predicate NameFreeFor(s: Store, name: Option<string>, id: string) {
    name.None? || forall i | 0 <= i < |s.users| :: s.users[i].userName == name ==> s.users[i].id == id
  }

  predicate EmailFreeFor(s: Store, email: Option<string>, id: string) {
    email.None? || forall i | 0 <= i < |s.users| :: s.users[i].email == email ==> s.users[i].id == id
  }

  /** `UpdateAsync(user)` succeeding: the row with the user's id now holds the user. */
  function Save(s: Store, u: User): (t: Store)
    ensures |t.users| == |s.users| && t.roles == s.roles && t.memberships == s.memberships
    ensures forall i | 0 <= i < |s.users| :: t.users[i] == (if s.users[i].id == u.id then u else s.users[i])
  {
    s.(users := seq(|s.users|, i requires 0 <= i < |s.users| => if s.users[i].id == u.id then u else s.users[i]))
  }

  /** Saving a row whose name and email no other row holds keeps the store valid, and the row is found by id. */
  lemma SaveKeepsValid(s: Store, u: User, k: nat)
    requires Valid(s)
    requires k < |s.users| && s.users[k].id == u.id
    requires NameFreeFor(s, u.userName, u.id) && EmailFreeFor(s, u.email, u.id)
    ensures Valid(Save(s, u))
    ensures Find(Save(s, u), ById(u.id)) == Some(u)
  {
    var t := Save(s, u);
    forall i, j | 0 <= i < |t.users| && 0 <= j < |t.users| && i != j
      ensures Apart(t.users[i], t.users[j])
    {
      assert Apart(s.users[i], s.users[j]);
    }
    FindUnique(t, ById(u.id), k);
  }

  /** `CreateAsync(user)` succeeding: the user becomes a new row. */
  function Add(s: Store, u: User): (t: Store)
    ensures t.users == s.users + [u] && t.roles == s.roles && t.memberships == s.memberships
  {
    s.(users := s.users + [u])
  }

  /** No row holds the user's id, user name or email. */
  predicate Fresh(s: Store, u: User) {
    forall i | 0 <= i < |s.users| :: Apart(u, s.users[i])
  }

  /** Adding a fresh row keeps the store valid, and the new row is what its name and email now find. */
  lemma AddKeepsValid(s: Store, u: User)
    requires Valid(s) && Fresh(s, u)
    ensures Valid(Add(s, u))
    ensures Find(Add(s, u), ById(u.id)) == Some(u)
    ensures u.userName.Some? ==> Find(Add(s, u), ByName(u.userName.value)) == Some(u)
    ensures u.email.Some? ==> Find(Add(s, u), ByEmail(u.email.value)) == Some(u)
  {
    var t := Add(s, u);
    var n := |s.users|;
    forall i, j | 0 <= i < |t.users| && 0 <= j < |t.users| && i != j
      ensures Apart(t.users[i], t.users[j])
    {
      if i == n {
        assert Apart(u, s.users[j]);
      } else if j == n {
        assert Apart(u, s.users[i]);
      } else {
        assert Apart(s.users[i], s.users[j]);
      }
    }
    FindUnique(t, ById(u.id), n);
    if u.userName.Some? {
      FindUnique(t, ByName(u.userName.value), n);
    }
    if u.email.Some? {
      FindUnique(t, ByEmail(u.email.value), n);
    }
  }

  /** `GetRolesAsync(user)`: the user's role names, in the order the store lists them. */
  function RolesOf(s: Store, id: string): (roles: seq<string>)
    ensures id !in s.memberships ==> roles == []
  {
    if id in s.memberships then s.memberships[id] else []
  }

  /** Role memberships of one user rewritten; the rows and the role set are untouched. */
  function SetRoles(s: Store, id: string, roles: seq<string>): (t: Store)
    ensures t.users == s.users && t.roles == s.roles
    ensures RolesOf(t, id) == roles
    ensures forall other | other != id :: RolesOf(t, other) == RolesOf(s, other)
  {
    s.(memberships := s.memberships[id := roles])
  }

  /** `AddToRolesAsync(user, roles)` succeeding: the roles are appended to the user's memberships. */
  function AddRoles(s: Store, id: string, roles: seq<string>): (t: Store)
    ensures t.users == s.users && t.roles == s.roles
    ensures RolesOf(t, id) == RolesOf(s, id) + roles
  {
    SetRoles(s, id, RolesOf(s, id) + roles)
  }

  /** What a call of a store-writing service produced: its outcome and the store afterwards. */
  datatype Step<T> = Step(outcome: Outcome<T>, store: Store)

  /** `UserProfileResponse`, the payload of the user and role services. */
  datatype UserProfileResponse = UserProfileResponse(
    id: string,
    userName: Option<string>,
    email: Option<string>,
    phoneNumber: Option<string>,
    birthDate: Option<int>,
    firstName: Option<string>,
    lastName: Option<string>,
    gender: bool,
    roles: seq<string>)

  /** The profile fields copied from a user record, with the given id and roles. */
  function ProfileOf(id: string, u: User, roles: seq<string>): UserProfileResponse {
    UserProfileResponse(id, u.userName, u.email, u.phoneNumber, u.birthDate, u.firstName, u.lastName, u.gender, roles)
  }
}
