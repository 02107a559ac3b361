/**
 * `RoleService.AssignRoleAsync`: replace a user's roles with the requested
 * ones. Every requested role that does not exist is reported; otherwise the
 * current roles are removed and the requested ones added. The removal's
 * outcome is ignored: only the addition decides the answer.
 */
module RoleFlows {
  import opened Kernel
  import opened Errors
  import opened Validators
  import opened Store

  /** One `RoleNotFound` per requested role missing from `existing`, in request order. */
  function MissingRoleErrors(roles: seq<string>, existing: set<string>): (errs: seq<Error>)
    ensures |errs| <= |roles|
    ensures errs == [] <==> forall i | 0 <= i < |roles| :: roles[i] in existing
    ensures forall e :: e in errs <==> exists i | 0 <= i < |roles| :: roles[i] !in existing && e == RoleNotFound(roles[i])
  {
    if roles == [] then []
    else
      var rest := MissingRoleErrors(roles[1..], existing);
      assert forall i | 1 <= i < |roles| :: roles[i] == roles[1..][i - 1];
      assert forall i | 0 <= i < |roles[1..]| :: roles[1..][i] == roles[i + 1];
      if roles[0] in existing then rest else [RoleNotFound(roles[0])] + rest
  }

  /** The errors of a concatenation are the errors of each part, in order. */
  lemma {:induction false} MissingRoleErrorsAppend(a: seq<string>, b: seq<string>, existing: set<string>)
    ensures MissingRoleErrors(a + b, existing) == MissingRoleErrors(a, existing) + MissingRoleErrors(b, existing)
  {
    if a == [] {
      assert a + b == b;
    } else {
      assert (a + b)[1..] == a[1..] + b;
      MissingRoleErrorsAppend(a[1..], b, existing);
    }
  }

  /**
   * One requested role yields one `RoleNotFound` when it is missing and
   * nothing otherwise; with `MissingRoleErrorsAppend` this fixes the list:
   * one error per missing role, repeats included, in request order.
   */
  lemma MissingRoleErrorsOfOne(role: string, existing: set<string>)
    ensures MissingRoleErrors([role], existing) == if role in existing then [] else [RoleNotFound(role)]
  {
  }

  /**
   * The `foreach` loop collecting the errors: it asks `RoleExistsAsync` for
   * each requested role in turn and appends one error per missing role.
   */
  method CollectRoleErrors(roles: seq<string>, existing: set<string>) returns (errs: seq<Error>)
    ensures errs == MissingRoleErrors(roles, existing)
  {
    errs := [];
    var i := 0;
    while i < |roles|
      invariant 0 <= i <= |roles|
      invariant errs + MissingRoleErrors(roles[i..], existing) == MissingRoleErrors(roles, existing)
    {
      assert roles[i..][1..] == roles[i + 1..];
      if roles[i] !in existing {
        errs := errs + [RoleNotFound(roles[i])];
      }
      i := i + 1;
    }
  }

  /**
   * `AssignRoleAsync`. `removed` says whether `RemoveFromRolesAsync` succeeded
   * (its result is otherwise discarded); `added` is `AddToRolesAsync`'s answer.
   */
  function AssignRole(r: AssignRoleRequest, s: Store, removed: bool, added: IdentityResult): (x: Step<UserProfileResponse>)
    ensures x.store.users == s.users && x.store.roles == s.roles
  {
    var msgs := ValidateAssignRole(r);
    if msgs != [] then Step(ValidationFailure(msgs), s)
    else
      var found := Find(s, ByName(r.userName));
      if found.None? then Step(Failure([UserNotFound], 404), s)
      else
        var roleErrors := MissingRoleErrors(r.roles, s.roles);
        if roleErrors != [] then Step(Failure(roleErrors, 400), s)
        else
          var u := found.value;
          var afterRemoval := if removed then SetRoles(s, u.id, []) else s;
          if added.Failed? then Step(Failure(StoreErrors(added), 400), afterRemoval)
          else Step(Returned(Success(Some(ProfileOf(u.id, u, r.roles)), 200)), AddRoles(afterRemoval, u.id, r.roles))
  }

  /**
   * An invalid request is answered with its validation errors, an unknown
   * user with 404 `UserNotFound`, and a request naming missing roles with 400
   * and every missing role's error in request order; none of them writes.
   */
  lemma AssignRoleRejects(r: AssignRoleRequest, s: Store, removed: bool, added: IdentityResult)
    ensures ValidateAssignRole(r) != [] ==>
      AssignRole(r, s, removed, added) == Step(Failure(ValidationErrors(ValidateAssignRole(r)), 400), s)
    ensures ValidateAssignRole(r) == [] && (forall i | 0 <= i < |s.users| :: s.users[i].userName != Some(r.userName)) ==>
      AssignRole(r, s, removed, added) == Step(Failure([UserNotFound], 404), s)
    ensures ValidateAssignRole(r) == [] && Find(s, ByName(r.userName)).Some? && (exists i | 0 <= i < |r.roles| :: r.roles[i] !in s.roles) ==>
      AssignRole(r, s, removed, added) == Step(Failure(MissingRoleErrors(r.roles, s.roles), 400), s)
  {
  }

  /**
   * When the removal succeeds and the addition succeeds, the user's roles
   * become exactly the requested ones, nobody else's roles change, and the
   * answer is 200 with the user's profile and the requested roles.
   */
  lemma AssignRoleReplaces(r: AssignRoleRequest, s: Store, k: nat)
    requires Valid(s) && k < |s.users| && s.users[k].userName == Some(r.userName)
    requires ValidateAssignRole(r) == []
    requires forall i | 0 <= i < |r.roles| :: r.roles[i] in s.roles
    ensures var x := AssignRole(r, s, true, Succeeded);
      && x.outcome == Returned(Success(Some(ProfileOf(s.users[k].id, s.users[k], r.roles)), 200))
      && RolesOf(x.store, s.users[k].id) == r.roles
      && forall other | other != s.users[k].id :: RolesOf(x.store, other) == RolesOf(s, other)
  {
    FindUnique(s, ByName(r.userName), k);
  }

  /**
   * When the removal fails but the addition succeeds, the call still answers
   * 200 with the requested roles, yet the user keeps the old roles too: the
   * requested ones are appended to them.
   */
  lemma AssignRoleMergesWhenRemovalFails(r: AssignRoleRequest, s: Store, k: nat)
    requires Valid(s) && k < |s.users| && s.users[k].userName == Some(r.userName)
    requires ValidateAssignRole(r) == []
    requires forall i | 0 <= i < |r.roles| :: r.roles[i] in s.roles
    ensures var x := AssignRole(r, s, false, Succeeded);
      && x.outcome.SucceededWith(200)
      && x.outcome.result.data.value.roles == r.roles
      && RolesOf(x.store, s.users[k].id) == RolesOf(s, s.users[k].id) + r.roles
  {
    FindUnique(s, ByName(r.userName), k);
  }

  /**
   * When the removal succeeds but the addition fails, the answer is 400 with
   * the store's errors and the user is left with no roles at all.
   */
  lemma AssignRoleFailureStripsRoles(r: AssignRoleRequest, s: Store, added: IdentityResult, k: nat)
    requires Valid(s) && k < |s.users| && s.users[k].userName == Some(r.userName)
    requires ValidateAssignRole(r) == []
    requires forall i | 0 <= i < |r.roles| :: r.roles[i] in s.roles
    requires added.Failed? && added.failures != []
    ensures var x := AssignRole(r, s, true, added);
      x.outcome.FailedWith(StoreErrors(added), 400) && RolesOf(x.store, s.users[k].id) == []
  {
    FindUnique(s, ByName(r.userName), k);
  }

  /** The answer depends on the addition only: the removal's outcome never changes it. */
  lemma AssignRoleIgnoresRemoval(r: AssignRoleRequest, s: Store, added: IdentityResult)
    ensures AssignRole(r, s, true, added).outcome == AssignRole(r, s, false, added).outcome
  {
  }
}
