/**
 * `UserService`: locking and unlocking an account, reading the caller's
 * profile from their claims, and updating the caller's profile. `UpdateAsync`
 * answers are parameters; a successful update writes the modified entity back
 * to the store, and a failed one writes nothing.
 */
module UserFlows {
  import opened Kernel
  import opened Errors
  import opened Text
  import opened Validators
  import opened Claims
  import opened Store

  /** The entity `DisableUserAsync` writes: no refresh token, lockout on until `lockoutUntil`. */
  function Disabled(u: User, lockoutUntil: int): User {
    u.(refreshToken := None, refreshTokenExpiration := None, lockoutEnabled := true, lockoutEnd := Some(lockoutUntil))
  }

  /** Saving the modified entity: 200 with no payload, or 400 with the store's errors and no write. */
  function SaveOrReport(s: Store, u: User, update: IdentityResult): (x: Step<string>)
    ensures update.Succeeded? ==> x == Step(Returned(Success(None, 200)), Save(s, u))
    ensures update.Failed? ==> x == Step(Failure(StoreErrors(update), 400), s)
  {
    if update.Succeeded? then Step(Returned(Success(None, 200)), Save(s, u))
    else Step(Failure(StoreErrors(update), 400), s)
  }

  /**
   * `DisableUserAsync`. `lockoutUntil` is `DateTime.UtcNow.AddYears(100)`;
   * `update` is `UpdateAsync`'s answer.
   */
  function Disable(r: UserRequest, s: Store, lockoutUntil: int, update: IdentityResult): (x: Step<string>)
    ensures x.outcome.Raised? ==> update == Failed([])
  {
    var msgs := ValidateUser(r);
    if msgs != [] then Step(ValidationFailure(msgs), s)
    else
      var found := Find(s, ByName(r.userName));
      if found.None? then Step(Failure([UserNotFound], 404), s)
      else SaveOrReport(s, Disabled(found.value, lockoutUntil), update)
  }

  /** `EnableUserAsync`: only the lockout flag is switched off. */
  function Enable(r: UserRequest, s: Store, update: IdentityResult): (x: Step<string>)
    ensures x.outcome.Raised? ==> update == Failed([])
  {
    var msgs := ValidateUser(r);
    if msgs != [] then Step(ValidationFailure(msgs), s)
    else
      var found := Find(s, ByName(r.userName));
      if found.None? then Step(Failure([UserNotFound], 404), s)
      else SaveOrReport(s, found.value.(lockoutEnabled := false), update)
  }

  /**
   * Disable and enable answer an invalid request with its validation errors
   * and an unknown user with 404 `UserNotFound`, and then leave the store as
   * it was.
   */
  lemma LockingRejects(r: UserRequest, s: Store, lockoutUntil: int, update: IdentityResult)
    ensures ValidateUser(r) != [] ==>
      && Disable(r, s, lockoutUntil, update) == Step(Failure(ValidationErrors(ValidateUser(r)), 400), s)
      && Enable(r, s, update) == Step(Failure(ValidationErrors(ValidateUser(r)), 400), s)
    ensures ValidateUser(r) == [] && (forall i | 0 <= i < |s.users| :: s.users[i].userName != Some(r.userName)) ==>
      && Disable(r, s, lockoutUntil, update) == Step(Failure([UserNotFound], 404), s)
      && Enable(r, s, update) == Step(Failure([UserNotFound], 404), s)
  {
  }

  /**
   * Disabling the stored user `k` rewrites exactly its row: refresh token and
   * expiry cleared, lockout enabled until `lockoutUntil`, every other field and
   * row untouched. A failed update answers 400 and writes nothing.
   */
  lemma DisableLocksOut(r: UserRequest, s: Store, lockoutUntil: int, update: IdentityResult, k: nat)
    requires Valid(s) && k < |s.users| && s.users[k].userName == Some(r.userName)
    requires ValidateUser(r) == []
    ensures var x := Disable(r, s, lockoutUntil, update);
      update.Succeeded? ==>
        && x.outcome == Returned(Success(None, 200))
        && |x.store.users| == |s.users|
        && x.store.users[k] == s.users[k].(refreshToken := None, refreshTokenExpiration := None,
                                           lockoutEnabled := true, lockoutEnd := Some(lockoutUntil))
        && (forall i | 0 <= i < |s.users| && i != k :: x.store.users[i] == s.users[i])
        && x.store.memberships == s.memberships && x.store.roles == s.roles
    ensures var x := Disable(r, s, lockoutUntil, update);
      update.Failed? && update.failures != [] ==> x == Step(Failure(StoreErrors(update), 400), s)
  {
    FindUnique(s, ByName(r.userName), k);
    forall i | 0 <= i < |s.users| && i != k
      ensures s.users[i].id != s.users[k].id
    {
      assert Apart(s.users[i], s.users[k]);
    }
  }

  /**
   * Enabling the stored user `k` switches off only the lockout flag: the
   * lockout end and the refresh-token fields stay as they were.
   */
  lemma EnableOnlyClearsFlag(r: UserRequest, s: Store, update: IdentityResult, k: nat)
    requires Valid(s) && k < |s.users| && s.users[k].userName == Some(r.userName)
    requires ValidateUser(r) == [] && update.Succeeded?
    ensures var x := Enable(r, s, update);
      && x.outcome == Returned(Success(None, 200))
      && |x.store.users| == |s.users|
      && x.store.users[k] == s.users[k].(lockoutEnabled := false)
      && x.store.users[k].lockoutEnd == s.users[k].lockoutEnd
      && (forall i | 0 <= i < |s.users| && i != k :: x.store.users[i] == s.users[i])
  {
    FindUnique(s, ByName(r.userName), k);
    forall i | 0 <= i < |s.users| && i != k
      ensures s.users[i].id != s.users[k].id
    {
      assert Apart(s.users[i], s.users[k]);
    }
  }

  /**
   * Disabling and then enabling an account leaves it with lockout switched off
   * but still carrying the hundred-year lockout end, and without its refresh token.
   */
  lemma DisableThenEnable(r: UserRequest, s: Store, lockoutUntil: int, k: nat)
    requires Valid(s) && k < |s.users| && s.users[k].userName == Some(r.userName)
    requires ValidateUser(r) == []
    ensures var t := Enable(r, Disable(r, s, lockoutUntil, Succeeded).store, Succeeded).store;
      && k < |t.users|
      && !t.users[k].lockoutEnabled
      && t.users[k].lockoutEnd == Some(lockoutUntil)
      && t.users[k].refreshToken.None?
  {
    var u := s.users[k];
    DisableLocksOut(r, s, lockoutUntil, Succeeded, k);
    var t1 := Disable(r, s, lockoutUntil, Succeeded).store;
    assert t1.users[k] == Disabled(u, lockoutUntil);
    SaveKeepsValid(s, Disabled(u, lockoutUntil), k);
    EnableOnlyClearsFlag(r, t1, Succeeded, k);
  }

  /** `DateOnly.Parse`, whose culture-dependent format is not modelled: a day number, or `None` for a FormatException. */
  datatype DateParser = DateParser(parse: string -> Option<int>)

  /**
   * `GetUserProfile`: the profile is read from the caller's claims alone.
   * Missing required claims throw at their `!` dereference; an unparseable
   * birth date or gender throws a FormatException.
   */
  function GetUserProfile(principal: Option<Principal>, dates: DateParser): (o: Outcome<UserProfileResponse>)
    ensures o.Returned? && !o.result.isSuccess <==> principal.None? || !principal.value.authenticated
    ensures o.Returned? && !o.result.isSuccess ==> o.FailedWith([UnauthorizedUser], 401)
    ensures o.Returned? && o.result.isSuccess ==> o.SucceededWith(200) && o.result.data.Some?
    ensures o.Raised? ==> o.exception == NullDereference || o.exception == BadFormat
  {
    if principal.None? || !principal.value.authenticated then Failure([UnauthorizedUser], 401)
    else ReadProfile(principal.value.claims, dates)
  }

  /** The profile an authenticated caller's claims describe. */
  function ReadProfile(cs: seq<Claim>, dates: DateParser): (o: Outcome<UserProfileResponse>)
    ensures o.Raised? && o.exception == NullDereference <==>
      || FindFirst(cs, NameIdentifier).None? || FindFirst(cs, JwtName).None?
      || FindFirst(cs, EmailAddress).None? || FindFirst(cs, Gender).None?
    ensures o.Returned? ==> o.SucceededWith(200) && o.result.data.Some?
    ensures o.Returned? ==>
      var p := o.result.data.value;
      && Some(p.id) == FindFirst(cs, NameIdentifier)
      && p.firstName == FindFirst(cs, Surname) && p.lastName == FindFirst(cs, GivenName)
      && p.roles == FindAll(cs, Role)
      && Some(p.gender) == ParseBool(FindFirst(cs, Gender).value)
  {
    ProfileFromClaimValues(
      FindFirst(cs, NameIdentifier), FindFirst(cs, JwtName), FindFirst(cs, EmailAddress),
      FindFirst(cs, JwtPhoneNumber), FindFirst(cs, DateOfBirth), FindFirst(cs, Surname),
      FindFirst(cs, GivenName), FindFirst(cs, Gender), FindAll(cs, Role), dates)
  }

  /**
   * The profile built from the claim values read: id, name, email and gender
   * are dereferenced with `!`, the birth date and gender are parsed.
   */
  function ProfileFromClaimValues(id: Option<string>, userName: Option<string>, email: Option<string>,
                                  phoneNumber: Option<string>, birthDate: Option<string>,
                                  surname: Option<string>, givenName: Option<string>, gender: Option<string>,
                                  roles: seq<string>, dates: DateParser): (o: Outcome<UserProfileResponse>)
    ensures o.Raised? ==> o.exception == NullDereference || o.exception == BadFormat
    ensures o.Raised? && o.exception == NullDereference <==> id.None? || userName.None? || email.None? || gender.None?
    ensures o.Returned? <==>
      && id.Some? && userName.Some? && email.Some? && gender.Some?
      && (birthDate.None? || dates.parse(birthDate.value).Some?)
      && ParseBool(gender.value).Some?
    ensures o.Returned? ==> o.SucceededWith(200) && o.result.data.Some?
    ensures o.Returned? ==>
      var p := o.result.data.value;
      && p.id == id.value && p.userName == userName && p.email == email && p.phoneNumber == phoneNumber
      && p.firstName == surname && p.lastName == givenName && p.roles == roles
      && Some(p.gender) == ParseBool(gender.value)
      && p.birthDate == (if birthDate.None? then Some(DefaultDate) else dates.parse(birthDate.value))
  {
    if id.None? || userName.None? || email.None? || gender.None? then Raised(NullDereference)
    else if birthDate.Some? && dates.parse(birthDate.value).None? then Raised(BadFormat)
    else if ParseBool(gender.value).None? then Raised(BadFormat)
    else
      var born := if birthDate.None? then DefaultDate else dates.parse(birthDate.value).value;
      Returned(Success(Some(UserProfileResponse(
        id.value, userName, email, phoneNumber, Some(born), surname, givenName, ParseBool(gender.value).value,
        roles)), 200))
  }

  /** Without an authenticated principal the answer is 401 `UnauthorizedUser`. */
  lemma ProfileNeedsAuthentication(principal: Option<Principal>, dates: DateParser)
    requires principal.None? || !principal.value.authenticated
    ensures GetUserProfile(principal, dates).FailedWith([UnauthorizedUser], 401)
  {
  }

  /** An authenticated principal lacking its id, name, email or gender claim makes the call throw. */
  lemma ProfileNeedsRequiredClaims(p: Principal, dates: DateParser, kind: ClaimType)
    requires p.authenticated
    requires kind == NameIdentifier || kind == JwtName || kind == EmailAddress || kind == Gender
    requires forall i | 0 <= i < |p.claims| :: p.claims[i].kind != kind
    ensures GetUserProfile(Some(p), dates) == Raised(NullDereference)
  {
  }

  /**
   * A principal carrying the required claims and a gender claim that is
   * `bool.ToString()` gets its profile with 200: first name from the surname
   * claim, last name from the given-name claim, the birth date defaulting to
   * `DateOnly.MinValue` when absent, and every role claim in order.
   */
  lemma ProfileFromClaims(p: Principal, dates: DateParser, id: string, name: string, email: string, gender: bool)
    requires p.authenticated
    requires FindFirst(p.claims, NameIdentifier) == Some(id)
    requires FindFirst(p.claims, JwtName) == Some(name)
    requires FindFirst(p.claims, EmailAddress) == Some(email)
    requires FindFirst(p.claims, Gender) == Some(BoolText(gender))
    requires FindFirst(p.claims, DateOfBirth).None?
    ensures var o := GetUserProfile(Some(p), dates);
      && o.SucceededWith(200)
      && o.result.data == Some(UserProfileResponse(
           id, Some(name), Some(email), FindFirst(p.claims, JwtPhoneNumber), Some(0),
           FindFirst(p.claims, Surname), FindFirst(p.claims, GivenName), gender,
           FindAll(p.claims, Role)))
  {
    var cs := p.claims;
    var phone, surname, givenName, roles := FindFirst(cs, JwtPhoneNumber), FindFirst(cs, Surname), FindFirst(cs, GivenName), FindAll(cs, Role);
    assert GetUserProfile(Some(p), dates) == ReadProfile(cs, dates);
    assert ReadProfile(cs, dates) == ProfileFromClaimValues(Some(id), Some(name), Some(email), phone, None,
      surname, givenName, Some(BoolText(gender)), roles, dates);
    ProfileWithoutBirthDate(id, name, email, phone, surname, givenName, gender, roles, dates);
  }

  /**
   * A birth-date claim that `DateOnly.Parse` accepts and a gender claim that
   * `bool.Parse` accepts, in any spelling it takes, give a 200 profile
   * carrying the parsed date and the parsed gender.
   */
  lemma ProfileParsesClaims(p: Principal, dates: DateParser, born: string, day: int, g: bool)
    requires p.authenticated
    requires FindFirst(p.claims, NameIdentifier).Some? && FindFirst(p.claims, JwtName).Some?
    requires FindFirst(p.claims, EmailAddress).Some? && FindFirst(p.claims, Gender).Some?
    requires FindFirst(p.claims, DateOfBirth) == Some(born) && dates.parse(born) == Some(day)
    requires ParseBool(FindFirst(p.claims, Gender).value) == Some(g)
    ensures var o := GetUserProfile(Some(p), dates);
      && o.SucceededWith(200)
      && o.result.data.value.birthDate == Some(day)
      && o.result.data.value.gender == g
  {
    assert GetUserProfile(Some(p), dates) == ReadProfile(p.claims, dates);
  }

  /** Present id, name and email, a `bool.ToString()` gender and no birth date give a profile. */
  lemma ProfileWithoutBirthDate(id: string, name: string, email: string, phone: Option<string>,
                                surname: Option<string>, givenName: Option<string>, gender: bool,
                                roles: seq<string>, dates: DateParser)
    ensures ProfileFromClaimValues(Some(id), Some(name), Some(email), phone, None, surname, givenName,
                                   Some(BoolText(gender)), roles, dates)
         == Returned(Success(Some(UserProfileResponse(id, Some(name), Some(email), phone, Some(0),
                                                      surname, givenName, gender, roles)), 200))
  {
    ParseBoolRoundTrip(gender);
  }

  /** The user entity after merging an update request: each present field replaces the stored one. */
  function Merged(u: User, r: UpdateProfileRequest): (m: User)
    ensures m.id == u.id && m.email == u.email
    ensures m.userName == (if r.userName.Some? then r.userName else u.userName)
    ensures m.phoneNumber == (if r.phoneNumber.Some? then r.phoneNumber else u.phoneNumber)
    ensures m.birthDate == (if r.birthDate.Some? then r.birthDate else u.birthDate)
    ensures m.firstName == (if r.firstName.Some? then r.firstName else u.firstName)
    ensures m.lastName == (if r.lastName.Some? then r.lastName else u.lastName)
    ensures m.gender == r.gender.OrElse(u.gender)
    ensures m.refreshToken == u.refreshToken && m.refreshTokenExpiration == u.refreshTokenExpiration
    ensures m.lockoutEnabled == u.lockoutEnabled && m.lockoutEnd == u.lockoutEnd
    ensures m.accessFailedCount == u.accessFailedCount
  {
    u.(userName := if r.userName.Some? then r.userName else u.userName,
       phoneNumber := if r.phoneNumber.Some? then r.phoneNumber else u.phoneNumber,
       birthDate := if r.birthDate.Some? then r.birthDate else u.birthDate,
       firstName := if r.firstName.Some? then r.firstName else u.firstName,
       lastName := if r.lastName.Some? then r.lastName else u.lastName,
       gender := r.gender.OrElse(u.gender))
  }

  /** A request with every field null changes nothing. */
  lemma EmptyUpdateKeepsUser(u: User)
    ensures Merged(u, UpdateProfileRequest(None, None, None, None, None, None)) == u
  {
  }

  /**
   * `UpdateUserProfileAsync`. `today` is `DateOnly.FromDateTime(DateTime.UtcNow)`;
   * `update` is `UpdateAsync`'s answer. The response's id and roles are the
   * caller's claims, not the store's.
   */
  function UpdateProfile(r: UpdateProfileRequest, principal: Option<Principal>, s: Store, today: int,
                         update: IdentityResult): (x: Step<UserProfileResponse>)
    ensures x.store != s ==> x.outcome.Returned? && x.outcome.result.isSuccess
  {
    var msgs := ValidateUpdateProfile(r, today);
    if msgs != [] then Step(ValidationFailure(msgs), s)
    else if principal.None? || !principal.value.authenticated then Step(Failure([UnauthorizedUser], 401), s)
    else
      var id := FindFirst(principal.value.claims, NameIdentifier);
      if id.None? then Step(Raised(NullDereference), s)
      else
        var found := Find(s, ById(id.value));
        if found.None? then Step(Failure([UserNotFound], 404), s)
        else UpdateStored(r, id.value, FindAll(principal.value.claims, Role), s, found.value, update)
  }

  /**
   * The update of the stored user `u`, once found: the user-name conflict
   * check, the merge, and the store update.
   */
  function UpdateStored(r: UpdateProfileRequest, id: string, roles: seq<string>, s: Store, u: User,
                        update: IdentityResult): (x: Step<UserProfileResponse>)
    ensures x.store != s ==> x.outcome.Returned? && x.outcome.result.isSuccess
  {
    var name := if r.userName.Some? then r.userName else u.userName;
    if name.None? then Step(Raised(NullArgument), s)
    else
      var holder := Find(s, ByName(name.value));
      if holder.Some? && holder.value.id != u.id then Step(Failure([DuplicateUserName], 409), s)
      else
        var m := Merged(u, r);
        if update.Failed? then Step(Failure(StoreErrors(update), 500), s)
        else Step(Returned(Success(Some(ProfileOf(id, m, roles)), 200)), Save(s, m))
  }

  /**
   * Checks come in order: validation (400), authentication (401), the stored
   * user (404); none of them writes the store.
   */
  lemma UpdateProfileChecksOrder(r: UpdateProfileRequest, principal: Option<Principal>, s: Store, today: int,
                                 update: IdentityResult)
    ensures var x := UpdateProfile(r, principal, s, today, update);
      ValidateUpdateProfile(r, today) != [] ==>
        x == Step(Failure(ValidationErrors(ValidateUpdateProfile(r, today)), 400), s)
    ensures var x := UpdateProfile(r, principal, s, today, update);
      ValidateUpdateProfile(r, today) == [] && (principal.None? || !principal.value.authenticated) ==>
        x == Step(Failure([UnauthorizedUser], 401), s)
    ensures var x := UpdateProfile(r, principal, s, today, update);
      && ValidateUpdateProfile(r, today) == [] && principal.Some? && principal.value.authenticated
      && FindFirst(principal.value.claims, NameIdentifier).Some?
      && (forall i | 0 <= i < |s.users| :: s.users[i].id != FindFirst(principal.value.claims, NameIdentifier).value) ==>
        x == Step(Failure([UserNotFound], 404), s)
  {
  }

  /**
   * The caller's own user name never conflicts: when the request keeps the
   * name, or names one no other row holds, a valid request for a stored caller
   * reaches the store update, and a successful update saves the merged entity,
   * keeps the store valid, and answers with the merged profile, the claim id
   * and the claim roles.
   */
  lemma UpdateProfileSaves(r: UpdateProfileRequest, p: Principal, s: Store, today: int, k: nat)
    requires Valid(s) && k < |s.users|
    requires ValidateUpdateProfile(r, today) == [] && p.authenticated
    requires FindFirst(p.claims, NameIdentifier) == Some(s.users[k].id)
    requires r.userName.Some? || s.users[k].userName.Some?
    requires NameFreeFor(s, Merged(s.users[k], r).userName, s.users[k].id)
    ensures var x := UpdateProfile(r, Some(p), s, today, Succeeded);
      && x.outcome.SucceededWith(200)
      && x.outcome.result.data == Some(ProfileOf(s.users[k].id, Merged(s.users[k], r), FindAll(p.claims, Role)))
      && x.store == Save(s, Merged(s.users[k], r))
      && Valid(x.store)
      && Find(x.store, ById(s.users[k].id)) == Some(Merged(s.users[k], r))
  {
    var u := s.users[k];
    FindUnique(s, ById(u.id), k);
    var roles := FindAll(p.claims, Role);
    assert UpdateProfile(r, Some(p), s, today, Succeeded) == UpdateStored(r, u.id, roles, s, u, Succeeded);
    StoredUpdateSaves(r, roles, s, k);
  }

  /** The stored-user stage of a profile update whose name is free saves the merged entity. */
  lemma StoredUpdateSaves(r: UpdateProfileRequest, roles: seq<string>, s: Store, k: nat)
    requires Valid(s) && k < |s.users|
    requires r.userName.Some? || s.users[k].userName.Some?
    requires NameFreeFor(s, Merged(s.users[k], r).userName, s.users[k].id)
    ensures var u := s.users[k];
      var m := Merged(u, r);
      && UpdateStored(r, u.id, roles, s, u, Succeeded) == Step(Returned(Success(Some(ProfileOf(u.id, m, roles)), 200)), Save(s, m))
      && Valid(Save(s, m))
      && Find(Save(s, m), ById(u.id)) == Some(m)
  {
    var u := s.users[k];
    var m := Merged(u, r);
    var holder := Find(s, ByName(m.userName.value));
    assert holder.Some? ==> holder.value.id == u.id;
    SaveKeepsValid(s, m, k);
  }

  /**
   * When the name is free but `UpdateAsync` rejects the merged entity, the
   * answer is 500 with the store's errors and nothing is written.
   */
  lemma UpdateProfileStoreFailure(r: UpdateProfileRequest, p: Principal, s: Store, today: int,
                                  update: IdentityResult, k: nat)
    requires Valid(s) && k < |s.users|
    requires ValidateUpdateProfile(r, today) == [] && p.authenticated
    requires FindFirst(p.claims, NameIdentifier) == Some(s.users[k].id)
    requires r.userName.Some? || s.users[k].userName.Some?
    requires NameFreeFor(s, Merged(s.users[k], r).userName, s.users[k].id)
    requires update.Failed? && update.failures != []
    ensures var x := UpdateProfile(r, Some(p), s, today, update);
      x.outcome.FailedWith(StoreErrors(update), 500) && x.store == s
  {
    var u := s.users[k];
    FindUnique(s, ById(u.id), k);
    var roles := FindAll(p.claims, Role);
    assert UpdateProfile(r, Some(p), s, today, update) == UpdateStored(r, u.id, roles, s, u, update);
    StoredUpdateFails(r, roles, s, update, k);
  }

  /** The stored-user stage of a profile update whose name is free reports a rejected update. */
  lemma StoredUpdateFails(r: UpdateProfileRequest, roles: seq<string>, s: Store, update: IdentityResult, k: nat)
    requires Valid(s) && k < |s.users|
    requires r.userName.Some? || s.users[k].userName.Some?
    requires NameFreeFor(s, Merged(s.users[k], r).userName, s.users[k].id)
    requires update.Failed?
    ensures var u := s.users[k];
      UpdateStored(r, u.id, roles, s, u, update) == Step(Failure(StoreErrors(update), 500), s)
  {
    var u := s.users[k];
    var holder := Find(s, ByName(Merged(u, r).userName.value));
    assert holder.Some? ==> holder.value.id == u.id;
  }

  /** A new user name held by another row is refused with 409 and nothing is written. */
  lemma UpdateProfileNameTaken(r: UpdateProfileRequest, p: Principal, s: Store, today: int,
                               update: IdentityResult, k: nat, j: nat)
    requires Valid(s) && k < |s.users| && j < |s.users| && j != k
    requires ValidateUpdateProfile(r, today) == [] && p.authenticated
    requires FindFirst(p.claims, NameIdentifier) == Some(s.users[k].id)
    requires r.userName.Some? && s.users[j].userName == r.userName
    ensures UpdateProfile(r, Some(p), s, today, update) == Step(Failure([DuplicateUserName], 409), s)
  {
    FindUnique(s, ById(s.users[k].id), k);
    FindUnique(s, ByName(r.userName.value), j);
    assert Apart(s.users[j], s.users[k]);
  }
}
