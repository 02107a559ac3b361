/**
 * The token authority's two extension points: the resource-owner password
 * validator, which decides a password grant and lists the claims of the
 * token it allows, and the profile service, which adds a user's claims to
 * the tokens issued for them.
 */
module TokenEndpoint {
  import opened Kernel
  import opened Claims
  import opened Store

  /** `TokenRequestErrors.InvalidGrant`. */
  const InvalidGrant: string := "invalid_grant"
  const BadCredentials: string := "Invalid username or password."
  const AccountLocked: string := "Account is locked."
  const PasswordMethod: string := "password"

  /** `DateOnly.ToString()`, whose culture-dependent format is not modelled. */
  datatype DateFormatter = DateFormatter(show: int -> string)

  /** `user.BirthDate.ToString()` on a `DateOnly?`: the empty string when there is no date. */
  function BirthDateText(d: Option<int>, dates: DateFormatter): (t: string)
    ensures d.None? ==> t == ""
  {
    if d.None? then "" else dates.show(d.value)
  }

  /** The verdict set on the validation context. */
  datatype GrantResult =
    | GrantRejected(error: string, description: string)
    | GrantAccepted(subject: string, authenticationMethod: string, claims: seq<Claim>)

  /** A validation call: the verdict it set or the exception it threw, and the store afterwards. */
  datatype GrantStep = GrantStep(outcome: Attempt<GrantResult>, store: Store)

  /** The eight profile claims the password grant lists, in the validator's order. */
  function GrantProfileEntries(u: User, dates: DateFormatter): seq<(ClaimType, Option<string>)> {
    [(JwtSubject, Some(u.id)), (JwtEmail, u.email), (JwtName, u.userName), (JwtPhoneNumber, u.phoneNumber),
     (JwtBirthDate, Some(BirthDateText(u.birthDate, dates))), (JwtFamilyName, u.firstName),
     (JwtGivenName, u.lastName), (JwtGender, Some(BoolText(u.gender)))]
  }

  /** The profile claims followed by one role claim per role; a null profile field throws. */
  function WithRoleClaims(profile: Attempt<seq<Claim>>, roles: seq<string>): (r: Attempt<seq<Claim>>)
    ensures profile.Threw? ==> r == profile
    ensures profile.Done? ==> r.Done? && |profile.value| <= |r.value|
    ensures profile.Done? ==> r.value[..|profile.value|] == profile.value
    ensures profile.Done? ==> r.value[|profile.value|..] == ClaimsOfKind(JwtRoles, roles)
  {
    if profile.Threw? then profile
    else
      var rs := ClaimsOfKind(JwtRoles, roles);
      assert (profile.value + rs)[..|profile.value|] == profile.value;
      assert (profile.value + rs)[|profile.value|..] == rs;
      Done(profile.value + rs)
  }

  /**
   * `ResourceOwnerPasswordValidator.ValidateAsync`. `passwordMatches` and
   * `lockedOut` are the answers of `CheckPasswordAsync` and `IsLockedOutAsync`
   * for the user found by name.
   */
  function ValidatePassword(userName: string, s: Store, passwordMatches: bool, lockedOut: bool,
                            dates: DateFormatter): (x: GrantStep)
    ensures x.outcome.Threw? ==> x.outcome.exception == NullArgument
  {
    var found := Find(s, ByName(userName));
    if found.None? || !passwordMatches then GrantStep(Done(GrantRejected(InvalidGrant, BadCredentials)), s)
    else if lockedOut then GrantStep(Done(GrantRejected(InvalidGrant, AccountLocked)), s)
    else
      var u := found.value.(accessFailedCount := 0);
      var reset := Save(s, u);
      var claims := WithRoleClaims(BuildClaims(GrantProfileEntries(u, dates)), RolesOf(reset, u.id));
      if claims.Threw? then GrantStep(Threw(claims.exception), reset)
      else GrantStep(Done(GrantAccepted(u.id, PasswordMethod, claims.value)), reset)
  }

  /**
   * An unknown user name and a wrong password get the same rejection, and a
   * locked account is reported only once the password has matched; no
   * rejection writes the store.
   */
  lemma GrantRejections(userName: string, s: Store, passwordMatches: bool, lockedOut: bool, dates: DateFormatter)
    ensures var x := ValidatePassword(userName, s, passwordMatches, lockedOut, dates);
      (forall i | 0 <= i < |s.users| :: s.users[i].userName != Some(userName)) || !passwordMatches ==>
        x == GrantStep(Done(GrantRejected("invalid_grant", "Invalid username or password.")), s)
    ensures var x := ValidatePassword(userName, s, passwordMatches, lockedOut, dates);
      Find(s, ByName(userName)).Some? && passwordMatches && lockedOut ==>
        x == GrantStep(Done(GrantRejected("invalid_grant", "Account is locked.")), s)
  {
  }

  /**
   * The store changes only on the success path (known user, matching
   * password, not locked out), and then only by resetting that user's failed
   * access count; this happens even when listing the claims then throws.
   */
  lemma GrantResetsFailedCount(userName: string, s: Store, passwordMatches: bool, lockedOut: bool,
                               dates: DateFormatter, k: nat)
    requires Valid(s) && k < |s.users| && s.users[k].userName == Some(userName)
    ensures var x := ValidatePassword(userName, s, passwordMatches, lockedOut, dates);
      passwordMatches && !lockedOut ==> x.store == Save(s, s.users[k].(accessFailedCount := 0))
    ensures var x := ValidatePassword(userName, s, passwordMatches, lockedOut, dates);
      !passwordMatches || lockedOut ==> x.store == s
  {
    FindUnique(s, ByName(userName), k);
  }

  /**
   * A granted password request names the user's id as subject and "password"
   * as method, and lists sub, email, name, phone_number, birthdate,
   * family_name (the first name), given_name (the last name) and gender, then
   * one role claim per role of the user, in order.
   */
  lemma GrantClaims(userName: string, s: Store, dates: DateFormatter, k: nat)
    requires Valid(s) && k < |s.users| && s.users[k].userName == Some(userName)
    requires var u := s.users[k];
      u.email.Some? && u.phoneNumber.Some? && u.firstName.Some? && u.lastName.Some?
    ensures var u := s.users[k];
      var x := ValidatePassword(userName, s, true, false, dates);
      && x.outcome.Done? && x.outcome.value.GrantAccepted?
      && x.outcome.value.subject == u.id && x.outcome.value.authenticationMethod == "password"
      && x.outcome.value.claims[..8] == [
           Claim(JwtSubject, u.id), Claim(JwtEmail, u.email.value), Claim(JwtName, userName),
           Claim(JwtPhoneNumber, u.phoneNumber.value), Claim(JwtBirthDate, BirthDateText(u.birthDate, dates)),
           Claim(JwtFamilyName, u.firstName.value), Claim(JwtGivenName, u.lastName.value),
           Claim(JwtGender, BoolText(u.gender))]
      && x.outcome.value.claims[8..] == ClaimsOfKind(JwtRoles, RolesOf(s, u.id))
  {
    FindUnique(s, ByName(userName), k);
    var u := s.users[k].(accessFailedCount := 0);
    var entries := GrantProfileEntries(u, dates);
    var built := BuildClaims(entries);
    assert built.Done? && |built.value| == 8;
    var x := ValidatePassword(userName, s, true, false, dates);
    assert x.outcome == Done(GrantAccepted(u.id, PasswordMethod,
      WithRoleClaims(built, RolesOf(Save(s, u), u.id)).value));
  }

  /**
   * The gender claim of a granted token reads back, through `bool.Parse`, as
   * the user's stored gender.
   */
  lemma GrantedGenderParses(userName: string, s: Store, dates: DateFormatter, k: nat)
    requires Valid(s) && k < |s.users| && s.users[k].userName == Some(userName)
    requires var u := s.users[k];
      u.email.Some? && u.phoneNumber.Some? && u.firstName.Some? && u.lastName.Some?
    ensures var x := ValidatePassword(userName, s, true, false, dates);
      x.outcome.Done? && x.outcome.value.GrantAccepted? && |x.outcome.value.claims| >= 8
      && x.outcome.value.claims[7].kind == JwtGender
      && ParseBool(x.outcome.value.claims[7].value) == Some(s.users[k].gender)
  {
    GrantClaims(userName, s, dates, k);
    var cs := ValidatePassword(userName, s, true, false, dates).outcome.value.claims;
    assert cs[7] == cs[..8][7];
    ParseBoolRoundTrip(s.users[k].gender);
  }

  /**
   * A user lacking an email, phone number, first or last name passes every
   * check, has the failed access count reset, and then the validator throws.
   */
  lemma GrantThrowsOnMissingField(userName: string, s: Store, dates: DateFormatter, k: nat)
    requires Valid(s) && k < |s.users| && s.users[k].userName == Some(userName)
    requires var u := s.users[k];
      u.email.None? || u.phoneNumber.None? || u.firstName.None? || u.lastName.None?
    ensures var x := ValidatePassword(userName, s, true, false, dates);
      x.outcome == Threw(NullArgument) && x.store == Save(s, s.users[k].(accessFailedCount := 0))
  {
    FindUnique(s, ByName(userName), k);
    var u := s.users[k].(accessFailedCount := 0);
    var entries := GrantProfileEntries(u, dates);
    if u.email.None? {
      assert entries[1].1.None?;
    } else if u.phoneNumber.None? {
      assert entries[3].1.None?;
    } else if u.firstName.None? {
      assert entries[5].1.None?;
    } else {
      assert entries[6].1.None?;
    }
  }

  // ProfileService

  /** The eight profile claims the profile service adds, in its order (name before email). */
  function ProfileEntries(u: User, dates: DateFormatter): seq<(ClaimType, Option<string>)> {
    [(JwtSubject, Some(u.id)), (JwtName, u.userName), (JwtEmail, u.email), (JwtPhoneNumber, u.phoneNumber),
     (JwtBirthDate, Some(BirthDateText(u.birthDate, dates))), (JwtFamilyName, u.firstName),
     (JwtGivenName, u.lastName), (JwtGender, Some(BoolText(u.gender)))]
  }

  /**
   * `ProfileService.GetProfileDataAsync`: the issued claims after the call.
   * `subjectId` is the subject's id; a user found by it gets its profile and
   * role claims appended to `issued`.
   */
  function GetProfileData(subjectId: string, issued: seq<Claim>, s: Store, dates: DateFormatter): (r: Attempt<seq<Claim>>)
    ensures r.Threw? ==> r.exception == NullArgument
  {
    var found := Find(s, ById(subjectId));
    if found.None? then Done(issued)
    else
      var u := found.value;
      var claims := WithRoleClaims(BuildClaims(ProfileEntries(u, dates)), RolesOf(s, u.id));
      if claims.Threw? then claims else Done(issued + claims.value)
  }

  /** A subject with no stored user leaves the issued claims as they were. */
  lemma ProfileOfUnknownSubject(subjectId: string, issued: seq<Claim>, s: Store, dates: DateFormatter)
    requires forall i | 0 <= i < |s.users| :: s.users[i].id != subjectId
    ensures GetProfileData(subjectId, issued, s, dates) == Done(issued)
  {
  }

  /**
   * For a stored user with every profile field present, the claims already
   * issued are kept and followed by sub, name, email, phone_number,
   * birthdate, family_name (the first name), given_name (the last name) and
   * gender, then one role claim per role.
   */
  lemma ProfileAppendsClaims(issued: seq<Claim>, s: Store, dates: DateFormatter, k: nat)
    requires Valid(s) && k < |s.users|
    requires var u := s.users[k];
      u.userName.Some? && u.email.Some? && u.phoneNumber.Some? && u.firstName.Some? && u.lastName.Some?
    ensures var u := s.users[k];
      var r := GetProfileData(u.id, issued, s, dates);
      var n := |issued|;
      && r.Done? && |r.value| == n + 8 + |RolesOf(s, u.id)|
      && r.value[..n] == issued
      && r.value[n..n + 8] == [
           Claim(JwtSubject, u.id), Claim(JwtName, u.userName.value), Claim(JwtEmail, u.email.value),
           Claim(JwtPhoneNumber, u.phoneNumber.value), Claim(JwtBirthDate, BirthDateText(u.birthDate, dates)),
           Claim(JwtFamilyName, u.firstName.value), Claim(JwtGivenName, u.lastName.value),
           Claim(JwtGender, BoolText(u.gender))]
      && r.value[n + 8..] == ClaimsOfKind(JwtRoles, RolesOf(s, u.id))
  {
    var u := s.users[k];
    FindUnique(s, ById(u.id), k);
    var expected := [
      Claim(JwtSubject, u.id), Claim(JwtName, u.userName.value), Claim(JwtEmail, u.email.value),
      Claim(JwtPhoneNumber, u.phoneNumber.value), Claim(JwtBirthDate, BirthDateText(u.birthDate, dates)),
      Claim(JwtFamilyName, u.firstName.value), Claim(JwtGivenName, u.lastName.value),
      Claim(JwtGender, BoolText(u.gender))];
    var built := BuildClaims(ProfileEntries(u, dates));
    assert built.Done? && |built.value| == 8;
    assert built.value == expected;
    var claims := WithRoleClaims(built, RolesOf(s, u.id));
    assert claims.value[..8] == expected;
    var all := issued + claims.value;
    assert GetProfileData(u.id, issued, s, dates) == Done(all);
    assert all[|issued|..|issued| + 8] == claims.value[..8];
    assert all[|issued| + 8..] == claims.value[8..];
  }

  /**
   * A stored user without a user name, email, phone number, first name or
   * last name makes the call throw, so no claim is issued.
   */
  lemma ProfileThrowsOnMissingField(issued: seq<Claim>, s: Store, dates: DateFormatter, k: nat)
    requires Valid(s) && k < |s.users|
    requires var u := s.users[k];
      u.userName.None? || u.email.None? || u.phoneNumber.None? || u.firstName.None? || u.lastName.None?
    ensures GetProfileData(s.users[k].id, issued, s, dates) == Threw(NullArgument)
  {
    var u := s.users[k];
    FindUnique(s, ById(u.id), k);
    var entries := ProfileEntries(u, dates);
    if u.userName.None? {
      assert entries[1].1.None?;
    } else if u.email.None? {
      assert entries[2].1.None?;
    } else if u.phoneNumber.None? {
      assert entries[3].1.None?;
    } else if u.firstName.None? {
      assert entries[5].1.None?;
    } else {
      assert entries[6].1.None?;
    }
  }

  /** `IsActiveContext`: the subject and the verdict, which IdentityServer presets to active. */
  datatype IsActiveContext = IsActiveContext(subjectId: string, isActive: bool)

  /** `ProfileService.IsActiveAsync`: completes without touching the context. */
  function IsActive(context: IsActiveContext): (after: IsActiveContext)
    ensures after == context
  {
    context
  }
}
