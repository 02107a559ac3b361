/**
 * The request shapes and their FluentValidation rule sets. A rule set is the
 * ordered list of its checks, rule (`RuleFor`) after rule, each check
 * named by its message and marked with whether it fails on the request.
 * Under the library's default cascade mode every check of every rule runs,
 * so the messages of the failed checks come out in declaration order.
 *
 * `NotEmpty` on a string fails for null, "" and white space only; on a list
 * it fails for an empty list. `EmailAddress` is the library's own check,
 * passed in as `emailOk`.
 */
module Validators {
  import opened Kernel
  import opened Text

  // Request shapes. Dates are day numbers (`DateOnly.DayNumber`).

  datatype LoginRequest = LoginRequest(userName: string, password: string)

  datatype RegisterRequest = RegisterRequest(
    userName: string, email: string, gender: bool, phoneNumber: string,
    firstName: string, lastName: string, password: string, passwordConfirmation: string)

  datatype ForgotPasswordRequest = ForgotPasswordRequest(email: string)

  datatype ResetPasswordRequest = ResetPasswordRequest(
    email: string, password: string, passwordConfirmation: string, accessToken: string)

  datatype RefreshTokenRequest = RefreshTokenRequest(refreshToken: string)

  datatype UpdateProfileRequest = UpdateProfileRequest(
    userName: Option<string>, phoneNumber: Option<string>, birthDate: Option<int>,
    firstName: Option<string>, lastName: Option<string>, gender: Option<bool>)

  datatype UserRequest = UserRequest(userName: string)

  datatype AssignRoleRequest = AssignRoleRequest(userName: string, roles: seq<string>)

  /** The validation messages, one constructor per distinct text. */
  datatype Message =
    | UserNameIsRequired | UsernameRequired | PasswordRequired | EmailRequired | InvalidEmail
    | PhoneRequired | InvalidPhone | PasswordsMismatch | FirstNameRequired | FirstNameLetters
    | LastNameRequired | LastNameLetters | AccessTokenRequired | RefreshTokenRequired
    | BirthDateNotPast | RolesEmpty | RoleBlank
  {
    /** The text the rule attaches with `WithMessage`. */
    function Text(): string {
      match this
      case UserNameIsRequired => "UserName is required."
      case UsernameRequired => "Username is required."
      case PasswordRequired => "Password is required."
      case EmailRequired => "Email is required."
      case InvalidEmail => "Invalid email format."
      case PhoneRequired => "Phone number is required."
      case InvalidPhone => "Invalid phone number format."
      case PasswordsMismatch => "Passwords do not match."
      case FirstNameRequired => "First name is required."
      case FirstNameLetters => "First name must contain only letters."
      case LastNameRequired => "Last name is required."
      case LastNameLetters => "Last name must contain only letters."
      case AccessTokenRequired => "Access token is required."
      case RefreshTokenRequired => "Refresh Token is required."
      case BirthDateNotPast => "BirthDate must be in the past."
      case RolesEmpty => "Roles cannot be empty."
      case RoleBlank => "Each role must be a non-empty string."
    }
  }

  /** `a` is `b` with some elements left out, the rest kept in order. */
  predicate IsSubsequence(a: seq<Message>, b: seq<Message>)
    decreases |b|
  {
    a == [] || (|b| > 0 && ((a[0] == b[0] && IsSubsequence(a[1..], b[1..])) || IsSubsequence(a, b[1..])))
  }

  /**
   * The evaluation of a rule set: every check runs, and the messages of the
   * failing ones come out in declaration order. `ruleSet` lists the checks'
   * messages; `fails` says which checks fail on the request at hand.
   */
  function Failing(ruleSet: seq<Message>, fails: Message -> bool): (msgs: seq<Message>)
    ensures forall m :: m in msgs <==> m in ruleSet && fails(m)
    ensures IsSubsequence(msgs, ruleSet)
    decreases |ruleSet|
  {
    if ruleSet == [] then []
    else
      var rest := Failing(ruleSet[1..], fails);
      assert forall m :: m in ruleSet <==> m == ruleSet[0] || m in ruleSet[1..];
      if fails(ruleSet[0]) then [ruleSet[0]] + rest else rest
  }

  /** The error list a flow returns for failed validation: one ValidationError per message. */
  function ValidationErrors(msgs: seq<Message>): (errs: seq<Error>)
    ensures |errs| == |msgs|
    ensures forall i | 0 <= i < |msgs| :: errs[i] == Error("ValidationError", msgs[i].Text())
  {
    seq(|msgs|, i requires 0 <= i < |msgs| => Error("ValidationError", msgs[i].Text()))
  }

  /** How every service reports a rejected request: status 400 with one ValidationError per message. */
  function ValidationFailure<T>(msgs: seq<Message>): (o: Outcome<T>)
    requires msgs != []
    ensures o.FailedWith(ValidationErrors(msgs), 400) && o.result.data == None
  {
    Failure(ValidationErrors(msgs), 400)
  }

  // LoginValidator: UserName, Password.

  const LoginRuleSet: seq<Message> := [UserNameIsRequired, PasswordRequired]

  predicate LoginFails(r: LoginRequest, m: Message) {
    match m
    case UserNameIsRequired => IsBlank(r.userName)
    case PasswordRequired => IsBlank(r.password)
    case _ => false
  }

  function ValidateLogin(r: LoginRequest): (msgs: seq<Message>)
    ensures UserNameIsRequired in msgs <==> IsBlank(r.userName)
    ensures PasswordRequired in msgs <==> IsBlank(r.password)
    ensures msgs == [] <==> !IsBlank(r.userName) && !IsBlank(r.password)
    ensures IsSubsequence(msgs, LoginRuleSet)
  {
    Failing(LoginRuleSet, m => LoginFails(r, m))
  }

  // RegisterValidator: Email, PhoneNumber, Password, PasswordConfirmation, UserName, FirstName, LastName.

  /** The registration checks in declaration order. */
  const RegisterRuleSet: seq<Message> :=
    [ EmailRequired, InvalidEmail, PhoneRequired, InvalidPhone, PasswordRequired, PasswordsMismatch,
      UsernameRequired, FirstNameRequired, FirstNameLetters, LastNameRequired, LastNameLetters ]

  /**
   * The registration check that carries message `m` fails on `r`. `NotEmpty`
   * and the format check of one rule (`EmailAddress`, `Matches`) are separate
   * checks and both run, so a blank value can fail both.
   */
  predicate RegisterFails(r: RegisterRequest, emailOk: string -> bool, m: Message) {
    match m
    case EmailRequired => IsBlank(r.email)
    case InvalidEmail => !emailOk(r.email)
    case PhoneRequired => IsBlank(r.phoneNumber)
    case InvalidPhone => !RegisterPhonePattern(r.phoneNumber)
    case PasswordRequired => IsBlank(r.password)
    case PasswordsMismatch => r.passwordConfirmation != r.password
    case UsernameRequired => IsBlank(r.userName)
    case FirstNameRequired => IsBlank(r.firstName)
    case FirstNameLetters => !LettersPattern(r.firstName)
    case LastNameRequired => IsBlank(r.lastName)
    case LastNameLetters => !LettersPattern(r.lastName)
    case _ => false
  }

  /** A registration request every rule accepts. */
  predicate RegisterAcceptable(r: RegisterRequest, emailOk: string -> bool) {
    && !IsBlank(r.email) && emailOk(r.email)
    && !IsBlank(r.phoneNumber) && RegisterPhonePattern(r.phoneNumber)
    && !IsBlank(r.password) && r.passwordConfirmation == r.password
    && !IsBlank(r.userName)
    && !IsBlank(r.firstName) && LettersPattern(r.firstName)
    && !IsBlank(r.lastName) && LettersPattern(r.lastName)
  }

  function ValidateRegister(r: RegisterRequest, emailOk: string -> bool): (msgs: seq<Message>)
    ensures RegisterOutcome(r, emailOk, msgs)
    ensures IsSubsequence(msgs, RegisterRuleSet)
  {
    Failing(RegisterRuleSet, m => RegisterFails(r, emailOk, m))
  }

  /** The registration contract, for any message list that meets it. */
  predicate RegisterOutcome(r: RegisterRequest, emailOk: string -> bool, msgs: seq<Message>) {
    forall m :: m in msgs <==> m in RegisterRuleSet && RegisterFails(r, emailOk, m)
  }

  /** Registration validation reports nothing exactly on an acceptable request. */
  lemma RegisterPassesIffAcceptable(r: RegisterRequest, emailOk: string -> bool, msgs: seq<Message>)
    requires RegisterOutcome(r, emailOk, msgs)
    ensures msgs == [] <==> RegisterAcceptable(r, emailOk)
  {
    RegisterContactMessages(r, emailOk, msgs);
    RegisterAccountMessages(r, emailOk, msgs);
    RegisterNameMessages(r, emailOk, msgs);
    if msgs != [] {
      assert msgs[0] in msgs;
    }
  }

  /** The Email and PhoneNumber rules report exactly their failing checks. */
  lemma RegisterContactMessages(r: RegisterRequest, emailOk: string -> bool, msgs: seq<Message>)
    requires RegisterOutcome(r, emailOk, msgs)
    ensures EmailRequired in msgs <==> IsBlank(r.email)
    ensures InvalidEmail in msgs <==> !emailOk(r.email)
    ensures PhoneRequired in msgs <==> IsBlank(r.phoneNumber)
    ensures InvalidPhone in msgs <==> !RegisterPhonePattern(r.phoneNumber)
  {
  }

  /** The Password, PasswordConfirmation and UserName rules report exactly their failing checks. */
  lemma RegisterAccountMessages(r: RegisterRequest, emailOk: string -> bool, msgs: seq<Message>)
    requires RegisterOutcome(r, emailOk, msgs)
    ensures PasswordRequired in msgs <==> IsBlank(r.password)
    ensures PasswordsMismatch in msgs <==> r.passwordConfirmation != r.password
    ensures UsernameRequired in msgs <==> IsBlank(r.userName)
  {
  }

  /** The FirstName and LastName rules report exactly their failing checks. */
  lemma RegisterNameMessages(r: RegisterRequest, emailOk: string -> bool, msgs: seq<Message>)
    requires RegisterOutcome(r, emailOk, msgs)
    ensures FirstNameRequired in msgs <==> IsBlank(r.firstName)
    ensures FirstNameLetters in msgs <==> !LettersPattern(r.firstName)
    ensures LastNameRequired in msgs <==> IsBlank(r.lastName)
    ensures LastNameLetters in msgs <==> !LettersPattern(r.lastName)
  {
  }

  /** A blank name is never letters-only, so it draws both messages of its rule. */
  lemma BlankNameFailsBothChecks(r: RegisterRequest, emailOk: string -> bool, msgs: seq<Message>)
    requires RegisterOutcome(r, emailOk, msgs)
    ensures IsBlank(r.firstName) ==> FirstNameRequired in msgs && FirstNameLetters in msgs
    ensures IsBlank(r.lastName) ==> LastNameRequired in msgs && LastNameLetters in msgs
  {
    RegisterNameMessages(r, emailOk, msgs);
    if IsBlank(r.firstName) {
      BlankIsNotLetters(r.firstName);
    }
    if IsBlank(r.lastName) {
      BlankIsNotLetters(r.lastName);
    }
  }

  lemma BlankIsNotLetters(s: string)
    requires IsBlank(s)
    ensures !LettersPattern(s)
  {
    if |s| > 0 {
      assert IsWhiteSpace(s[0]) && !IsLetter(s[0]);
      if EndsWithNewline(s) && |s| > 1 {
        assert s[..|s| - 1][0] == s[0];
      }
    }
  }

  // ForgotPasswordValidator: Email.

  const EmailRuleSet: seq<Message> := [EmailRequired, InvalidEmail]

  predicate EmailFails(email: string, emailOk: string -> bool, m: Message) {
    match m
    case EmailRequired => IsBlank(email)
    case InvalidEmail => !emailOk(email)
    case _ => false
  }

  function ValidateForgotPassword(r: ForgotPasswordRequest, emailOk: string -> bool): (msgs: seq<Message>)
    ensures EmailRequired in msgs <==> IsBlank(r.email)
    ensures InvalidEmail in msgs <==> !emailOk(r.email)
    ensures msgs == [] <==> !IsBlank(r.email) && emailOk(r.email)
    ensures IsSubsequence(msgs, EmailRuleSet)
  {
    Failing(EmailRuleSet, m => EmailFails(r.email, emailOk, m))
  }

  // ResetPasswordValidator: Email, Password, PasswordConfirmation, AccessToken.

  const ResetPasswordRuleSet: seq<Message> :=
    [EmailRequired, InvalidEmail, PasswordRequired, PasswordsMismatch, AccessTokenRequired]

  /** The password-reset check that carries message `m` fails on `r`. */
  predicate ResetPasswordFails(r: ResetPasswordRequest, emailOk: string -> bool, m: Message) {
    match m
    case EmailRequired => IsBlank(r.email)
    case InvalidEmail => !emailOk(r.email)
    case PasswordRequired => IsBlank(r.password)
    case PasswordsMismatch => r.passwordConfirmation != r.password
    case AccessTokenRequired => IsBlank(r.accessToken)
    case _ => false
  }

  function ValidateResetPassword(r: ResetPasswordRequest, emailOk: string -> bool): (msgs: seq<Message>)
    ensures ResetPasswordOutcome(r, emailOk, msgs)
    ensures IsSubsequence(msgs, ResetPasswordRuleSet)
  {
    Failing(ResetPasswordRuleSet, m => ResetPasswordFails(r, emailOk, m))
  }

  predicate ResetPasswordOutcome(r: ResetPasswordRequest, emailOk: string -> bool, msgs: seq<Message>) {
    forall m :: m in msgs <==> m in ResetPasswordRuleSet && ResetPasswordFails(r, emailOk, m)
  }

  /** Each password-reset message appears exactly when its check fails. */
  lemma ResetPasswordMessages(r: ResetPasswordRequest, emailOk: string -> bool, msgs: seq<Message>)
    requires ResetPasswordOutcome(r, emailOk, msgs)
    ensures EmailRequired in msgs <==> IsBlank(r.email)
    ensures InvalidEmail in msgs <==> !emailOk(r.email)
    ensures PasswordRequired in msgs <==> IsBlank(r.password)
    ensures PasswordsMismatch in msgs <==> r.passwordConfirmation != r.password
    ensures AccessTokenRequired in msgs <==> IsBlank(r.accessToken)
  {
  }

  /** Password-reset validation reports nothing exactly when every check passes. */
  lemma ResetPasswordPassesIffAcceptable(r: ResetPasswordRequest, emailOk: string -> bool, msgs: seq<Message>)
    requires ResetPasswordOutcome(r, emailOk, msgs)
    ensures msgs == [] <==>
      !IsBlank(r.email) && emailOk(r.email) && !IsBlank(r.password)
      && r.passwordConfirmation == r.password && !IsBlank(r.accessToken)
  {
    ResetPasswordMessages(r, emailOk, msgs);
    if msgs != [] {
      assert msgs[0] in msgs;
    }
  }

  // RefreshTokenValidator: RefreshToken.

  function ValidateRefreshToken(r: RefreshTokenRequest): (msgs: seq<Message>)
    ensures msgs == [] <==> !IsBlank(r.refreshToken)
    ensures msgs != [] ==> msgs == [RefreshTokenRequired]
  {
    Failing([RefreshTokenRequired], m => IsBlank(r.refreshToken))
  }

  // UpdateProfileValidator: PhoneNumber (when present and non-empty), BirthDate (when present).

  const UpdateProfileRuleSet: seq<Message> := [InvalidPhone, BirthDateNotPast]

  /** The phone rule applies only to a non-empty number; the birth-date rule only to a present date. */
  predicate UpdateProfileFails(r: UpdateProfileRequest, today: int, m: Message) {
    match m
    case InvalidPhone => !IsNullOrEmpty(r.phoneNumber) && !E164Pattern(r.phoneNumber.value)
    case BirthDateNotPast => r.birthDate.Some? && !(r.birthDate.value < today)
    case _ => false
  }

  function ValidateUpdateProfile(r: UpdateProfileRequest, today: int): (msgs: seq<Message>)
    ensures InvalidPhone in msgs <==>
      r.phoneNumber.Some? && r.phoneNumber.value != [] && !E164Pattern(r.phoneNumber.value)
    ensures BirthDateNotPast in msgs <==> r.birthDate.Some? && r.birthDate.value >= today
    ensures msgs == [] <==>
      (IsNullOrEmpty(r.phoneNumber) || E164Pattern(r.phoneNumber.value))
      && (r.birthDate.None? || r.birthDate.value < today)
    ensures IsSubsequence(msgs, UpdateProfileRuleSet)
  {
    Failing(UpdateProfileRuleSet, m => UpdateProfileFails(r, today, m))
  }

  // UserValidator: UserName.

  function ValidateUser(r: UserRequest): (msgs: seq<Message>)
    ensures msgs == [] <==> !IsBlank(r.userName)
    ensures msgs != [] ==> msgs == [UsernameRequired]
  {
    Failing([UsernameRequired], m => IsBlank(r.userName))
  }

  // AssignRoleValidator: UserName, Roles.

  /** `roles.All(r => !string.IsNullOrWhiteSpace(r))`; true of the empty list. */
  predicate AllRolesNamed(roles: seq<string>) {
    forall i | 0 <= i < |roles| :: !IsBlank(roles[i])
  }

  const AssignRoleRuleSet: seq<Message> := [UsernameRequired, RolesEmpty, RoleBlank]

  predicate AssignRoleFails(r: AssignRoleRequest, m: Message) {
    match m
    case UsernameRequired => IsBlank(r.userName)
    case RolesEmpty => r.roles == []
    case RoleBlank => !AllRolesNamed(r.roles)
    case _ => false
  }

  function ValidateAssignRole(r: AssignRoleRequest): (msgs: seq<Message>)
    ensures UsernameRequired in msgs <==> IsBlank(r.userName)
    ensures RolesEmpty in msgs <==> r.roles == []
    ensures RoleBlank in msgs <==> exists i | 0 <= i < |r.roles| :: IsBlank(r.roles[i])
    ensures msgs == [] <==> !IsBlank(r.userName) && r.roles != [] && AllRolesNamed(r.roles)
    ensures IsSubsequence(msgs, AssignRoleRuleSet)
  {
    Failing(AssignRoleRuleSet, m => AssignRoleFails(r, m))
  }
}
