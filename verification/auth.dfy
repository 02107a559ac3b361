/**
 * `AuthService`: login, token refresh, registration, and the two password
 * reset steps. Each flow is a short chain of checks that stops at the first
 * failure. The token authority is reached through two calls whose answers are
 * parameters: the discovery document and the token response.
 *
 * Login and refresh write the new refresh token only to the user entity they
 * loaded and never call `UpdateAsync`, so they return no store: the `Session`
 * they return carries that entity in its final state instead.
 */
module AuthFlows {
  import opened Kernel
  import opened Errors
  import opened Validators
  import opened Claims
  import opened Store

  const ClientId: string := "api_client"
  const ClientSecret: string := "secret"
  const PasswordScope: string := "openid profile email roles API offline_access"
  const RefreshGrantType: string := "refresh_token"

  /** `TimeSpan.FromDays(30)` in seconds; the response also reports it as `RefreshTokenExpiration`. */
  const RefreshLifetime: int := 2592000

  /** `Roles.Customer`, the role every new account is given. */
  const CustomerRole: string := "Customer"

  /** The discovery document: an error, or the token endpoint it names. */
  datatype Discovery = DiscoveryError | Discovered(tokenEndpoint: Option<string>)

  /** The requests sent to the token endpoint. */
  datatype TokenRequest =
    | PasswordGrant(address: Option<string>, clientId: string, clientSecret: string,
                    userName: Option<string>, password: string, scope: string)
    | RefreshGrant(address: Option<string>, grantType: string, clientId: string, clientSecret: string,
                   refreshToken: string)

  /** The token endpoint's answer: an error with its description, or the issued tokens. */
  datatype TokenResponse =
    | TokenError(errorDescription: Option<string>)
    | TokenIssued(accessToken: Option<string>, expiresIn: int, refreshToken: Option<string>)

  datatype AuthResponse = AuthResponse(
    userName: Option<string>, email: Option<string>,
    accessToken: Option<string>, accessTokenExpiration: int,
    refreshToken: Option<string>, refreshTokenExpiration: int)

  /**
   * A login or refresh call: its outcome, the token request it sent, and the
   * user entity it loaded, in the state the call left it.
   */
  datatype Session = Session(outcome: Outcome<AuthResponse>, sent: Option<TokenRequest>, entity: Option<User>)

  /** The entity after a grant: the granted refresh token, expiring 30 days after `now`. */
  function WithRefreshToken(u: User, reply: TokenResponse, now: int): User
    requires reply.TokenIssued?
  {
    u.(refreshToken := reply.refreshToken, refreshTokenExpiration := Some(now + RefreshLifetime))
  }

  /** The 200 answer to a granted token. */
  function Granted(u: User, reply: TokenResponse): Outcome<AuthResponse>
    requires reply.TokenIssued?
  {
    Returned(Success(Some(AuthResponse(u.userName, u.email, reply.accessToken, reply.expiresIn,
                                       reply.refreshToken, RefreshLifetime)), 200))
  }

  /** The 400 answer to a token error; a null description reads as empty. */
  function GrantRefused(reply: TokenResponse): Outcome<AuthResponse>
    requires reply.TokenError?
  {
    Failure([AuthTokenResponseError(reply.errorDescription.OrElse(""))], 400)
  }

  /**
   * `LoginAsync`. `passwordMatches` is `CheckPasswordAsync`'s answer for the
   * user found by name; it is not consulted when no user is found.
   */
  function Login(r: LoginRequest, s: Store, passwordMatches: bool, disco: Discovery,
                 reply: TokenResponse, now: int): (x: Session)
    ensures x.outcome.Returned?
  {
    var msgs := ValidateLogin(r);
    if msgs != [] then Session(ValidationFailure(msgs), None, None)
    else
      var found := Find(s, ByName(r.userName));
      if found.None? || !passwordMatches then Session(Failure([InvalidCredentials], 400), None, found)
      else if disco.DiscoveryError? then Session(Failure([IdentityServerFailed], 500), None, found)
      else
        var u := found.value;
        var request := PasswordGrant(disco.tokenEndpoint, ClientId, ClientSecret, u.userName, r.password, PasswordScope);
        if reply.TokenError? then Session(GrantRefused(reply), Some(request), found)
        else
          var granted := WithRefreshToken(u, reply, now);
          Session(Granted(granted, reply), Some(request), Some(granted))
  }

  /** An invalid login request is answered with its validation errors before anything is looked up. */
  lemma LoginValidatesFirst(r: LoginRequest, s: Store, passwordMatches: bool, disco: Discovery,
                            reply: TokenResponse, now: int)
    requires ValidateLogin(r) != []
    ensures var x := Login(r, s, passwordMatches, disco, reply, now);
      x.outcome.FailedWith(ValidationErrors(ValidateLogin(r)), 400) && x.sent.None? && x.entity.None?
  {
  }

  /**
   * An unknown user name and a wrong password get the same answer, 400 with
   * `InvalidCredentials`, and no token is requested.
   */
  lemma LoginHidesUnknownUsers(r: LoginRequest, s: Store, passwordMatches: bool, disco: Discovery,
                               reply: TokenResponse, now: int)
    requires ValidateLogin(r) == []
    requires (forall i | 0 <= i < |s.users| :: s.users[i].userName != Some(r.userName)) || !passwordMatches
    ensures var x := Login(r, s, passwordMatches, disco, reply, now);
      x.outcome.FailedWith([InvalidCredentials], 400) && x.sent.None?
  {
  }

  /**
   * A token request is sent exactly when the request is valid, the user exists,
   * the password matches and discovery succeeded; it is a password grant for
   * the stored user name with the fixed client and scope.
   */
  lemma LoginTokenRequest(r: LoginRequest, s: Store, passwordMatches: bool, disco: Discovery,
                          reply: TokenResponse, now: int)
    ensures var x := Login(r, s, passwordMatches, disco, reply, now);
      x.sent.Some? <==> ValidateLogin(r) == [] && Find(s, ByName(r.userName)).Some? && passwordMatches && disco.Discovered?
    ensures var x := Login(r, s, passwordMatches, disco, reply, now);
      x.sent.Some? ==> x.sent.value == PasswordGrant(disco.tokenEndpoint, "api_client", "secret",
        Find(s, ByName(r.userName)).value.userName, r.password, "openid profile email roles API offline_access")
  {
  }

  /**
   * Past the credential check, a discovery error is answered with 500
   * `IdentityServerFailed` and no token request, and a token error with 400
   * and the `TokenResponseError` of its description (empty when null); in
   * both cases the entity keeps its stored refresh-token fields.
   */
  lemma LoginTokenAuthorityFailures(r: LoginRequest, s: Store, disco: Discovery, reply: TokenResponse, now: int)
    requires ValidateLogin(r) == [] && Find(s, ByName(r.userName)).Some?
    ensures var x := Login(r, s, true, disco, reply, now);
      disco.DiscoveryError? ==>
        x.outcome.FailedWith([IdentityServerFailed], 500) && x.sent.None? && x.entity == Find(s, ByName(r.userName))
    ensures var x := Login(r, s, true, disco, reply, now);
      disco.Discovered? && reply.TokenError? ==>
        && x.outcome.FailedWith([AuthTokenResponseError(reply.errorDescription.OrElse(""))], 400)
        && x.entity == Find(s, ByName(r.userName))
  {
  }

  /** A login that does not succeed leaves the loaded entity exactly as the store holds it. */
  lemma LoginFailureKeepsEntity(r: LoginRequest, s: Store, passwordMatches: bool, disco: Discovery,
                                reply: TokenResponse, now: int)
    ensures var x := Login(r, s, passwordMatches, disco, reply, now);
      !x.outcome.result.isSuccess ==> x.entity.None? || x.entity == Find(s, ByName(r.userName))
  {
  }

  /**
   * Login succeeds exactly when every check passes and a token is issued; the
   * entity then holds the granted refresh token expiring 30 days from now, and
   * the response carries the user's name and email, the granted tokens, the
   * access token's lifetime and 2592000 seconds for the refresh token.
   */
  lemma LoginSuccess(r: LoginRequest, s: Store, passwordMatches: bool, disco: Discovery,
                     reply: TokenResponse, now: int)
    ensures var x := Login(r, s, passwordMatches, disco, reply, now);
      x.outcome.result.isSuccess <==> x.sent.Some? && reply.TokenIssued?
    ensures var x := Login(r, s, passwordMatches, disco, reply, now);
      x.outcome.result.isSuccess ==>
        var u := Find(s, ByName(r.userName)).value;
        && x.outcome.result.status == 200
        && x.entity == Some(u.(refreshToken := reply.refreshToken, refreshTokenExpiration := Some(now + 2592000)))
        && x.outcome.result.data == Some(AuthResponse(u.userName, u.email, reply.accessToken, reply.expiresIn,
                                                      reply.refreshToken, 2592000))
  {
  }

  /**
   * `RefreshTokenAsync`. `principal` is `HttpContext.User` (absent when there
   * is no HTTP context).
   */
  function Refresh(r: RefreshTokenRequest, principal: Option<Principal>, s: Store, disco: Discovery,
                   reply: TokenResponse, now: int): (x: Session)
    ensures x.outcome.Raised? ==> x.outcome.exception == NullDereference
  {
    var msgs := ValidateRefreshToken(r);
    if msgs != [] then Session(ValidationFailure(msgs), None, None)
    else if principal.None? || !principal.value.authenticated then Session(Failure([UnauthorizedUser], 401), None, None)
    else
      var id := FindFirst(principal.value.claims, NameIdentifier);
      if id.None? then Session(Raised(NullDereference), None, None)
      else
        var found := Find(s, ById(id.value));
        if disco.DiscoveryError? then Session(Failure([IdentityServerFailed], 500), None, found)
        else
          var request := RefreshGrant(disco.tokenEndpoint, RefreshGrantType, ClientId, ClientSecret, r.refreshToken);
          if reply.TokenError? then Session(GrantRefused(reply), Some(request), found)
          else if found.None? then Session(Raised(NullDereference), Some(request), None)
          else
            var granted := WithRefreshToken(found.value, reply, now);
            Session(Granted(granted, reply), Some(request), Some(granted))
  }

  /** Validation comes first, then the 401 for a missing or unauthenticated principal, before any lookup. */
  lemma RefreshChecksOrder(r: RefreshTokenRequest, principal: Option<Principal>, s: Store, disco: Discovery,
                           reply: TokenResponse, now: int)
    ensures var x := Refresh(r, principal, s, disco, reply, now);
      ValidateRefreshToken(r) != [] ==>
        x.outcome.FailedWith(ValidationErrors(ValidateRefreshToken(r)), 400) && x.sent.None? && x.entity.None?
    ensures var x := Refresh(r, principal, s, disco, reply, now);
      ValidateRefreshToken(r) == [] && (principal.None? || !principal.value.authenticated) ==>
        x.outcome.FailedWith([UnauthorizedUser], 401) && x.sent.None? && x.entity.None?
  {
  }

  /**
   * For an authenticated caller with an id claim, a discovery error gives 500
   * `IdentityServerFailed` and a token error gives 400 with the
   * `TokenResponseError` of its description; the entity looked up by the id
   * is left as stored.
   */
  lemma RefreshTokenAuthorityFailures(r: RefreshTokenRequest, p: Principal, s: Store, disco: Discovery,
                                      reply: TokenResponse, now: int)
    requires ValidateRefreshToken(r) == [] && p.authenticated
    requires FindFirst(p.claims, NameIdentifier).Some?
    ensures var x := Refresh(r, Some(p), s, disco, reply, now);
      var found := Find(s, ById(FindFirst(p.claims, NameIdentifier).value));
      disco.DiscoveryError? ==> x.outcome.FailedWith([IdentityServerFailed], 500) && x.sent.None? && x.entity == found
    ensures var x := Refresh(r, Some(p), s, disco, reply, now);
      var found := Find(s, ById(FindFirst(p.claims, NameIdentifier).value));
      disco.Discovered? && reply.TokenError? ==>
        x.outcome.FailedWith([AuthTokenResponseError(reply.errorDescription.OrElse(""))], 400) && x.entity == found
  {
  }

  /** The refresh grant carries the request's refresh token with the fixed client. */
  lemma RefreshTokenRequestSent(r: RefreshTokenRequest, principal: Option<Principal>, s: Store, disco: Discovery,
                                reply: TokenResponse, now: int)
    ensures var x := Refresh(r, principal, s, disco, reply, now);
      x.sent.Some? ==>
        && disco.Discovered?
        && x.sent.value == RefreshGrant(disco.tokenEndpoint, "refresh_token", "api_client", "secret", r.refreshToken)
  {
  }

  /**
   * An authenticated principal whose id names no stored user still has its
   * refresh token redeemed; once the token is issued, the `user!` dereference
   * throws.
   */
  lemma RefreshCrashesForUnknownUser(r: RefreshTokenRequest, p: Principal, s: Store, endpoint: Option<string>,
                                     reply: TokenResponse, now: int)
    requires ValidateRefreshToken(r) == [] && p.authenticated
    requires FindFirst(p.claims, NameIdentifier).Some?
    requires forall i | 0 <= i < |s.users| :: s.users[i].id != FindFirst(p.claims, NameIdentifier).value
    requires reply.TokenIssued?
    ensures var x := Refresh(r, Some(p), s, Discovered(endpoint), reply, now);
      x.outcome == Raised(NullDereference) && x.sent.Some?
  {
  }

  /** A principal without a NameIdentifier claim throws at the `!` dereference, before any lookup. */
  lemma RefreshNeedsNameIdentifier(r: RefreshTokenRequest, p: Principal, s: Store, disco: Discovery,
                                   reply: TokenResponse, now: int)
    requires ValidateRefreshToken(r) == [] && p.authenticated
    requires forall i | 0 <= i < |p.claims| :: p.claims[i].kind != NameIdentifier
    ensures Refresh(r, Some(p), s, disco, reply, now) == Session(Raised(NullDereference), None, None)
  {
  }

  /**
   * A refresh succeeds exactly for a stored user and an issued token; the entity
   * gets the new refresh token expiring 30 days from now, and the response has
   * the same shape as a login's.
   */
  lemma RefreshSuccess(r: RefreshTokenRequest, principal: Option<Principal>, s: Store, disco: Discovery,
                       reply: TokenResponse, now: int)
    ensures var x := Refresh(r, principal, s, disco, reply, now);
      x.outcome.Returned? && x.outcome.result.isSuccess <==> x.sent.Some? && reply.TokenIssued? && x.entity.Some?
    ensures var x := Refresh(r, principal, s, disco, reply, now);
      x.outcome.Returned? && x.outcome.result.isSuccess ==>
        var u := Find(s, ById(FindFirst(principal.value.claims, NameIdentifier).value)).value;
        && x.outcome.result.status == 200
        && x.entity == Some(u.(refreshToken := reply.refreshToken, refreshTokenExpiration := Some(now + 2592000)))
        && x.outcome.result.data == Some(AuthResponse(u.userName, u.email, reply.accessToken, reply.expiresIn,
                                                      reply.refreshToken, 2592000))
  {
  }

  /**
   * `RegisterAsync`. `newId` is the id the new entity draws; `created` and
   * `rolesAdded` are the answers of `CreateAsync` and `AddToRolesAsync`.
   */
  function Register(r: RegisterRequest, s: Store, emailOk: string -> bool, newId: string,
                    created: IdentityResult, rolesAdded: IdentityResult): (x: Step<string>)
    ensures x.outcome.Returned? && x.outcome.result.isSuccess ==> x.outcome.result.data == None
  {
    if Find(s, ByEmail(r.email)).Some? then Step(Failure([AlreadyRegistered], 409), s)
    else if Find(s, ByName(r.userName)).Some? then Step(Failure([DuplicateUserName], 409), s)
    else
      var msgs := ValidateRegister(r, emailOk);
      if msgs != [] then Step(ValidationFailure(msgs), s)
      else
        var u := NewUser(newId, r.userName, r.email, r.gender, r.firstName, r.lastName, r.phoneNumber);
        if created.Failed? then Step(Failure(StoreErrors(created), 500), s)
        else
          var withUser := Add(s, u);
          if rolesAdded.Failed? then Step(Failure(StoreErrors(rolesAdded), 500), withUser)
          else Step(Returned(Success(None, 200)), AddRoles(withUser, newId, [CustomerRole]))
  }

  /**
   * Registration first checks the email (409 AlreadyRegistered), then the user
   * name (409 DuplicateUserName), both before validation; a conflict leaves
   * the store unchanged.
   */
  lemma RegisterConflicts(r: RegisterRequest, s: Store, emailOk: string -> bool, newId: string,
                          created: IdentityResult, rolesAdded: IdentityResult)
    ensures var x := Register(r, s, emailOk, newId, created, rolesAdded);
      (exists i | 0 <= i < |s.users| :: s.users[i].email == Some(r.email)) ==>
        x.outcome.FailedWith([AlreadyRegistered], 409) && x.store == s
    ensures var x := Register(r, s, emailOk, newId, created, rolesAdded);
      Find(s, ByEmail(r.email)).None? && (exists i | 0 <= i < |s.users| :: s.users[i].userName == Some(r.userName)) ==>
        x.outcome.FailedWith([DuplicateUserName], 409) && x.store == s
  {
    if i :| 0 <= i < |s.users| && s.users[i].email == Some(r.email) {
      assert Matches(s.users[i], ByEmail(r.email));
      assert Register(r, s, emailOk, newId, created, rolesAdded) == Step(Failure([AlreadyRegistered], 409), s);
    } else if i :| 0 <= i < |s.users| && s.users[i].userName == Some(r.userName) {
      assert Matches(s.users[i], ByName(r.userName));
      if Find(s, ByEmail(r.email)).None? {
        assert Register(r, s, emailOk, newId, created, rolesAdded) == Step(Failure([DuplicateUserName], 409), s);
      }
    }
  }

  /** Without a conflict, a request some rule rejects is answered with its validation errors and changes nothing. */
  lemma RegisterValidatesAfterConflicts(r: RegisterRequest, s: Store, emailOk: string -> bool, newId: string,
                                        created: IdentityResult, rolesAdded: IdentityResult)
    requires Find(s, ByEmail(r.email)).None? && Find(s, ByName(r.userName)).None?
    requires !RegisterAcceptable(r, emailOk)
    ensures var x := Register(r, s, emailOk, newId, created, rolesAdded);
      x.outcome.FailedWith(ValidationErrors(ValidateRegister(r, emailOk)), 400) && x.store == s
  {    RegisterPassesIffAcceptable(r, emailOk, ValidateRegister(r, emailOk));
  }

  /** A free email and name, a request every rule accepts and two successful store calls, and nothing else, give 200. */
  lemma RegisterSucceedsIff(r: RegisterRequest, s: Store, emailOk: string -> bool, newId: string,
                            created: IdentityResult, rolesAdded: IdentityResult)
    ensures var x := Register(r, s, emailOk, newId, created, rolesAdded);
      x.outcome.Returned? && x.outcome.result.isSuccess <==>
        && Find(s, ByEmail(r.email)).None? && Find(s, ByName(r.userName)).None?
        && RegisterAcceptable(r, emailOk) && created.Succeeded? && rolesAdded.Succeeded?
    ensures var x := Register(r, s, emailOk, newId, created, rolesAdded);
      x.outcome.Returned? && x.outcome.result.isSuccess ==> x.outcome.result.status == 200
  {    RegisterPassesIffAcceptable(r, emailOk, ValidateRegister(r, emailOk));
  }

  /**
   * A successful registration into a valid store, with a fresh id, keeps it
   * valid; the new account is found by its name and email, holds the
   * request's profile, and has gained exactly the Customer role.
   */
  lemma RegisterCreatesCustomer(r: RegisterRequest, s: Store, emailOk: string -> bool, newId: string)
    requires Valid(s)
    requires forall i | 0 <= i < |s.users| :: s.users[i].id != newId
    requires Find(s, ByEmail(r.email)).None? && Find(s, ByName(r.userName)).None? && RegisterAcceptable(r, emailOk)
    ensures var t := Register(r, s, emailOk, newId, Succeeded, Succeeded).store;
      var u := NewUser(newId, r.userName, r.email, r.gender, r.firstName, r.lastName, r.phoneNumber);
      && Valid(t)
      && Find(t, ByName(r.userName)) == Some(u)
      && Find(t, ByEmail(r.email)) == Some(u)
      && RolesOf(t, newId) == RolesOf(s, newId) + ["Customer"]
  {
    RegisterPassesIffAcceptable(r, emailOk, ValidateRegister(r, emailOk));
    var u := NewUser(newId, r.userName, r.email, r.gender, r.firstName, r.lastName, r.phoneNumber);
    assert Fresh(s, u) by {
      forall i | 0 <= i < |s.users|
        ensures Apart(u, s.users[i])
      {
        assert !Matches(s.users[i], ByEmail(r.email)) && !Matches(s.users[i], ByName(r.userName));
      }
    }
    var t := Register(r, s, emailOk, newId, Succeeded, Succeeded).store;
    assert t == AddRoles(Add(s, u), newId, [CustomerRole]);
    NewCustomerStored(s, u);
  }

  /** Adding a fresh user and giving them the Customer role keeps the store valid and finds the user. */
  lemma NewCustomerStored(s: Store, u: User)
    requires Valid(s) && Fresh(s, u) && u.userName.Some? && u.email.Some?
    ensures var t := AddRoles(Add(s, u), u.id, [CustomerRole]);
      && Valid(t)
      && Find(t, ByName(u.userName.value)) == Some(u)
      && Find(t, ByEmail(u.email.value)) == Some(u)
      && RolesOf(t, u.id) == RolesOf(s, u.id) + ["Customer"]
  {
    var t := AddRoles(Add(s, u), u.id, [CustomerRole]);
    AddKeepsValid(s, u);
    assert t.users == Add(s, u).users;
  }

  /** When `CreateAsync` fails, the answer is 500 with its errors and no account is created. */
  lemma RegisterCreateFailure(r: RegisterRequest, s: Store, emailOk: string -> bool, newId: string,
                              created: IdentityResult, rolesAdded: IdentityResult)
    requires Find(s, ByEmail(r.email)).None? && Find(s, ByName(r.userName)).None? && RegisterAcceptable(r, emailOk)
    requires created.Failed? && created.failures != []
    ensures var x := Register(r, s, emailOk, newId, created, rolesAdded);
      x.outcome.FailedWith(StoreErrors(created), 500) && x.store == s
  {    RegisterPassesIffAcceptable(r, emailOk, ValidateRegister(r, emailOk));
  }

  /**
   * When `CreateAsync` succeeds but `AddToRolesAsync` fails, the account stays
   * created, without the Customer role, and the call answers 500 with the
   * store's errors.
   */
  lemma RegisterRoleFailureKeepsAccount(r: RegisterRequest, s: Store, emailOk: string -> bool, newId: string,
                                        rolesAdded: IdentityResult)
    requires Find(s, ByEmail(r.email)).None? && Find(s, ByName(r.userName)).None? && RegisterAcceptable(r, emailOk)
    requires rolesAdded.Failed? && rolesAdded.failures != []
    ensures var x := Register(r, s, emailOk, newId, Succeeded, rolesAdded);
      && x.outcome.FailedWith(StoreErrors(rolesAdded), 500)
      && x.store.users == s.users + [NewUser(newId, r.userName, r.email, r.gender, r.firstName, r.lastName, r.phoneNumber)]
      && x.store.memberships == s.memberships
  {    RegisterPassesIffAcceptable(r, emailOk, ValidateRegister(r, emailOk));
  }

  /** `ForgotPasswordAsync`: `resetToken` is what `GeneratePasswordResetTokenAsync` returns. */
  function ForgotPassword(r: ForgotPasswordRequest, s: Store, emailOk: string -> bool, resetToken: string): (o: Outcome<string>)
    ensures o.Returned?
  {
    var msgs := ValidateForgotPassword(r, emailOk);
    if msgs != [] then ValidationFailure(msgs)
    else if Find(s, ByEmail(r.email)).None? then Failure([UserNotFound], 404)
    else Returned(Success(Some(resetToken), 200))
  }

  /**
   * A valid request naming a stored email gets the reset token with 200; one
   * naming no stored email gets 404 `UserNotFound`.
   */
  lemma ForgotPasswordAnswers(r: ForgotPasswordRequest, s: Store, emailOk: string -> bool, resetToken: string)
    requires ValidateForgotPassword(r, emailOk) == []
    ensures (exists i | 0 <= i < |s.users| :: s.users[i].email == Some(r.email)) ==>
      ForgotPassword(r, s, emailOk, resetToken) == Returned(Success(Some(resetToken), 200))
    ensures (forall i | 0 <= i < |s.users| :: s.users[i].email != Some(r.email)) ==>
      ForgotPassword(r, s, emailOk, resetToken).FailedWith([UserNotFound], 404)
  {
  }

  /** `ResetPasswordAsync`: `reset` is `ResetPasswordAsync`'s answer for the user found by email. */
  function ResetPassword(r: ResetPasswordRequest, s: Store, emailOk: string -> bool, reset: IdentityResult): (o: Outcome<string>)
    ensures o.Raised? ==> o.exception == InvalidArgument
  {
    var msgs := ValidateResetPassword(r, emailOk);
    if msgs != [] then ValidationFailure(msgs)
    else if Find(s, ByEmail(r.email)).None? then Failure([UserNotFound], 404)
    else if reset.Failed? then Failure(StoreErrors(reset), 500)
    else Returned(Success(None, 200))
  }

  /**
   * For a valid request: an unknown email gives 404 `UserNotFound`; otherwise
   * the store's verdict decides between 200 and 500 with its errors, and an
   * error-less rejection throws.
   */
  lemma ResetPasswordAnswers(r: ResetPasswordRequest, s: Store, emailOk: string -> bool, reset: IdentityResult)
    requires ValidateResetPassword(r, emailOk) == []
    ensures (forall i | 0 <= i < |s.users| :: s.users[i].email != Some(r.email)) ==>
      ResetPassword(r, s, emailOk, reset).FailedWith([UserNotFound], 404)
    ensures (exists i | 0 <= i < |s.users| :: s.users[i].email == Some(r.email)) ==>
      && (reset.Succeeded? ==> ResetPassword(r, s, emailOk, reset) == Returned(Success(None, 200)))
      && (reset.Failed? && reset.failures != [] ==> ResetPassword(r, s, emailOk, reset).FailedWith(StoreErrors(reset), 500))
      && (reset == Failed([]) ==> ResetPassword(r, s, emailOk, reset) == Raised(InvalidArgument))
  {
  }

  /** An invalid forgot- or reset-password request is answered with its validation errors. */
  lemma PasswordFlowsValidateFirst(f: ForgotPasswordRequest, r: ResetPasswordRequest, s: Store,
                                   emailOk: string -> bool, resetToken: string, reset: IdentityResult)
    ensures ValidateForgotPassword(f, emailOk) != [] ==>
      ForgotPassword(f, s, emailOk, resetToken).FailedWith(ValidationErrors(ValidateForgotPassword(f, emailOk)), 400)
    ensures ValidateResetPassword(r, emailOk) != [] ==>
      ResetPassword(r, s, emailOk, reset).FailedWith(ValidationErrors(ValidateResetPassword(r, emailOk)), 400)
  {
  }
}
