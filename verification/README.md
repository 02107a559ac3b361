# Application layer of clean-architecture-boilerplate, in Dafny

This project models the application layer of the ASP.NET Core boilerplate: the decision logic
behind its authentication, user and role endpoints and behind its token authority. It does not
model the HTTP wiring, EF Core or IdentityServer. It covers:

- **Outcome kernel** (`kernel.dfy`). `Result<T>` is a subset type: the private constructor's
  rule (success exactly when there are no errors) is part of the type. The `ApiResponse<T>`
  envelope has no such rule. A thrown exception is the `Raised` alternative of `Outcome<T>`.
- **Error catalogues** (`errors.dfy`). These are `AuthErrors`, `UserErrors` and `RoleErrors`,
  including the three parameterised errors.
- **Request validators** (`text.dfy`, `validators.dfy`).
  - Each FluentValidation rule set evaluates to the ordered list of the messages of its failing
    checks.
  - The three regular expressions are predicates, each paired with a scanning matcher that is
    proved equal to it.
- **Claims** (`claims.dfy`).
  - `FindFirst` and `FindAll` over a principal's claims.
  - Building a claim list, where a null value throws.
  - `bool.ToString` and `bool.Parse`.
- **Identity store** (`store.dfy`).
  - The user rows, the role set and the role memberships form one immutable value.
  - `Valid` states the store's uniqueness rules.
  - Every call whose verdict is computed outside the application layer is a parameter: the
    password check, `CreateAsync`, `UpdateAsync`, `AddToRolesAsync`, `ResetPasswordAsync`, and
    the discovery and token responses.
- **Services** (`auth.dfy`, `users.dfy`, `roles.dfy`). These cover `AuthService`, `UserService`
  and `RoleService`.
  - A service that writes the store returns a `Step`: its outcome and the store afterwards.
  - Login and refresh return a `Session` instead, which holds the entity they loaded in its final
    state. They change only that in-memory entity and never save it.
- **Token authority extensions** (`grant.dfy`).
  - `ResourceOwnerPasswordValidator` decides a password grant and lists the token's claims.
  - `ProfileService` appends a user's claims to the issued ones.

Inputs the code reads from its environment are parameters:

- instants (`now`, integer seconds) and dates (`today`, day numbers);
- the `EmailAddress()` check (`emailOk`);
- date parsing and formatting;
- the Guid of a new user;
- the reset token;
- `DateTime.UtcNow.AddYears(100)`.

## Model

| member | source | states |
|---|---|---|
| Kernel.NewResult | src/CleanArchitecture.Application/Common/Result.cs:5-17 | The constructor throws an ArgumentException exactly when the success flag disagrees with the emptiness of the error list. Otherwise it stores every argument verbatim and never checks the status. |
| Kernel.Success | src/CleanArchitecture.Application/Common/Result.cs:29 | `Success(d, s)` never throws. It is a success with no errors, payload `d`, status `s`, and `IsFailure` false. |
| Kernel.Failure | src/CleanArchitecture.Application/Common/Result.cs:31 | `Failure(errs, s)` throws exactly when `errs` is empty. Otherwise it is a failure carrying exactly `errs` and `s`, with the default payload. |
| Kernel.ResultInvariant | src/CleanArchitecture.Application/Common/Result.cs:7-21 | Every constructible result succeeds exactly when its error list is empty, and `IsFailure` is the negation of `IsSuccess`. |
| Kernel.IncoherentResultsThrow | src/CleanArchitecture.Application/Common/Result.cs:7-10 | Success with errors, and failure without errors, both throw, whatever the payload and status. |
| Kernel.NewApiResponse | src/CleanArchitecture.Application/Common/ApiResponse.cs:5-11 | A null error list becomes empty. The other arguments are stored as given. |
| Kernel.SuccessResponse | src/CleanArchitecture.Application/Common/ApiResponse.cs:18-19 | Success, the given data and message, and no errors. |
| Kernel.FailureResponse | src/CleanArchitecture.Application/Common/ApiResponse.cs:21-22 | Not a success, the default payload, the given message and exactly the given errors. |
| Kernel.ApiResponseAdmitsEmptyFailure | src/CleanArchitecture.Application/Common/ApiResponse.cs:5-22 | A failure envelope with no errors can be built, while a `Result` failure with no errors throws. |
| Errors.AuthTokenResponseError | src/CleanArchitecture.Application/Exceptions/AuthErrors.cs:19 | The message is "Token error: ", then the detail, then a full stop. The detail can be read back from the message. |
| Errors.AuthTokenResponseErrorCode | src/CleanArchitecture.Application/Exceptions/AuthErrors.cs:19 | The code is "AuthErrors.TokenResponseError" whatever the detail. |
| Errors.TokenResponseErrorInjective | src/CleanArchitecture.Application/Exceptions/AuthErrors.cs:19 | All token errors share one code, and distinct details give distinct messages. |
| Errors.AuthCodesDistinct | src/CleanArchitecture.Application/Exceptions/AuthErrors.cs:5-19 | Every AuthErrors code is "AuthErrors." followed by the member's name, and no two codes coincide. |
| Errors.UserTokenResponseError | src/CleanArchitecture.Application/Exceptions/UserErrors.cs:7 | The message is the same as that of the AuthErrors token error for the same detail. |
| Errors.UserTokenResponseErrorCode | src/CleanArchitecture.Application/Exceptions/UserErrors.cs:7 | The code is "UserErrors.TokenResponseError" whatever the detail. |
| Errors.TokenResponseErrorsDiffer | src/CleanArchitecture.Application/Exceptions/UserErrors.cs:7 | The UserErrors and AuthErrors token errors never share a code, whatever their details. |
| Errors.UserInfoResponseError | src/CleanArchitecture.Application/Exceptions/UserErrors.cs:9 | The message is "User info error: ", then the detail, then a full stop. |
| Errors.UserInfoResponseErrorCode | src/CleanArchitecture.Application/Exceptions/UserErrors.cs:9 | The code is "UserErrors.UserInfoResponseError" whatever the detail. |
| Errors.UserCodesDistinct | src/CleanArchitecture.Application/Exceptions/UserErrors.cs:5-9 | Every UserErrors code is "UserErrors." followed by the member's name, and the three codes are pairwise distinct. |
| Errors.RoleNotFound | src/CleanArchitecture.Application/Exceptions/RoleErrors.cs:5 | The code is "RoleErrors.RoleNotFound". The message is "Couldn't find the role ", then the role, then a full stop. |
| Errors.RoleNotFoundInjective | src/CleanArchitecture.Application/Exceptions/RoleErrors.cs:5 | Every role name gets the same code. Two role names give different messages exactly when the names differ. |
| Text.MatchRegisterPhone | src/CleanArchitecture.Application/Validators/Auth/RegisterValidator.cs:15 | Accepts exactly the strings of `^\+?\d{10,15}$`: an optional '+' and 10 to 15 digits, optionally followed by one final newline. |
| Text.MatchLetters | src/CleanArchitecture.Application/Validators/Auth/RegisterValidator.cs:28 | Accepts exactly the strings of `^[a-zA-Z]+$`, optionally followed by one final newline. |
| Text.MatchE164 | src/CleanArchitecture.Application/Validators/User/UpdateProfileValidator.cs:10 | Accepts exactly the strings of `^\+?[1-9]\d{1,14}$`: an optional '+', then 2 to 15 digits with no leading zero, optionally followed by one final newline. |
| Text.TrailingNewlineAccepted | src/CleanArchitecture.Application/Validators/Auth/RegisterValidator.cs:13-15 | Since `$` also matches before a final newline, each pattern accepts a matching text followed by "\n". |
| Validators.ValidationErrors | src/CleanArchitecture.Application/Services/AuthService.cs:132-134 | Each validation message becomes one `ValidationError` error carrying the message text, in order. |
| Validators.ValidationFailure | src/CleanArchitecture.Application/Services/AuthService.cs:129-137 | A rejected request is answered with 400, those errors, and no payload. |
| Validators.ValidateLogin | src/CleanArchitecture.Application/Validators/Auth/LoginValidator.cs:9-13 | A blank user name gives "UserName is required." and a blank password gives "Password is required.". There is no message exactly when both are filled, and the messages keep declaration order. |
| Validators.ValidateRegister | src/CleanArchitecture.Application/Validators/Auth/RegisterValidator.cs:9-32 | A message appears exactly when its check fails, in rule-declaration order, with nothing else. |
| Validators.RegisterContactMessages | src/CleanArchitecture.Application/Validators/Auth/RegisterValidator.cs:9-15 | The email messages appear exactly for a blank or malformed email. The phone messages appear exactly for a blank number or one outside `^\+?\d{10,15}$`. |
| Validators.RegisterAccountMessages | src/CleanArchitecture.Application/Validators/Auth/RegisterValidator.cs:17-24 | The password, confirmation and user-name messages appear exactly when their checks fail. |
| Validators.RegisterNameMessages | src/CleanArchitecture.Application/Validators/Auth/RegisterValidator.cs:26-32 | The first-name and last-name messages appear exactly for blank names and for names that are not letters only. |
| Validators.BlankNameFailsBothChecks | src/CleanArchitecture.Application/Validators/Auth/RegisterValidator.cs:26-32 | A blank name draws both the "required" and the "only letters" message of its rule. |
| Validators.RegisterPassesIffAcceptable | src/CleanArchitecture.Application/Validators/Auth/RegisterValidator.cs:9-32 | Registration validation reports nothing exactly when every rule accepts the request. |
| Validators.ValidateForgotPassword | src/CleanArchitecture.Application/Validators/Auth/ForgotPasswordValidator.cs:9-11 | Only the two email messages can appear, each exactly when its check fails. A filled, well-formed email passes. |
| Validators.ValidateResetPassword | src/CleanArchitecture.Application/Validators/Auth/ResetPasswordValidator.cs:9-20 | A message appears exactly when its check fails, in declaration order. |
| Validators.ResetPasswordMessages | src/CleanArchitecture.Application/Validators/Auth/ResetPasswordValidator.cs:9-20 | Each reset message appears exactly when its own check fails. |
| Validators.ResetPasswordPassesIffAcceptable | src/CleanArchitecture.Application/Validators/Auth/ResetPasswordValidator.cs:9-20 | Nothing is reported exactly for a filled, well-formed email, a filled password, a matching confirmation and a filled token. |
| Validators.ValidateRefreshToken | src/CleanArchitecture.Application/Validators/Auth/RefreshTokenValidator.cs:9-10 | The only possible message is "Refresh Token is required.", given exactly when the token is empty or white space. |
| Validators.ValidateUpdateProfile | src/CleanArchitecture.Application/Validators/User/UpdateProfileValidator.cs:9-16 | A null or empty phone number never fails. Any other number must match the E.164 pattern. A birth date fails only when present and not before today, so an all-null request passes. |
| Validators.ValidateUser | src/CleanArchitecture.Application/Validators/User/UserValidator.cs:9-10 | The only possible message is "Username is required.", given exactly for a blank name. |
| Validators.ValidateAssignRole | src/CleanArchitecture.Application/Validators/Role/AssignRoleValidator.cs:9-15 | The user-name message is given for a blank name, the empty-list message for no roles, and the per-role message when some role is blank. An empty list never draws the per-role message. |
| Claims.FindFirst | src/CleanArchitecture.Application/Services/UserService.cs:88-95 | Gives null exactly when no claim has the type. Otherwise it gives the value of a claim of that type. |
| Claims.FindFirstIsFirst | src/CleanArchitecture.Application/Services/UserService.cs:88-95 | The value found is the value of the first claim of the type. |
| Claims.FindAll | src/CleanArchitecture.Application/Services/UserService.cs:96 | A value is listed exactly when some claim of the type carries it. The list is never longer than the claims. |
| Claims.FindAllAppend | src/CleanArchitecture.Application/Services/UserService.cs:96 | The values found in two claim lists placed one after the other are those of the first, then those of the second. |
| Claims.FindAllOfOne | src/CleanArchitecture.Application/Services/UserService.cs:96 | A single claim contributes its value exactly when it has the type. Together with the append rule, this gives every matching value, duplicates included, in claim order. |
| Claims.BuildClaims | src/CleanArchitecture.Application/Validators/ResourceOwnerPasswordValidator.cs:49-59 | Building the claim list throws an ArgumentNullException exactly when some value is null. Otherwise the list has one claim per entry, in order. |
| Claims.ClaimsOfKind | src/CleanArchitecture.Application/Validators/ResourceOwnerPasswordValidator.cs:61-62 | One claim of the given type per role, in order. |
| Claims.FindAllClaimsOfKind | src/CleanArchitecture.Application/Services/UserService.cs:96 | Listing the values of the role claims gives the roles back, in order. |
| Claims.ParseBool | src/CleanArchitecture.Application/Services/UserService.cs:107 | Gives true or false exactly for "True" or "False", in any letter case, after padding is trimmed. Anything else throws. |
| Claims.ParseBoolRoundTrip | src/CleanArchitecture.Application/Services/UserService.cs:107 | Parsing `bool.ToString()` gives the boolean back. |
| Claims.ParseBoolIgnoresCaseAndPadding | src/CleanArchitecture.Application/Services/UserService.cs:107 | Letter case and white space on either side do not change the parsed value. |
| Store.StoreErrors | src/CleanArchitecture.Application/Services/UserService.cs:150 | Each identity error becomes one error with the same code and description, in order. |
| Store.StoreFailureOutcome | src/CleanArchitecture.Application/Services/UserService.cs:148-152 | Reporting a failed store call throws exactly when the store gave no error. Otherwise the answer carries the mapped errors. |
| AuthFlows.Login | src/CleanArchitecture.Application/Services/AuthService.cs:70-125 | Login never throws: every path returns a result. |
| AuthFlows.LoginValidatesFirst | src/CleanArchitecture.Application/Services/AuthService.cs:72-80 | An invalid request gets 400 with its validation errors, before any lookup or token request. |
| AuthFlows.LoginHidesUnknownUsers | src/CleanArchitecture.Application/Services/AuthService.cs:82-86 | An unknown user and a wrong password both get 400 `InvalidCredentials`, with no token request. |
| AuthFlows.LoginTokenRequest | src/CleanArchitecture.Application/Services/AuthService.cs:95-106 | A token request is sent exactly when all checks pass and discovery succeeds. It is a password grant with the stored name, the request's password, "api_client"/"secret" and the fixed scope. |
| AuthFlows.LoginTokenAuthorityFailures | src/CleanArchitecture.Application/Services/AuthService.cs:88-111 | A discovery error gives 500 `IdentityServerFailed`. A token error gives 400 with `TokenResponseError` of its description. The entity keeps its stored refresh-token fields in both cases. |
| AuthFlows.LoginFailureKeepsEntity | src/CleanArchitecture.Application/Services/AuthService.cs:82-114 | A login that fails leaves the loaded entity as stored. |
| AuthFlows.LoginSuccess | src/CleanArchitecture.Application/Services/AuthService.cs:113-124 | Success happens exactly when a token is issued. The entity then holds the new refresh token, which expires 30 days after now. The 200 answer carries the name, email, tokens, `ExpiresIn` and 2592000. |
| AuthFlows.Refresh | src/CleanArchitecture.Application/Services/AuthService.cs:127-182 | The only exception refresh can throw is a NullReferenceException. |
| AuthFlows.RefreshChecksOrder | src/CleanArchitecture.Application/Services/AuthService.cs:129-143 | Validation (400) comes first, then 401 `UnauthorizedUser` for a missing or unauthenticated principal, before any lookup. |
| AuthFlows.RefreshNeedsNameIdentifier | src/CleanArchitecture.Application/Services/AuthService.cs:144 | A principal with no NameIdentifier claim throws at the `!`, before any lookup. |
| AuthFlows.RefreshTokenAuthorityFailures | src/CleanArchitecture.Application/Services/AuthService.cs:147-168 | A discovery error gives 500 `IdentityServerFailed`. A token error gives 400 with `TokenResponseError` of its description. The looked-up entity stays as stored. |
| AuthFlows.RefreshTokenRequestSent | src/CleanArchitecture.Application/Services/AuthService.cs:154-165 | The refresh grant carries the request's refresh token, grant type "refresh_token", and the fixed client. |
| AuthFlows.RefreshCrashesForUnknownUser | src/CleanArchitecture.Application/Services/AuthService.cs:144-171 | When the id names no stored user, the token is still redeemed, and the `user!` dereference then throws. |
| AuthFlows.RefreshSuccess | src/CleanArchitecture.Application/Services/AuthService.cs:170-181 | Success happens exactly for a stored user and an issued token. The entity gets the new refresh token, which expires 30 days after now, and the answer has the login's shape. |
| AuthFlows.Register | src/CleanArchitecture.Application/Services/AuthService.cs:184-253 | A successful registration carries no payload. |
| AuthFlows.RegisterConflicts | src/CleanArchitecture.Application/Services/AuthService.cs:186-193 | A taken email gives 409 `AlreadyRegistered`. Otherwise a taken user name gives 409 `DuplicateUserName`. Both checks come before validation and write nothing. |
| AuthFlows.RegisterValidatesAfterConflicts | src/CleanArchitecture.Application/Services/AuthService.cs:194-202 | Without a conflict, a request some rule rejects gets 400 with its validation errors and writes nothing. |
| AuthFlows.RegisterSucceedsIff | src/CleanArchitecture.Application/Services/AuthService.cs:184-252 | The answer is a success, with status 200, exactly when the email and name are free, every registration rule accepts the request, and both store calls succeed. |
| AuthFlows.RegisterCreateFailure | src/CleanArchitecture.Application/Services/AuthService.cs:214-219 | A failed `CreateAsync` gives 500 with its errors and creates no account. |
| AuthFlows.RegisterCreatesCustomer | src/CleanArchitecture.Application/Services/AuthService.cs:204-225 | A successful registration keeps the store valid. The new account is found by name and email and holds the request's profile with the default birth date. It has lockout enabled, because the host allows lockout for new users. It gains exactly the "Customer" role. |
| AuthFlows.RegisterRoleFailureKeepsAccount | src/CleanArchitecture.Application/Services/AuthService.cs:220-225 | When adding the role fails, the answer is 500 with the store's errors. The account stays created and has no new role. |
| AuthFlows.ForgotPassword | src/CleanArchitecture.Application/Services/AuthService.cs:46-68 | The forgot-password flow never throws. |
| AuthFlows.ForgotPasswordAnswers | src/CleanArchitecture.Application/Services/AuthService.cs:57-67 | A valid request for a stored email gets the reset token with 200. An unknown email gets 404 `UserNotFound`. |
| AuthFlows.PasswordFlowsValidateFirst | src/CleanArchitecture.Application/Services/AuthService.cs:48-56 | Invalid forgot-password requests get 400 with their validation errors. The same holds for reset-password requests (lines 257-265). |
| AuthFlows.ResetPassword | src/CleanArchitecture.Application/Services/AuthService.cs:255-280 | The only exception the reset flow can throw is the ArgumentException of an empty failure. |
| AuthFlows.ResetPasswordAnswers | src/CleanArchitecture.Application/Services/AuthService.cs:266-279 | An unknown email gets 404 `UserNotFound`. Otherwise the store's verdict decides: 200, or 500 with its errors. A rejection with no errors throws. |
| UserFlows.Disable | src/CleanArchitecture.Application/Services/UserService.cs:29-54 | Disabling throws only when the update fails without errors. |
| UserFlows.Enable | src/CleanArchitecture.Application/Services/UserService.cs:56-78 | Enabling throws only when the update fails without errors. |
| UserFlows.LockingRejects | src/CleanArchitecture.Application/Services/UserService.cs:31-43 | Disable and enable answer an invalid request with its validation errors and an unknown user with 404 `UserNotFound`. Neither writes anything. |
| UserFlows.DisableLocksOut | src/CleanArchitecture.Application/Services/UserService.cs:44-53 | Disabling rewrites only the user's row. It clears the refresh token and its expiry, enables lockout and sets the lockout end. A failed update gives 400 and writes nothing. |
| UserFlows.EnableOnlyClearsFlag | src/CleanArchitecture.Application/Services/UserService.cs:68-77 | Enabling changes only `LockoutEnabled`. The lockout end and refresh-token fields stay, and other rows are untouched. |
| UserFlows.DisableThenEnable | src/CleanArchitecture.Application/Services/UserService.cs:44-72 | After disable then enable, lockout is off, the hundred-year lockout end remains, and the refresh token is gone. |
| UserFlows.GetUserProfile | src/CleanArchitecture.Application/Services/UserService.cs:80-110 | The answer is a returned failure exactly when there is no authenticated principal, and it is then 401 `UnauthorizedUser`. A returned success is 200 with a profile. The only exceptions are `NullDereference` (a missing id, name, email or gender claim) and `BadFormat` (a birth date or gender that does not parse). |
| UserFlows.ReadProfile | src/CleanArchitecture.Application/Services/UserService.cs:88-108 | The call throws `NullDereference` exactly when the first id, name, email or gender claim is missing. A returned profile has the id claim's value as its id, the surname claim as its first name, the given-name claim as its last name, every role claim in order, and the parsed gender claim. |
| UserFlows.ProfileFromClaimValues | src/CleanArchitecture.Application/Services/UserService.cs:88-109 | The profile is returned exactly when the four required values are present, any birth date parses, and the gender parses. The only exceptions are `NullDereference` and `BadFormat`. A returned profile is 200 with each value in its field. Its birth date is the parsed date, or `DateOnly.MinValue` when absent, and its gender is `bool.Parse` of the claim. |
| UserFlows.ProfileParsesClaims | src/CleanArchitecture.Application/Services/UserService.cs:98-108 | A parseable birth-date claim and any gender spelling that `bool.Parse` accepts give a 200 profile with the parsed date and gender. |
| UserFlows.ProfileNeedsAuthentication | src/CleanArchitecture.Application/Services/UserService.cs:82-86 | Without an authenticated principal the answer is 401 `UnauthorizedUser`. |
| UserFlows.ProfileNeedsRequiredClaims | src/CleanArchitecture.Application/Services/UserService.cs:88-95 | A missing id, name, email or gender claim makes the call throw. |
| UserFlows.ProfileFromClaims | src/CleanArchitecture.Application/Services/UserService.cs:88-108 | The profile comes from the claims alone. The first name is the surname claim and the last name the given-name claim. A missing birth date becomes `DateOnly.MinValue`. The roles are all role claims, in order, and the answer is 200. |
| UserFlows.ProfileWithoutBirthDate | src/CleanArchitecture.Application/Services/UserService.cs:98-108 | With the required values and no birth date, the profile holds the default date and the parsed gender. |
| UserFlows.Merged | src/CleanArchitecture.Application/Services/UserService.cs:136-145 | Each non-null request field replaces the stored one, and every other field is kept. |
| UserFlows.EmptyUpdateKeepsUser | src/CleanArchitecture.Application/Services/UserService.cs:136-145 | An all-null update leaves the user unchanged. |
| UserFlows.UpdateProfile | src/CleanArchitecture.Application/Services/UserService.cs:112-166 | The store changes only on a successful answer. |
| UserFlows.UpdateStored | src/CleanArchitecture.Application/Services/UserService.cs:136-165 | The stored-user stage writes only when it answers with success. |
| UserFlows.UpdateProfileChecksOrder | src/CleanArchitecture.Application/Services/UserService.cs:114-134 | The checks come in order: validation 400, then 401, then 404 for an unknown id. None of them writes. |
| UserFlows.UpdateProfileNameTaken | src/CleanArchitecture.Application/Services/UserService.cs:136-139 | A new name held by another row gives 409 `DuplicateUserName` and writes nothing. |
| UserFlows.UpdateProfileStoreFailure | src/CleanArchitecture.Application/Services/UserService.cs:147-152 | When the name is free but the update is rejected, the answer is 500 with the store's errors and nothing is written. |
| UserFlows.StoredUpdateFails | src/CleanArchitecture.Application/Services/UserService.cs:147-152 | The same as UpdateProfileStoreFailure, for the stored-user stage. |
| UserFlows.UpdateProfileSaves | src/CleanArchitecture.Application/Services/UserService.cs:136-165 | With a name nobody else holds, a successful update saves the merged entity and keeps the store valid. The answer carries the merged profile with the claim id and the claim roles. |
| UserFlows.StoredUpdateSaves | src/CleanArchitecture.Application/Services/UserService.cs:136-165 | A free name and a successful update save the merged entity, which is then found by id. |
| RoleFlows.MissingRoleErrors | src/CleanArchitecture.Application/Services/RoleService.cs:38-49 | The list is empty exactly when every requested role exists. An error is in it exactly when it is the `RoleNotFound` of a requested role that does not exist. It is never longer than the request. |
| RoleFlows.MissingRoleErrorsAppend | src/CleanArchitecture.Application/Services/RoleService.cs:38-45 | The errors for two request lists placed one after the other are the errors for the first, then those for the second. |
| RoleFlows.MissingRoleErrorsOfOne | src/CleanArchitecture.Application/Services/RoleService.cs:40-44 | A single requested role gives one `RoleNotFound` if it is missing and nothing otherwise. Together with the append rule, this gives one error per missing role, repeats included, in request order. |
| RoleFlows.CollectRoleErrors | src/CleanArchitecture.Application/Services/RoleService.cs:38-45 | The loop collects exactly the `RoleNotFound` list. |
| RoleFlows.AssignRole | src/CleanArchitecture.Application/Services/RoleService.cs:22-70 | Assigning roles never changes the user rows or the set of roles. |
| RoleFlows.AssignRoleRejects | src/CleanArchitecture.Application/Services/RoleService.cs:24-49 | An invalid request gets 400 with its validation errors. An unknown user gets 404 `UserNotFound`. Missing roles get 400 with every `RoleNotFound`. None of them writes. |
| RoleFlows.AssignRoleReplaces | src/CleanArchitecture.Application/Services/RoleService.cs:51-68 | When removal and addition succeed, the user's roles become exactly the requested ones and nobody else's change. The answer is 200 with the profile and the requested roles. |
| RoleFlows.AssignRoleMergesWhenRemovalFails | src/CleanArchitecture.Application/Services/RoleService.cs:51-68 | When removal fails and addition succeeds, the answer is still 200 with the requested roles. The user keeps the old roles as well. |
| RoleFlows.AssignRoleFailureStripsRoles | src/CleanArchitecture.Application/Services/RoleService.cs:51-69 | When removal succeeds and addition fails, the answer is 400 with the store's errors and the user is left with no roles. |
| RoleFlows.AssignRoleIgnoresRemoval | src/CleanArchitecture.Application/Services/RoleService.cs:52-53 | The removal's result never changes the answer. |
| TokenEndpoint.BirthDateText | src/CleanArchitecture.Application/Validators/ResourceOwnerPasswordValidator.cs:55 | A missing birth date is written as the empty string. |
| TokenEndpoint.WithRoleClaims | src/CleanArchitecture.Application/Validators/ResourceOwnerPasswordValidator.cs:61-62 | The role claims follow the profile claims, which keep their order. |
| TokenEndpoint.ValidatePassword | src/CleanArchitecture.Application/Validators/ResourceOwnerPasswordValidator.cs:19-65 | The only exception the validator can throw is the ArgumentNullException of a null claim value. |
| TokenEndpoint.GrantRejections | src/CleanArchitecture.Application/Validators/ResourceOwnerPasswordValidator.cs:21-43 | An unknown user and a wrong password get the same `invalid_grant` "Invalid username or password.". "Account is locked." comes only after a matching password. No rejection writes. |
| TokenEndpoint.GrantResetsFailedCount | src/CleanArchitecture.Application/Validators/ResourceOwnerPasswordValidator.cs:38-46 | A matching password on an unlocked account saves the user with the failed-access count reset to zero. This happens before the claims are built, even if building them then throws. Otherwise the store is unchanged. |
| TokenEndpoint.GrantClaims | src/CleanArchitecture.Application/Validators/ResourceOwnerPasswordValidator.cs:49-64 | The subject is the user's id and the method is "password". The claims are sub, email, name, phone_number, birthdate, family_name (first name), given_name (last name) and gender, then one role claim per role. |
| TokenEndpoint.GrantedGenderParses | src/CleanArchitecture.Application/Validators/ResourceOwnerPasswordValidator.cs:58 | The granted gender claim parses back to the stored gender. |
| TokenEndpoint.GrantThrowsOnMissingField | src/CleanArchitecture.Application/Validators/ResourceOwnerPasswordValidator.cs:46-59 | A user without an email, phone, first name or last name gets the count reset, and then the validator throws. |
| TokenEndpoint.GetProfileData | src/CleanArchitecture.Application/Services/ProfileService.cs:19-50 | The only exception it can throw is the ArgumentNullException of a null claim value. |
| TokenEndpoint.ProfileOfUnknownSubject | src/CleanArchitecture.Application/Services/ProfileService.cs:21-24 | An unknown subject leaves the issued claims unchanged. |
| TokenEndpoint.ProfileAppendsClaims | src/CleanArchitecture.Application/Services/ProfileService.cs:26-48 | The issued claims are kept. They are followed by sub (the id), name, email, phone_number, birthdate, family_name (the first name), given_name (the last name) and gender, then one role claim per role. |
| TokenEndpoint.ProfileThrowsOnMissingField | src/CleanArchitecture.Application/Services/ProfileService.cs:26-39 | A stored user without a user name, email, phone number, first name or last name makes the call throw an ArgumentNullException, so no claim is issued. |
| TokenEndpoint.IsActive | src/CleanArchitecture.Application/Services/ProfileService.cs:52-55 | The context is returned unchanged. |

## Left out

- **UserManager and RoleManager internals.** These are name normalisation, password hashing,
  the validation inside `CreateAsync`, reset-token generation and the lockout policy. Their
  answers are parameters, and `IsLockedOutAsync` is the `lockedOut` flag.
- **Store uniqueness.** The `Valid` predicate assumes that ids, user names and emails are each
  held by at most one row.
  - Identity enforces unique ids and user names.
  - It does not enforce unique emails: `RequireUniqueEmail` keeps its default of false. Emails stay
    unique only because registration looks the email up before creating an account, and no
    other flow changes an email.
  - A store that already holds a duplicate email is outside the model. On such a store
    `FindByEmailAsync` throws, while `Find` would return the first match.
  - Lookups are exact string comparisons.
- **EF Core change tracking.** An entity modified in memory but not saved (the 409 and 500
  paths of the profile update, and login and refresh) is not written. Login and refresh return
  the modified entity instead of a store.
- **`ResetAccessFailedCountAsync`.** It is taken to succeed. Its own `IdentityResult` is
  discarded by the validator.
- **The token authority's HTTP calls.** Discovery and the token endpoint are answers passed
  in. The address `https://localhost:5051/` is not modelled.
- **`DateOnly.Parse` and `DateOnly.ToString`.** Both are culture dependent and are passed in
  as functions. Dates are day numbers and instants are integer seconds.
- **`DateTime.UtcNow.AddYears(100)`.** It is the `lockoutUntil` parameter, because the
  calendar is not modelled.
- Claims.ParseBool: `Boolean.Parse` compares case-insensitively using invariant-culture rules.
  The model folds ASCII letters only. This is enough for "True" and "False", but it accepts no
  non-ASCII case variants.
- Text.MatchRegisterPhone: .NET `\d` also matches non-ASCII decimal digits; the model accepts
  ASCII digits only.
- Text.MatchE164: the same narrowing of `\d` to ASCII digits.
- Validators.ValidateRegister: `EmailAddress()` is the FluentValidation library's own check.
  It is the `emailOk` parameter, not a definition.
- **Null request strings.** The request DTOs' string fields are modelled as non-null.
  - The validators' null cases are not modelled.
  - Lookups whose name or email would come from a null request string are therefore not
    modelled. An example is Register's conflict lookups, which run before validation.
  - The one null-name lookup that can arise from stored data is modelled: the profile update
    looks up the stored name when both the request's and the stored name are null. It throws
    `NullArgument` (`UserFlows.UpdateStored`).
  - The update-profile request's fields are nullable and are modelled.
- **`HttpContext.User.Identity!`.** A principal without an identity is not modelled. The
  principal is either absent or has an authentication flag.
- **`ProfileService` subject id.** `Subject.GetSubjectId()` throws when the subject has no
  `sub` claim. The model takes the subject id as given.
- **`Roles.Customer`.** The enum's file is not part of this model. Its value is taken to be
  "Customer".
- **Duplicate roles.** Duplicates in an `AddToRolesAsync` request are appended as given. The
  store's duplicate-membership rejection is not modelled.
- **A failed `RemoveFromRolesAsync`.** It is modelled as removing nothing.
- **IdentityServer.** Its in-memory configuration, the endpoints, the error-handling
  middleware, the caches, seeding and DI wiring are outside the application layer.
- **Sequential execution.** `async`/`await` scheduling and concurrency between requests are
  not modelled; each call runs to completion on its own.
