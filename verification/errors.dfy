/**
 * The error catalogues of the application layer: `AuthErrors`, `UserErrors`
 * and `RoleErrors`. Each code is the catalogue's name, a dot, and the member
 * name; the parameterised errors embed their detail in the message only.
 */
module Errors {
  import opened Kernel

  // AuthErrors

  /** An AuthErrors member: its code is "AuthErrors." followed by the member's name. */
  function AuthError(member: string, message: string): Error {
    Error("AuthErrors." + member, message)
  }

  const InvalidCredentials := AuthError("InvalidCredentials", "Wrong email or password, pls try again.")
  const NotRegistered := AuthError("NotRegistered", "You haven't sign up yet.")
  const UserNotFound := AuthError("UserNotFound", "We couldn't find your account, make sure you given the correct credentials.")
  const AlreadyRegistered := AuthError("AlreadyRegistered", "You have registered with this email.")
  const DuplicateUserName := AuthError("DuplicateUserName", "This username has already been taken.")
  const RegistrationFailed := AuthError("RegistrationFailed", "Failed to register user, pls try again later.")
  const IdentityServerFailed := AuthError("IdentityServerFailed", "Failed to fetch discovery document.")

  /** The message `"<prefix><detail>."` used by every parameterised error. */
  function Decorate(prefix: string, detail: string): string {
    prefix + detail + "."
  }

  /** The fixed openings of the parameterised messages. */
  const TokenErrorPrefix: string := "Token error: "
  const UserInfoErrorPrefix: string := "User info error: "
  const RoleNotFoundPrefix: string := "Couldn't find the role "

  /** A decorated message splits back into its prefix, its detail and the final full stop. */
  lemma DecorateSplits(prefix: string, detail: string)
    ensures var m := Decorate(prefix, detail);
      |m| == |prefix| + |detail| + 1 && m[..|prefix|] == prefix && m[|prefix|..|m| - 1] == detail
  {
    var m := Decorate(prefix, detail);
    assert m[..|prefix|] == prefix;
    assert m[|prefix|..|m| - 1] == detail;
  }

  /** `AuthErrors.TokenResponseError(detail)`. */
  function AuthTokenResponseError(detail: string): (e: Error)
    ensures |e.message| == |TokenErrorPrefix| + |detail| + 1
    ensures e.message[..|TokenErrorPrefix|] == TokenErrorPrefix
    ensures e.message[|TokenErrorPrefix|..|e.message| - 1] == detail
  {
    DecorateSplits(TokenErrorPrefix, detail);
    AuthError("TokenResponseError", Decorate(TokenErrorPrefix, detail))
  }

  // UserErrors

  /** A UserErrors member: its code is "UserErrors." followed by the member's name. */
  function UserError(member: string, message: string): Error {
    Error("UserErrors." + member, message)
  }

  const UnauthorizedUser := UserError("UnauthorizedUser", "User is not auhenticated.")

  /** `UserErrors.TokenResponseError(detail)`: same message as the AuthErrors one, different code. */
  function UserTokenResponseError(detail: string): (e: Error)
    ensures e.message == AuthTokenResponseError(detail).message
  {
    UserError("TokenResponseError", Decorate(TokenErrorPrefix, detail))
  }

  /** `UserErrors.UserInfoResponseError(detail)`. */
  function UserInfoResponseError(detail: string): (e: Error)
    ensures |e.message| == |UserInfoErrorPrefix| + |detail| + 1
    ensures e.message[..|UserInfoErrorPrefix|] == UserInfoErrorPrefix
    ensures e.message[|UserInfoErrorPrefix|..|e.message| - 1] == detail
  {
    DecorateSplits(UserInfoErrorPrefix, detail);
    UserError("UserInfoResponseError", Decorate(UserInfoErrorPrefix, detail))
  }

  /** The codes of the parameterised errors are fixed: the detail reaches the message only. */
  lemma AuthTokenResponseErrorCode(detail: string)
    ensures AuthTokenResponseError(detail).code == "AuthErrors.TokenResponseError"
  {
  }

  lemma UserTokenResponseErrorCode(detail: string)
    ensures UserTokenResponseError(detail).code == "UserErrors.TokenResponseError"
  {
  }

  lemma UserInfoResponseErrorCode(detail: string)
    ensures UserInfoResponseError(detail).code == "UserErrors.UserInfoResponseError"
  {
  }

  // RoleErrors

  /** `RoleErrors.RoleNotFound(role)`. */
  function RoleNotFound(role: string): (e: Error)
    ensures e.code == "RoleErrors.RoleNotFound"
    ensures |e.message| == |RoleNotFoundPrefix| + |role| + 1
    ensures e.message[..|RoleNotFoundPrefix|] == RoleNotFoundPrefix
    ensures e.message[|RoleNotFoundPrefix|..|e.message| - 1] == role
  {
    DecorateSplits(RoleNotFoundPrefix, role);
    Error("RoleErrors.RoleNotFound", Decorate(RoleNotFoundPrefix, role))
  }

  /** The detail can be read back from a decorated message: decoration is injective. */
  lemma DecorateInjective(prefix: string, a: string, b: string)
    requires Decorate(prefix, a) == Decorate(prefix, b)
    ensures a == b
  {
    var m := Decorate(prefix, a);
    assert |a| == |b|;
    assert a == m[|prefix|..|prefix| + |a|];
    assert b == m[|prefix|..|prefix| + |b|];
  }

  /** Equal strings with a common prefix have equal remainders. */
  lemma PrefixCancels(p: string, a: string, b: string)
    requires p + a == p + b
    ensures a == b
  {
    assert a == (p + a)[|p|..];
    assert b == (p + b)[|p|..];
  }

  /** Distinct details give distinct token-error messages, under one code. */
  lemma TokenResponseErrorInjective(d1: string, d2: string)
    ensures AuthTokenResponseError(d1).code == AuthTokenResponseError(d2).code
    ensures d1 != d2 ==> AuthTokenResponseError(d1).message != AuthTokenResponseError(d2).message
  {
    if AuthTokenResponseError(d1).message == AuthTokenResponseError(d2).message {
      DecorateInjective("Token error: ", d1, d2);
    }
  }

  /** Distinct role names give distinct RoleNotFound messages but share one code. */
  lemma RoleNotFoundInjective(r1: string, r2: string)
    ensures RoleNotFound(r1).code == RoleNotFound(r2).code
    ensures r1 != r2 <==> RoleNotFound(r1).message != RoleNotFound(r2).message
  {
    if RoleNotFound(r1).message == RoleNotFound(r2).message {
      DecorateInjective("Couldn't find the role ", r1, r2);
    }
  }

  /** The two token errors never share a code, whatever their details. */
  lemma TokenResponseErrorsDiffer(d1: string, d2: string)
    ensures AuthTokenResponseError(d1) != UserTokenResponseError(d2)
    ensures AuthTokenResponseError(d1).code != UserTokenResponseError(d2).code
  {
    assert AuthTokenResponseError(d1).code[0] != UserTokenResponseError(d2).code[0];
  }

  /** The AuthErrors members, named as declared, with a representative for the parameterised one. */
  const AuthMembers: seq<string> := ["InvalidCredentials", "NotRegistered", "UserNotFound", "AlreadyRegistered",
                                     "DuplicateUserName", "RegistrationFailed", "IdentityServerFailed", "TokenResponseError"]
  const AuthCatalogue: seq<Error> := [InvalidCredentials, NotRegistered, UserNotFound, AlreadyRegistered,
                                      DuplicateUserName, RegistrationFailed, IdentityServerFailed, AuthTokenResponseError("")]

  /** The UserErrors members, named as declared. */
  const UserMembers: seq<string> := ["UnauthorizedUser", "TokenResponseError", "UserInfoResponseError"]
  const UserCatalogue: seq<Error> := [UnauthorizedUser, UserTokenResponseError(""), UserInfoResponseError("")]

  /** AuthErrors: each code is "AuthErrors." + its member name, and no two codes coincide. */
  lemma AuthCodesDistinct()
    ensures |AuthCatalogue| == |AuthMembers|
    ensures forall i | 0 <= i < |AuthCatalogue| :: AuthCatalogue[i].code == "AuthErrors." + AuthMembers[i]
    ensures forall i, j | 0 <= i < j < |AuthCatalogue| :: AuthCatalogue[i].code != AuthCatalogue[j].code
  {
    forall i, j | 0 <= i < j < |AuthCatalogue|
      ensures AuthCatalogue[i].code != AuthCatalogue[j].code
    {
      if AuthCatalogue[i].code == AuthCatalogue[j].code {
        PrefixCancels("AuthErrors.", AuthMembers[i], AuthMembers[j]);
      }
    }
  }

  /** UserErrors: each code is "UserErrors." + its member name, and no two codes coincide. */
  lemma UserCodesDistinct()
    ensures |UserCatalogue| == |UserMembers|
    ensures forall i | 0 <= i < |UserCatalogue| :: UserCatalogue[i].code == "UserErrors." + UserMembers[i]
    ensures forall i, j | 0 <= i < j < |UserCatalogue| :: UserCatalogue[i].code != UserCatalogue[j].code
  {
    forall i, j | 0 <= i < j < |UserCatalogue|
      ensures UserCatalogue[i].code != UserCatalogue[j].code
    {
      if UserCatalogue[i].code == UserCatalogue[j].code {
        PrefixCancels("UserErrors.", UserMembers[i], UserMembers[j]);
      }
    }
  }
}
