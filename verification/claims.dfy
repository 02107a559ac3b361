/**
 * Claims and the authenticated principal, as the services see them: a claim
 * is a (type, value) pair, a principal is an authentication flag with an
 * ordered claim list, and `FindFirst` / `FindAll` are the two lookups the
 * services use. Building a claim from a null value throws, which the claim
 * builders below report as `Threw(NullArgument)`.
 */
module Claims {
  import opened Kernel
  import opened Text

  /** The claim types the services use: IdentityModel's `JwtClaimTypes` and .NET's `ClaimTypes`. */
  datatype ClaimType =
    | JwtSubject | JwtName | JwtEmail | JwtPhoneNumber | JwtBirthDate
    | JwtFamilyName | JwtGivenName | JwtGender | JwtRoles
    | NameIdentifier | EmailAddress | DateOfBirth | Surname | GivenName | Gender | Role
  {
    /** The claim type's wire name. */
    function Uri(): string {
      match this
      case JwtSubject => "sub"
      case JwtName => "name"
      case JwtEmail => "email"
      case JwtPhoneNumber => "phone_number"
      case JwtBirthDate => "birthdate"
      case JwtFamilyName => "family_name"
      case JwtGivenName => "given_name"
      case JwtGender => "gender"
      case JwtRoles => "role"
      case NameIdentifier => "http://schemas.xmlsoap.org/ws/2005/05/identity/claims/nameidentifier"
      case EmailAddress => "http://schemas.xmlsoap.org/ws/2005/05/identity/claims/emailaddress"
      case DateOfBirth => "http://schemas.xmlsoap.org/ws/2005/05/identity/claims/dateofbirth"
      case Surname => "http://schemas.xmlsoap.org/ws/2005/05/identity/claims/surname"
      case GivenName => "http://schemas.xmlsoap.org/ws/2005/05/identity/claims/givenname"
      case Gender => "http://schemas.xmlsoap.org/ws/2005/05/identity/claims/gender"
      case Role => "http://schemas.microsoft.com/ws/2008/06/identity/claims/role"
    }
  }

  datatype Claim = Claim(kind: ClaimType, value: string)

  /** `HttpContext.User`: whether its identity is authenticated, and its claims in order. */
  datatype Principal = Principal(authenticated: bool, claims: seq<Claim>)

  /** A computation that either completes with a value or throws. */
  datatype Attempt<+T> = Done(value: T) | Threw(exception: Exception)

  /** `principal.FindFirst(kind)?.Value`: the value of the first claim of that type. */
  function FindFirst(claims: seq<Claim>, kind: ClaimType): (v: Option<string>)
    ensures v.None? <==> forall i | 0 <= i < |claims| :: claims[i].kind != kind
    ensures v.Some? ==> Claim(kind, v.value) in claims
  {
    if claims == [] then None
    else if claims[0].kind == kind then Some(claims[0].value)
    else
      var v := FindFirst(claims[1..], kind);
      assert forall i | 1 <= i < |claims| :: claims[i] == claims[1..][i - 1];
      v
  }

  /** The value found is the one of the first claim of that type. */
  lemma {:induction false} FindFirstIsFirst(claims: seq<Claim>, kind: ClaimType, i: nat)
    requires i < |claims| && claims[i].kind == kind
    requires forall j | 0 <= j < i :: claims[j].kind != kind
    ensures FindFirst(claims, kind) == Some(claims[i].value)
    decreases i
  {
    if i > 0 {
      FindFirstIsFirst(claims[1..], kind, i - 1);
    }
  }

  /** `principal.FindAll(kind).Select(c => c.Value)`: every value of that type, in claim order. */
  function FindAll(claims: seq<Claim>, kind: ClaimType): (vs: seq<string>)
    ensures |vs| <= |claims|
    ensures forall v :: v in vs <==> Claim(kind, v) in claims
  {
    if claims == [] then []
    else
      var rest := FindAll(claims[1..], kind);
      assert forall c :: c in claims <==> c == claims[0] || c in claims[1..];
      if claims[0].kind == kind then [claims[0].value] + rest else rest
  }

  /** The values found in a concatenation are those of each part, in order. */
  lemma {:induction false} FindAllAppend(a: seq<Claim>, b: seq<Claim>, kind: ClaimType)
    ensures FindAll(a + b, kind) == FindAll(a, kind) + FindAll(b, kind)
  {
    if a == [] {
      assert a + b == b;
    } else {
      assert (a + b)[1..] == a[1..] + b;
      FindAllAppend(a[1..], b, kind);
    }
  }

  /**
   * One claim contributes its value exactly when it has the type; with
   * `FindAllAppend` this fixes the list: every matching value, duplicates
   * included, in claim order.
   */
  lemma FindAllOfOne(c: Claim, kind: ClaimType)
    ensures FindAll([c], kind) == if c.kind == kind then [c.value] else []
  {
  }

  /**
   * `new List<Claim> { new Claim(t1, v1), ... }`: each value is either a
   * string or null, and the `Claim` constructor throws on a null value.
   */
  function BuildClaims(entries: seq<(ClaimType, Option<string>)>): (r: Attempt<seq<Claim>>)
    ensures r.Threw? <==> exists i | 0 <= i < |entries| :: entries[i].1.None?
    ensures r.Threw? ==> r.exception == NullArgument
    ensures r.Done? ==> |r.value| == |entries|
    ensures r.Done? ==> forall i | 0 <= i < |entries| :: r.value[i] == Claim(entries[i].0, entries[i].1.value)
  {
    if entries == [] then Done([])
    else if entries[0].1.None? then Threw(NullArgument)
    else
      var rest := BuildClaims(entries[1..]);
      assert forall i | 1 <= i < |entries| :: entries[i] == entries[1..][i - 1];
      if rest.Threw? then rest
      else Done([Claim(entries[0].0, entries[0].1.value)] + rest.value)
  }

  /** One claim of type `kind` per value, in order. */
  function ClaimsOfKind(kind: ClaimType, values: seq<string>): (cs: seq<Claim>)
    ensures |cs| == |values|
    ensures forall i | 0 <= i < |values| :: cs[i] == Claim(kind, values[i])
  {
    seq(|values|, i requires 0 <= i < |values| => Claim(kind, values[i]))
  }

  /** Listing the values of `ClaimsOfKind` gives the values back. */
  lemma {:induction false} FindAllClaimsOfKind(kind: ClaimType, values: seq<string>)
    ensures FindAll(ClaimsOfKind(kind, values), kind) == values
    decreases |values|
  {
    if values != [] {
      var cs := ClaimsOfKind(kind, values);
      assert cs[1..] == ClaimsOfKind(kind, values[1..]);
      FindAllClaimsOfKind(kind, values[1..]);
      assert values == [values[0]] + values[1..];
    }
  }

  // Boolean.ToString and Boolean.Parse.

  /** `bool.ToString()`. */
  function BoolText(b: bool): string {
    if b then "True" else "False"
  }

  /** The characters `Boolean.Parse` strips from both ends: white space and NUL. */
  predicate IsPadding(c: char) {
    IsWhiteSpace(c) || c == '\0'
  }

  function TrimStart(s: string): (t: string)
    ensures |t| <= |s| && t == s[|s| - |t|..]
    ensures t == [] || !IsPadding(t[0])
    ensures forall i | 0 <= i < |s| - |t| :: IsPadding(s[i])
  {
    if s == [] || !IsPadding(s[0]) then s
    else
      var t := TrimStart(s[1..]);
      assert forall i | 1 <= i < |s| - |t| :: s[i] == s[1..][i - 1];
      t
  }

  function TrimEnd(s: string): (t: string)
    ensures |t| <= |s| && t == s[..|t|]
    ensures t == [] || !IsPadding(t[|t| - 1])
    ensures forall i | |t| <= i < |s| :: IsPadding(s[i])
  {
    if s == [] || !IsPadding(s[|s| - 1]) then s
    else TrimEnd(s[..|s| - 1])
  }

  /** Padding removed from both ends. */
  function Trim(s: string): string {
    TrimEnd(TrimStart(s))
  }

  /** ASCII upper-casing, the case folding that matters for "True" and "False". */
  function Upper(c: char): char {
    if 'a' <= c <= 'z' then (c as int - 32) as char else c
  }

  predicate EqualsIgnoreCase(a: string, b: string) {
    |a| == |b| && forall i | 0 <= i < |a| :: Upper(a[i]) == Upper(b[i])
  }

  /**
   * `Boolean.Parse`: "True" or "False" in any letter case, with padding
   * allowed on either side; anything else throws a FormatException (`None`).
   */
  function ParseBool(s: string): (r: Option<bool>)
    ensures r == Some(true) <==> EqualsIgnoreCase(Trim(s), "True")
    ensures r == Some(false) <==> EqualsIgnoreCase(Trim(s), "False")
  {
    var t := Trim(s);
    assert EqualsIgnoreCase(t, "True") ==> !EqualsIgnoreCase(t, "False");
    if EqualsIgnoreCase(t, "True") then Some(true)
    else if EqualsIgnoreCase(t, "False") then Some(false)
    else None
  }

  /** `Boolean.Parse(b.ToString())` gives `b` back. */
  lemma ParseBoolRoundTrip(b: bool)
    ensures ParseBool(BoolText(b)) == Some(b)
  {
    ParseBoolIgnoresCaseAndPadding(b, BoolText(b), [], []);
    assert [] + BoolText(b) + [] == BoolText(b);
  }

  /** Letter case and surrounding padding do not change the parsed value. */
  lemma ParseBoolIgnoresCaseAndPadding(b: bool, s: string, left: string, right: string)
    requires EqualsIgnoreCase(s, BoolText(b))
    requires forall i | 0 <= i < |left| :: IsPadding(left[i])
    requires forall i | 0 <= i < |right| :: IsPadding(right[i])
    ensures ParseBool(left + s + right) == Some(b)
  {
    var text := BoolText(b);
    assert Upper(s[0]) == Upper(text[0]) && Upper(s[|s| - 1]) == Upper(text[|text| - 1]);
    LettersAreNotPadding(s[0]);
    LettersAreNotPadding(s[|s| - 1]);
    TrimsPadding(left, s, right);
  }

  /** A character that upper-cases to an ASCII capital is not padding. */
  lemma LettersAreNotPadding(c: char)
    requires 'A' <= Upper(c) <= 'Z'
    ensures !IsPadding(c)
  {
  }

  /** Trimming removes exactly the padding around a text that neither starts nor ends with padding. */
  lemma TrimsPadding(left: string, s: string, right: string)
    requires forall i | 0 <= i < |left| :: IsPadding(left[i])
    requires forall i | 0 <= i < |right| :: IsPadding(right[i])
    requires s != [] && !IsPadding(s[0]) && !IsPadding(s[|s| - 1])
    ensures Trim(left + s + right) == s
  {
    var whole := left + s + right;
    assert whole == left + (s + right);
    StripsLeft(left, s + right);
    assert TrimStart(whole) == s + right;
    StripsRight(s, right);
    assert Trim(whole) == TrimEnd(s + right);
  }

  lemma {:induction false} StripsLeft(left: string, rest: string)
    requires forall i | 0 <= i < |left| :: IsPadding(left[i])
    requires rest != [] && !IsPadding(rest[0])
    ensures TrimStart(left + rest) == rest
    decreases |left|
  {
    var s := left + rest;
    if left == [] {
      assert s == rest;
    } else {
      assert s[0] == left[0] && IsPadding(s[0]);
      assert s[1..] == left[1..] + rest;
      StripsLeft(left[1..], rest);
      assert TrimStart(s) == TrimStart(s[1..]);
    }
  }

  lemma {:induction false} StripsRight(s: string, right: string)
    requires forall i | 0 <= i < |right| :: IsPadding(right[i])
    requires s != [] && !IsPadding(s[|s| - 1])
    ensures TrimEnd(s + right) == s
    decreases |right|
  {
    if right != [] {
      var last := |right| - 1;
      assert (s + right)[..|s + right| - 1] == s + right[..last];
      StripsRight(s, right[..last]);
    } else {
      assert s + right == s;
    }
  }
}
