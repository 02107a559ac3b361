/**
 * Character classes and the three regular expressions used by the request
 * validators, each given twice: as a predicate that reads the pattern the way
 * the .NET engine does, and as a hand-written scanning matcher proved equal to
 * it. Digits and letters are ASCII (`\d` is narrowed from Unicode digits).
 *
 * Without `RegexOptions.Multiline` the .NET anchor `$` matches at the very end
 * of the input or just before a final '\n', so every pattern here also
 * accepts its body followed by one trailing newline.
 */
module Text {
  import opened Kernel

  /** `char.IsWhiteSpace`: the Unicode White_Space characters. */
  predicate IsWhiteSpace(c: char) {
    || ('\t' <= c <= '\r')
    || c == ' ' || c == '\U{0085}' || c == '\U{00A0}' || c == '\U{1680}'
    || ('\U{2000}' <= c <= '\U{200A}')
    || c == '\U{2028}' || c == '\U{2029}' || c == '\U{202F}' || c == '\U{205F}' || c == '\U{3000}'
  }

  /** A non-null string that `string.IsNullOrWhiteSpace` accepts: empty or only white space. */
  predicate IsBlank(s: string) {
    forall i | 0 <= i < |s| :: IsWhiteSpace(s[i])
  }

  /** `string.IsNullOrWhiteSpace`. */
  predicate IsNullOrWhiteSpace(s: Option<string>) {
    s.None? || IsBlank(s.value)
  }

  /** `string.IsNullOrEmpty`. */
  predicate IsNullOrEmpty(s: Option<string>) {
    s.None? || s.value == []
  }

  predicate IsDigit(c: char) {
    '0' <= c <= '9'
  }

  predicate IsNonZeroDigit(c: char) {
    '1' <= c <= '9'
  }

  predicate IsLetter(c: char) {
    ('a' <= c <= 'z') || ('A' <= c <= 'Z')
  }

  predicate AllDigits(s: string) {
    forall i | 0 <= i < |s| :: IsDigit(s[i])
  }

  predicate AllLetters(s: string) {
    forall i | 0 <= i < |s| :: IsLetter(s[i])
  }

  predicate EndsWithNewline(s: string) {
    |s| > 0 && s[|s| - 1] == '\n'
  }

  /** A run of between `lo` and `hi` digits: `\d{lo,hi}`. */
  predicate DigitRun(t: string, lo: nat, hi: nat) {
    lo <= |t| <= hi && AllDigits(t)
  }

  /** The body of `^\+?\d{10,15}$`. */
  predicate RegisterPhoneBody(t: string) {
    DigitRun(t, 10, 15) || (|t| > 0 && t[0] == '+' && DigitRun(t[1..], 10, 15))
  }

  /** `^\+?\d{10,15}$`, the registration phone-number pattern. */
  predicate RegisterPhonePattern(s: string) {
    RegisterPhoneBody(s) || (EndsWithNewline(s) && RegisterPhoneBody(s[..|s| - 1]))
  }

  /** The body of `^[a-zA-Z]+$`. */
  predicate LettersBody(t: string) {
    |t| >= 1 && AllLetters(t)
  }

  /** `^[a-zA-Z]+$`, the name pattern. */
  predicate LettersPattern(s: string) {
    LettersBody(s) || (EndsWithNewline(s) && LettersBody(s[..|s| - 1]))
  }

  /** `[1-9]\d{1,14}`: 2 to 15 digits, the first one not zero. */
  predicate E164Digits(t: string) {
    2 <= |t| <= 15 && IsNonZeroDigit(t[0]) && AllDigits(t[1..])
  }

  /** The body of `^\+?[1-9]\d{1,14}$`. */
  predicate E164Body(t: string) {
    E164Digits(t) || (|t| > 0 && t[0] == '+' && E164Digits(t[1..]))
  }

  /** `^\+?[1-9]\d{1,14}$`, the E.164 pattern of profile updates. */
  predicate E164Pattern(s: string) {
    E164Body(s) || (EndsWithNewline(s) && E164Body(s[..|s| - 1]))
  }

  /** Advances from `from` over characters that `accept` admits; stops at the first one it rejects. */
  method ScanWhile(s: string, from: nat, accept: char -> bool) returns (end: nat)
    requires from <= |s|
    ensures from <= end <= |s|
    ensures forall i | from <= i < end :: accept(s[i])
    ensures end == |s| || !accept(s[end])
  {
    end := from;
    while end < |s| && accept(s[end])
      invariant from <= end <= |s|
      invariant forall i | from <= i < end :: accept(s[i])
    {
      end := end + 1;
    }
  }

  /** Drops one trailing newline, the only text `$` may leave unmatched. */
  function Anchored(s: string): (t: string)
    ensures EndsWithNewline(s) ==> t == s[..|s| - 1]
    ensures !EndsWithNewline(s) ==> t == s
  {
    if EndsWithNewline(s) then s[..|s| - 1] else s
  }

  /** The matcher for `^\+?\d{10,15}$`. */
  method MatchRegisterPhone(s: string) returns (ok: bool)
    ensures ok <==> RegisterPhonePattern(s)
  {
    var t := Anchored(s);
    var start := if |t| > 0 && t[0] == '+' then 1 else 0;
    var end := ScanWhile(t, start, IsDigit);
    ok := end == |t| && 10 <= end - start <= 15;
    if EndsWithNewline(s) {
      assert !IsDigit(s[|s| - 1]) && !RegisterPhoneBody(s);
    }
    if ok {
      assert t[start..] == t[start..end];
    } else if end < |t| {
      assert !AllDigits(t[start..]) by { assert t[start..][end - start] == t[end]; }
    }
  }

  /** The matcher for `^[a-zA-Z]+$`. */
  method MatchLetters(s: string) returns (ok: bool)
    ensures ok <==> LettersPattern(s)
  {
    var t := Anchored(s);
    var end := ScanWhile(t, 0, IsLetter);
    ok := end == |t| && end >= 1;
    if EndsWithNewline(s) {
      assert !IsLetter(s[|s| - 1]) && !LettersBody(s);
    }
  }

  /** The matcher for `^\+?[1-9]\d{1,14}$`. */
  method MatchE164(s: string) returns (ok: bool)
    ensures ok <==> E164Pattern(s)
  {
    var t := Anchored(s);
    var start := if |t| > 0 && t[0] == '+' then 1 else 0;
    if start < |t| && IsNonZeroDigit(t[start]) {
      var end := ScanWhile(t, start + 1, IsDigit);
      ok := end == |t| && 2 <= end - start <= 15;
      if ok {
        assert t[start..][1..] == t[start + 1..end];
      } else if end < |t| {
        assert !AllDigits(t[start..][1..]) by { assert t[start..][1..][end - start - 1] == t[end]; }
      }
    } else {
      ok := false;
    }
    if EndsWithNewline(s) {
      assert !IsDigit(s[|s| - 1]) && !E164Body(s);
    }
  }

  /** A trailing newline slips past every anchored pattern. */
  lemma TrailingNewlineAccepted(t: string)
    ensures RegisterPhoneBody(t) ==> RegisterPhonePattern(t + "\n")
    ensures LettersBody(t) ==> LettersPattern(t + "\n")
    ensures E164Body(t) ==> E164Pattern(t + "\n")
  {
    assert (t + "\n")[..|t|] == t;
  }
}
