/**
 * The validation rules on the credentials body of Register and Login: each
 * field is required, and each must match a regular expression of the form
 * ^[class]{lo,hi}$ over the whole value.
 */
module Credentials {
  import opened Models

  predicate IsAsciiLetterOrDigit(c: char) {
    'a' <= c <= 'z' || 'A' <= c <= 'Z' || '0' <= c <= '9'
  }

  /** The class [a-zA-Z0-9&^!@#] of the password rule. */
  predicate IsPasswordChar(c: char) {
    IsAsciiLetterOrDigit(c) || c == '&' || c == '^' || c == '!' || c == '@' || c == '#'
  }

  /** The white-space characters that make a required string count as blank. */
  predicate IsWhiteSpace(c: char) {
    c == ' ' || c == '\t' || c == '\n' || c == '\r' || c == '\U{B}' || c == '\U{C}'
    || c == '\U{85}' || c == '\U{A0}'
  }

  predicate IsBlank(s: string) {
    forall i :: 0 <= i < |s| ==> IsWhiteSpace(s[i])
  }

  /**
   * The matcher of ^[cls]{lo,hi}$ against the whole of s: it consumes one
   * character at a time, each of which must be in the class, counting the
   * lower and upper repetition bounds down.
   */
  function MatchesRepeat(s: string, cls: char -> bool, lo: int, hi: int): bool
    decreases |s|
  {
    if |s| == 0 then lo <= 0 && 0 <= hi
    else hi >= 1 && cls(s[0]) && MatchesRepeat(s[1..], cls, lo - 1, hi - 1)
  }

  /** [Required]: the value is present and not made of white space only. */
  predicate RequiredHolds(v: Option<string>) {
    v.Some? && !IsBlank(v.value)
  }

  /** [RegularExpression]: an absent or empty value passes; any other must match in full. */
  predicate PatternHolds(v: Option<string>, cls: char -> bool, lo: int, hi: int) {
    v.None? || v.value == "" || MatchesRepeat(v.value, cls, lo, hi)
  }

  /** The username rule: required and ^[a-zA-Z0-9]{3,20}$. */
  predicate UsernameValid(v: Option<string>) {
    RequiredHolds(v) && PatternHolds(v, IsAsciiLetterOrDigit, 3, 20)
  }

  /** The password rule: required and ^[a-zA-Z0-9&^!@#]{4,20}$. */
  predicate PasswordValid(v: Option<string>) {
    RequiredHolds(v) && PatternHolds(v, IsPasswordChar, 4, 20)
  }

  /** A request body that passes model validation. */
  predicate CredentialsValid(info: UserPass) {
    UsernameValid(info.username) && PasswordValid(info.password)
  }

  /** The repetition matcher accepts exactly the strings of the right length made of class characters. */
  lemma {:induction false} MatchesRepeatIff(s: string, cls: char -> bool, lo: int, hi: int)
    ensures MatchesRepeat(s, cls, lo, hi) <==>
      lo <= |s| <= hi && forall i :: 0 <= i < |s| ==> cls(s[i])
    decreases |s|
  {
    if |s| > 0 {
      MatchesRepeatIff(s[1..], cls, lo - 1, hi - 1);
      if forall i :: 0 <= i < |s| ==> cls(s[i]) {
        assert forall i :: 0 <= i < |s| - 1 ==> cls(s[1..][i]) by {
          forall i | 0 <= i < |s| - 1 ensures cls(s[1..][i]) {
            assert s[1..][i] == s[i + 1];
          }
        }
      }
      if cls(s[0]) && forall i :: 0 <= i < |s| - 1 ==> cls(s[1..][i]) {
        forall i | 0 <= i < |s| ensures cls(s[i]) {
          if i > 0 {
            assert s[i] == s[1..][i - 1];
          }
        }
      }
    }
  }

  /** A non-empty string of class characters is not blank, when no class character is white space. */
  lemma NotBlank(s: string, cls: char -> bool)
    requires |s| > 0 && forall i :: 0 <= i < |s| ==> cls(s[i])
    requires forall c :: cls(c) ==> !IsWhiteSpace(c)
    ensures !IsBlank(s)
  {
    assert cls(s[0]);
  }

  /** The username rule, stated outright: 3 to 20 characters, each an ASCII letter or digit. */
  lemma UsernameValidIff(v: Option<string>)
    ensures UsernameValid(v) <==>
      v.Some? && 3 <= |v.value| <= 20 && forall i :: 0 <= i < |v.value| ==> IsAsciiLetterOrDigit(v.value[i])
  {
    if v.Some? {
      MatchesRepeatIff(v.value, IsAsciiLetterOrDigit, 3, 20);
      if 3 <= |v.value| && forall i :: 0 <= i < |v.value| ==> IsAsciiLetterOrDigit(v.value[i]) {
        NotBlank(v.value, IsAsciiLetterOrDigit);
      }
    }
  }

  /** The password rule, stated outright: 4 to 20 characters, each a letter, a digit or one of & ^ ! @ #. */
  lemma PasswordValidIff(v: Option<string>)
    ensures PasswordValid(v) <==>
      v.Some? && 4 <= |v.value| <= 20 && forall i :: 0 <= i < |v.value| ==> IsPasswordChar(v.value[i])
  {
    if v.Some? {
      MatchesRepeatIff(v.value, IsPasswordChar, 4, 20);
      if 4 <= |v.value| && forall i :: 0 <= i < |v.value| ==> IsPasswordChar(v.value[i]) {
        NotBlank(v.value, IsPasswordChar);
      }
    }
  }

  /** Both fields are required: a missing or empty value is refused by either rule. */
  lemma MissingOrEmptyRejected()
    ensures !UsernameValid(None) && !UsernameValid(Some(""))
    ensures !PasswordValid(None) && !PasswordValid(Some(""))
  {
  }
}
