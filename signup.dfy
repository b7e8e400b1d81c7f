/**
 * The sign-up form's password checklist: three requirements, always in the
 * same order, each met or not on its own, shown only once something has been
 * typed.
 *
 * `password.length` in JavaScript counts UTF-16 code units, so a character
 * outside the Basic Multilingual Plane counts twice; `Utf16Length` says so.
 * The two regular expressions have no `u` flag and test code units, but no
 * surrogate code unit lies in `A-Z` or `0-9`, so testing characters gives the
 * same answer.
 */
module Signup {

  /** `s.length`: one unit per character, two for a character above U+FFFF. */
  function Utf16Length(s: string): (n: nat)
    ensures |s| <= n <= 2 * |s|
    ensures (forall i :: 0 <= i < |s| ==> s[i] as int <= 0xFFFF) ==> n == |s|
  {
    if s == [] then 0 else (if s[0] as int > 0xFFFF then 2 else 1) + Utf16Length(s[1..])
  }

  /** The length of a concatenation is the sum of the lengths. */
  lemma {:induction false} Utf16LengthAppend(a: string, b: string)
    ensures Utf16Length(a + b) == Utf16Length(a) + Utf16Length(b)
    decreases |a|
  {
    if a == [] {
      assert a + b == b;
    } else {
      assert (a + b)[1..] == a[1..] + b;
      Utf16LengthAppend(a[1..], b);
    }
  }

  /** `/[lo-hi]/.test(s)`: some character of `s` lies in the range. */
  function HasCharIn(s: string, lo: char, hi: char): (found: bool)
    ensures found <==> exists i :: 0 <= i < |s| && lo <= s[i] <= hi
  {
    if s == [] then false
    else if lo <= s[0] <= hi then true
    else
      var found := HasCharIn(s[1..], lo, hi);
      assert found ==> exists i :: 0 <= i < |s| && lo <= s[i] <= hi by {
        if found {
          var i :| 0 <= i < |s[1..]| && lo <= s[1..][i] <= hi;
          assert s[i + 1] == s[1..][i];
        }
      }
      assert (exists i :: 0 <= i < |s| && lo <= s[i] <= hi) ==> found by {
        if exists i :: 0 <= i < |s| && lo <= s[i] <= hi {
          var i :| 0 <= i < |s| && lo <= s[i] <= hi;
          assert i > 0 && s[1..][i - 1] == s[i];
        }
      }
      found
  }

  /** One line of the checklist. */
  datatype Requirement = Requirement(text: string, met: bool)

  const LengthText: string := "At least 8 characters"
  const UppercaseText: string := "One uppercase letter"
  const DigitText: string := "One number"

  /** `passwordRequirements`: length, then ASCII capital, then ASCII digit. */
  function PasswordRequirements(password: string): (reqs: seq<Requirement>)
    ensures |reqs| == 3
    ensures reqs[0].text == LengthText && reqs[1].text == UppercaseText && reqs[2].text == DigitText
    ensures reqs[0].met <==> Utf16Length(password) >= 8
    ensures reqs[1].met <==> exists i :: 0 <= i < |password| && 'A' <= password[i] <= 'Z'
    ensures reqs[2].met <==> exists i :: 0 <= i < |password| && '0' <= password[i] <= '9'
  {
    [ Requirement(LengthText, Utf16Length(password) >= 8),
      Requirement(UppercaseText, HasCharIn(password, 'A', 'Z')),
      Requirement(DigitText, HasCharIn(password, '0', '9')) ]
  }

  /** `{password && ...}`: a string is truthy exactly when its `length` is not zero, so the checklist shows once something has been typed. */
  predicate ShowsChecklist(password: string)
    ensures ShowsChecklist(password) <==> Utf16Length(password) > 0
  {
    password != ""
  }

  /** The empty password, for which the checklist is hidden, meets none of the three. */
  lemma EmptyPasswordMeetsNone()
    ensures !ShowsChecklist("")
    ensures forall k :: 0 <= k < 3 ==> !PasswordRequirements("")[k].met
  {
  }

  /** For text without characters above U+FFFF the length requirement is "at least 8 characters" exactly. */
  lemma LengthCountsCharacters(password: string)
    requires forall i :: 0 <= i < |password| ==> password[i] as int <= 0xFFFF
    ensures PasswordRequirements(password)[0].met <==> |password| >= 8
  {
  }

  /** Four emoji are eight UTF-16 units, so they satisfy the length requirement. */
  lemma AstralCharactersCountTwice()
    ensures PasswordRequirements("\U{1F600}\U{1F600}\U{1F600}\U{1F600}")[0].met
  {
  }

  /** Capitals outside A-Z do not satisfy the uppercase requirement. */
  lemma AccentedCapitalDoesNotCount()
    ensures !PasswordRequirements("Élève42")[1].met
  {
    var p := "Élève42";
    assert forall i :: 0 <= i < |p| ==> !('A' <= p[i] <= 'Z');
  }

  /** Typing more never un-meets a requirement: each test only looks for something being present. */
  lemma RequirementsMonotone(password: string, more: string)
    ensures forall k :: 0 <= k < 3 && PasswordRequirements(password)[k].met ==> PasswordRequirements(password + more)[k].met
  {
    Utf16LengthAppend(password, more);
    var longer := password + more;
    forall i | 0 <= i < |password|
      ensures longer[i] == password[i]
    {
    }
  }
}
