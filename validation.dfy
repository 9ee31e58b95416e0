/**
 * The submission form's field checks (user.js): the reporter name may hold
 * only letters and white space, the contact only digits and exactly ten of
 * them, and submitting is enabled only when every check passes.
 */
module Validation {
  import opened Options
  import opened JsText

  /** A character of the class `[a-zA-Z\s]`. */
  predicate IsNameChar(c: char) {
    IsAsciiLetter(c) || IsSpace(c)
  }

  /** `/^[a-zA-Z\s]*$/.test(s)` */
  function MatchesName(s: string): bool {
    s == [] || (IsNameChar(s[0]) && MatchesName(s[1..]))
  }

  /** `/^[0-9]*$/.test(s)` */
  function MatchesDigits(s: string): bool {
    s == [] || (IsDigit(s[0]) && MatchesDigits(s[1..]))
  }

  /** The name pattern accepts exactly the strings made only of letters and white space. */
  lemma {:induction false} MatchesNameIff(s: string)
    ensures MatchesName(s) <==> forall i :: 0 <= i < |s| ==> IsNameChar(s[i])
  {
    if s != [] {
      MatchesNameIff(s[1..]);
      assert forall i :: 1 <= i < |s| ==> s[i] == s[1..][i - 1];
    }
  }

  /** The digit pattern accepts exactly the strings made only of decimal digits. */
  lemma {:induction false} MatchesDigitsIff(s: string)
    ensures MatchesDigits(s) <==> forall i :: 0 <= i < |s| ==> IsDigit(s[i])
  {
    if s != [] {
      MatchesDigitsIff(s[1..]);
      assert forall i :: 1 <= i < |s| ==> s[i] == s[1..][i - 1];
    }
  }

  /**
   * `validateAlphabetsOnly`: whether the name field is marked as an error.
   * The empty name is never an error.
   */
  function NameHasError(value: string): (error: bool)
    ensures error <==> exists i :: 0 <= i < |value| && !IsNameChar(value[i])
  {
    MatchesNameIff(value);
    !MatchesName(value) && value != ""
  }

  const NUMBERS_ONLY := "Please enter numbers only"
  const EXACTLY_TEN_DIGITS := "Phone number must be exactly 10 digits"

  /** `validateNumbersOnly`: the message shown under the contact field, if any. */
  function ContactError(value: string): (error: Option<string>)
    ensures (exists i :: 0 <= i < |value| && !IsDigit(value[i])) ==> error == Some(NUMBERS_ONLY)
    ensures (forall i :: 0 <= i < |value| ==> IsDigit(value[i])) && |value| != 0 && |value| != 10
            ==> error == Some(EXACTLY_TEN_DIGITS)
    ensures error.None? <==> value == "" || (|value| == 10 && forall i :: 0 <= i < |value| ==> IsDigit(value[i]))
  {
    MatchesDigitsIff(value);
    if !MatchesDigits(value) then Some(NUMBERS_ONLY)
    else if |value| > 0 && |value| != 10 then Some(EXACTLY_TEN_DIGITS)
    else None
  }

  /**
   * `checkFormValidity`: the submit button is enabled when neither field is
   * marked as an error, the contact is ten characters long, the photo was
   * marked GPS-valid and the browser finds every required field filled. The
   * error marks are those the two validators last set, on the current values.
   */
  function SubmitEnabled(name: string, contact: string, photoGpsValid: bool, formComplete: bool): (enabled: bool)
    ensures enabled <==>
      && (forall i :: 0 <= i < |name| ==> IsNameChar(name[i]))
      && |contact| == 10 && (forall i :: 0 <= i < |contact| ==> IsDigit(contact[i]))
      && photoGpsValid && formComplete
  {
    var nameValid := !NameHasError(name);
    var contactValid := ContactError(contact).None? && |contact| == 10;
    nameValid && contactValid && photoGpsValid && formComplete
  }
}
