/** The accounts page script (accounts/static/accounts/js/accounts.js): the
    password strength meter, the live password requirements and the submit
    checks of the login, registration, profile and password-change forms.
    `MedApp.isValidEmail` is not part of this model; its verdict on the
    entered email is a parameter. A page field is an entry of `fields` when
    its element is on the page. */
module AccountPages {
  import opened Base
  import opened PageForms

  // ---------------------------------------------------------------------
  // `checkPasswordStrength`

  /** The character class `[!@#$%^&*()_+\-=\[\]{};':"\\|,.<>\/?]`. */
  const SpecialChars: string := "!@#$%^&*()_+-=[]{};':\"\\|,.<>/?"

  predicate HasLetter(p: string) { exists i :: 0 <= i < |p| && IsLetter(p[i]) }
  predicate HasDigit(p: string) { exists i :: 0 <= i < |p| && IsDigit(p[i]) }
  predicate HasSpecial(p: string) { exists i :: 0 <= i < |p| && p[i] in SpecialChars }

  /** JavaScript's `length` of a string: UTF-16 code units, so a code point
      above U+FFFF (a surrogate pair) counts two. */
  function Utf16Length(s: string): (n: nat)
    ensures |s| <= n <= 2 * |s|
    ensures n == |s| <==> forall i :: 0 <= i < |s| ==> s[i] as int <= 0xFFFF
  {
    if s == [] then 0
    else
      var rest := Utf16Length(s[1..]);
      assert forall i :: 1 <= i < |s| ==> s[i] == s[1..][i - 1];
      (if s[0] as int > 0xFFFF then 2 else 1) + rest
  }

  /** Six letters and one emoji: seven characters, eight UTF-16 units. */
  const EmojiPassword: string := "abcdef\U{1F600}"

  lemma EmojiLength()
    ensures |EmojiPassword| == 7 && Utf16Length(EmojiPassword) == 8
  {
    var p := EmojiPassword;
    assert p[6..] == ['\U{1F600}'] && Utf16Length(p[6..]) == 2;
    assert p[5..][1..] == p[6..] && p[4..][1..] == p[5..] && p[3..][1..] == p[4..];
    assert p[2..][1..] == p[3..] && p[1..][1..] == p[2..] && p[0..][1..] == p[1..];
    assert p[0..] == p;
  }

  /** A letter or a character outside ASCII is neither a digit nor one of
      the special characters. */
  lemma PlainChar(c: char)
    requires IsLetter(c) || c as int > 0x7F
    ensures !IsDigit(c) && c !in SpecialChars
  {
  }

  lemma EmojiChecks()
    ensures PasswordChecks(EmojiPassword) == Checks(true, true, false, false)
  {
    var p := EmojiPassword;
    EmojiLength();
    assert IsLetter(p[0]);
    forall i | 0 <= i < |p| ensures !IsDigit(p[i]) && p[i] !in SpecialChars {
      assert i < 6 ==> IsLetter(p[i]);
      PlainChar(p[i]);
    }
  }

  /** Eight UTF-16 units need not be eight characters: the emoji password
      passes the length check and scores "fair". */
  lemma EmojiCountsTwo()
    ensures CheckPasswordStrength(EmojiPassword).score == 2
    ensures CheckPasswordStrength(EmojiPassword).strength == Fair
  {
    EmojiChecks();
  }

  datatype Checks = Checks(length: bool, letter: bool, number: bool, special: bool)

  datatype Strength = Weak | Fair | Good | Strong

  datatype StrengthReport = StrengthReport(score: nat, checks: Checks, strength: Strength)

  function PasswordChecks(p: string): Checks {
    Checks(Utf16Length(p) >= 8, HasLetter(p), HasDigit(p), HasSpecial(p))
  }

  /** `Object.values(checks).filter(Boolean).length` */
  function Score(c: Checks): (n: nat)
    ensures n <= 4
    ensures n == Indicator(c.length) + Indicator(c.letter) + Indicator(c.number) + Indicator(c.special)
  {
    var values := [c.length, c.letter, c.number, c.special];
    var p := (b: bool) => b;
    var v1, v2, v3 := values[1..], values[1..][1..], values[1..][1..][1..];
    assert v1 == [c.letter, c.number, c.special] && v2 == [c.number, c.special] && v3 == [c.special];
    assert v3[1..] == [];
    assert Count(v3, p) == Indicator(c.special);
    assert Count(v2, p) == Indicator(c.number) + Count(v3, p);
    assert Count(v1, p) == Indicator(c.letter) + Count(v2, p);
    assert Count(values, p) == Indicator(c.length) + Count(v1, p);
    Count(values, p)
  }

  function StrengthOf(score: nat): Strength {
    if score <= 1 then Weak else if score <= 2 then Fair else if score <= 3 then Good else Strong
  }

  function CheckPasswordStrength(p: string): (r: StrengthReport)
    ensures r.checks == PasswordChecks(p) && r.score <= 4
    ensures r.score == Indicator(Utf16Length(p) >= 8) + Indicator(HasLetter(p)) + Indicator(HasDigit(p)) + Indicator(HasSpecial(p))
    ensures r.strength == Weak <==> r.score <= 1
    ensures r.strength == Fair <==> r.score == 2
    ensures r.strength == Good <==> r.score == 3
    ensures r.strength == Strong <==> r.score == 4
  {
    var c := PasswordChecks(p);
    StrengthReport(Score(c), c, StrengthOf(Score(c)))
  }

  /** The score is 0 exactly when no check holds and 4 exactly when all do. */
  lemma ScoreExtremes(p: string)
    ensures CheckPasswordStrength(p).score == 0 <==>
      Utf16Length(p) < 8 && !HasLetter(p) && !HasDigit(p) && !HasSpecial(p)
    ensures CheckPasswordStrength(p).score == 4 <==>
      Utf16Length(p) >= 8 && HasLetter(p) && HasDigit(p) && HasSpecial(p)
  {
  }

  /** The advice in the "too weak" message is enough: eight characters with
      a letter and a digit score at least 3 (characters above U+FFFF count
      two towards the eight). */
  lemma AdviceSuffices(p: string, i: nat, j: nat)
    requires Utf16Length(p) >= 8 && i < |p| && j < |p| && IsLetter(p[i]) && IsDigit(p[j])
    ensures CheckPasswordStrength(p).score >= 3
    ensures CheckPasswordStrength(p).strength == Good || CheckPasswordStrength(p).strength == Strong
  {
  }

  /** A password of fewer than 8 characters with only letters is always
      weak; the letters are ASCII, so characters and UTF-16 units agree. */
  lemma ShortLettersWeak(p: string)
    requires |p| < 8 && forall i :: 0 <= i < |p| ==> IsLetter(p[i])
    ensures CheckPasswordStrength(p).strength == Weak
  {
    assert Utf16Length(p) == |p| by {
      forall i | 0 <= i < |p| ensures p[i] as int <= 0xFFFF {
        assert IsLetter(p[i]);
      }
    }
    assert !HasDigit(p);
    assert !HasSpecial(p) by {
      forall i | 0 <= i < |p| ensures p[i] !in SpecialChars {
        assert IsLetter(p[i]);
      }
    }
  }

  // ---------------------------------------------------------------------
  // `updateRequirements`

  /** The requirement ticks; `matches` is None when the page has no
      confirmation field. */
  datatype Requirements = Requirements(length: bool, letter: bool, number: bool, matches: Option<bool>)

  function UpdateRequirements(password: string, confirm: Option<string>): (r: Requirements)
    ensures r.length == PasswordChecks(password).length
    ensures r.letter == PasswordChecks(password).letter
    ensures r.number == PasswordChecks(password).number
    ensures r.matches.None? <==> confirm.None?
    ensures r.matches == Some(true) <==> confirm == Some(password) && password != ""
  {
    Requirements(Utf16Length(password) >= 8, HasLetter(password), HasDigit(password),
                 if confirm.None? then None else Some(password == confirm.value && |password| > 0))
  }

  // ---------------------------------------------------------------------
  // submit checks

  const UsernameMissing: string := "Please enter your username or email"
  const PasswordMissing: string := "Please enter your password"
  const InvalidEmail: string := "Please enter a valid email address"
  const TooWeak: string := "Password is too weak. Use at least 8 characters with letters and numbers."
  const Mismatch: string := "Passwords do not match"
  const TermsMissing: string := "Please accept the Terms & Conditions"
  const OldPasswordMissing: string := "Please enter your current password"
  const NewPasswordMissing: string := "Please enter a new password"
  const ConfirmMissing: string := "Please confirm your new password"
  const SameAsOld: string := "New password must be different from current password"

  const RegistrationRequired: seq<string> :=
    ["first_name", "last_name", "username", "email", "role", "password1", "password2"]
  const ProfileRequired: seq<string> := ["first_name", "last_name", "email"]

  function LoginMarks(username: string, password: string): seq<Mark> {
    When(Blank(username), "username", UsernameMissing) + When(password == "", "password", PasswordMissing)
  }

  /** Login is blocked iff the trimmed username or the untrimmed password is empty. */
  lemma LoginBlockedIff(username: string, password: string)
    ensures LoginMarks(username, password) == [] <==> !Blank(username) && password != ""
    ensures var e := ApplyMarks(map[], LoginMarks(username, password));
      (Blank(username) ==> "username" in e && e["username"] == UsernameMissing)
      && (password == "" ==> "password" in e && e["password"] == PasswordMissing)
  {
    var a := When(Blank(username), "username", UsernameMissing);
    var b := When(password == "", "password", PasswordMissing);
    ApplyMarksAppend(map[], a, b);
    ApplyWhen(map[], Blank(username), "username", UsernameMissing);
    ApplyWhen(ApplyMarks(map[], a), password == "", "password", PasswordMissing);
  }

  /** The email format check, run when the email field is on the page and not empty. */
  function EmailMarks(fields: map<string, string>, emailOk: bool): seq<Mark> {
    When("email" in fields && fields["email"] != "" && !emailOk, "email", InvalidEmail)
  }

  function RegistrationChecks(fields: map<string, string>, emailOk: bool): seq<Mark> {
    EmailMarks(fields, emailOk)
    + When("password1" in fields && fields["password1"] != ""
           && CheckPasswordStrength(fields["password1"]).score < 2, "password1", TooWeak)
    + When("password1" in fields && "password2" in fields && fields["password1"] != fields["password2"],
           "password2", Mismatch)
  }

  function RegistrationMarks(fields: map<string, string>, emailOk: bool): seq<Mark> {
    RequiredMarks(fields, RegistrationRequired) + RegistrationChecks(fields, emailOk)
  }

  predicate AllFilled(fields: map<string, string>, names: seq<string>) {
    forall k :: 0 <= k < |names| && names[k] in fields ==> !Blank(fields[names[k]])
  }

  /** Registration goes through iff every required field on the page is
      filled in, a non-empty email passes the format check, a non-empty
      password scores at least 2, the two passwords agree, and the terms box
      (when there is one) is ticked. */
  lemma RegistrationBlockedIff(fields: map<string, string>, emailOk: bool, terms: Option<bool>)
    ensures (RegistrationMarks(fields, emailOk) == [] && terms != Some(false)) <==>
      AllFilled(fields, RegistrationRequired)
      && ("email" in fields && fields["email"] != "" ==> emailOk)
      && ("password1" in fields && fields["password1"] != "" ==> CheckPasswordStrength(fields["password1"]).score >= 2)
      && ("password1" in fields && "password2" in fields ==> fields["password1"] == fields["password2"])
      && terms != Some(false)
  {
    RequiredMarksComplete(fields, RegistrationRequired);
  }

  function ProfileMarks(fields: map<string, string>, emailOk: bool): seq<Mark> {
    RequiredMarks(fields, ProfileRequired) + EmailMarks(fields, emailOk)
  }

  /** Profile edit goes through iff first name, last name and email are
      filled in and a non-empty email passes the format check. */
  lemma ProfileBlockedIff(fields: map<string, string>, emailOk: bool)
    ensures ProfileMarks(fields, emailOk) == [] <==>
      AllFilled(fields, ProfileRequired) && ("email" in fields && fields["email"] != "" ==> emailOk)
  {
    RequiredMarksComplete(fields, ProfileRequired);
  }

  function NewPasswordMarks(newPassword: string): seq<Mark> {
    if newPassword == "" then [("new_password1", NewPasswordMissing)]
    else When(CheckPasswordStrength(newPassword).score < 2, "new_password1", TooWeak)
  }

  function ConfirmMarks(newPassword: string, confirm: string): seq<Mark> {
    if confirm == "" then [("new_password2", ConfirmMissing)]
    else When(newPassword != confirm, "new_password2", Mismatch)
  }

  function PasswordChangeMarks(oldPassword: string, newPassword: string, confirm: string): seq<Mark> {
    When(oldPassword == "", "old_password", OldPasswordMissing)
    + NewPasswordMarks(newPassword)
    + ConfirmMarks(newPassword, confirm)
    + When(oldPassword != "" && newPassword != "" && oldPassword == newPassword, "new_password1", SameAsOld)
  }

  /** The confirmation field shows "confirm" when it is empty and otherwise
      "do not match" on a mismatch, never both; a new password equal to a
      non-empty old one always ends with the "must be different" error. */
  lemma PasswordChangeErrors(oldPassword: string, newPassword: string, confirm: string)
    ensures var e := ApplyMarks(map[], PasswordChangeMarks(oldPassword, newPassword, confirm));
      ("new_password2" in e <==> confirm == "" || newPassword != confirm)
      && (confirm == "" ==> "new_password2" in e && e["new_password2"] == ConfirmMissing)
      && (confirm != "" && newPassword != confirm ==> "new_password2" in e && e["new_password2"] == Mismatch)
      && (oldPassword != "" && oldPassword == newPassword ==> "new_password1" in e && e["new_password1"] == SameAsOld)
      && ("old_password" in e <==> oldPassword == "")
  {
    var a := When(oldPassword == "", "old_password", OldPasswordMissing);
    var b := NewPasswordMarks(newPassword);
    var c := ConfirmMarks(newPassword, confirm);
    var d := When(oldPassword != "" && newPassword != "" && oldPassword == newPassword, "new_password1", SameAsOld);
    ApplyMarksAppend(map[], a, b);
    ApplyMarksAppend(map[], a + b, c);
    ApplyMarksAppend(map[], a + b + c, d);
    ApplyWhen(map[], oldPassword == "", "old_password", OldPasswordMissing);
    var eb := ApplyMarks(map[], a + b);
    assert "old_password" in eb <==> oldPassword == "" by {
      if newPassword == "" {
        assert b[..0] == [];
      } else {
        ApplyWhen(ApplyMarks(map[], a), CheckPasswordStrength(newPassword).score < 2, "new_password1", TooWeak);
      }
    }
    if confirm == "" {
      assert c[..0] == [];
    } else {
      ApplyWhen(eb, newPassword != confirm, "new_password2", Mismatch);
    }
    var ec := ApplyMarks(map[], a + b + c);
    ApplyWhen(ec, oldPassword != "" && newPassword != "" && oldPassword == newPassword, "new_password1", SameAsOld);
  }

  // ---------------------------------------------------------------------
  // the handlers

  /** The login submit handler; it returns whether the submission goes ahead. */
  method SubmitLogin(view: FormView, username: string, password: string) returns (valid: bool)
    modifies view`errors
    ensures view.errors == ApplyMarks(map[], LoginMarks(username, password))
    ensures valid <==> LoginMarks(username, password) == []
  {
    valid := true;
    view.ClearFormErrors();
    if Blank(username) {
      view.ShowFieldError("username", UsernameMissing);
      valid := false;
    }
    if password == "" {
      view.ShowFieldError("password", PasswordMissing);
      valid := false;
    }
    ApplyMarksAppend(map[], When(Blank(username), "username", UsernameMissing),
                     When(password == "", "password", PasswordMissing));
  }

  /** The registration submit handler: the required-field walk, then the
      email, strength and match checks, then the terms box (a toast). */
  method SubmitRegistration(view: FormView, fields: map<string, string>, emailOk: bool, terms: Option<bool>)
    returns (valid: bool)
    modifies view
    ensures view.errors == ApplyMarks(map[], RegistrationMarks(fields, emailOk))
    ensures view.toasts == old(view.toasts) + (if terms == Some(false) then [TermsMissing] else [])
    ensures valid <==> RegistrationMarks(fields, emailOk) == [] && terms != Some(false)
  {
    view.ClearFormErrors();
    valid := view.CheckRequired(fields, RegistrationRequired);
    var checks := RegistrationChecks(fields, emailOk);
    view.ShowMarks(checks);
    ApplyMarksAppend(map[], RequiredMarks(fields, RegistrationRequired), checks);
    if checks != [] {
      valid := false;
    }
    if terms == Some(false) {
      view.ShowToast(TermsMissing);
      valid := false;
    }
  }

  /** The profile-edit submit handler. */
  method SubmitProfileEdit(view: FormView, fields: map<string, string>, emailOk: bool) returns (valid: bool)
    modifies view`errors
    ensures view.errors == ApplyMarks(map[], ProfileMarks(fields, emailOk))
    ensures valid <==> ProfileMarks(fields, emailOk) == []
  {
    view.ClearFormErrors();
    valid := view.CheckRequired(fields, ProfileRequired);
    if "email" in fields && fields["email"] != "" && !emailOk {
      view.ShowFieldError("email", InvalidEmail);
      valid := false;
    }
    ApplyMarksAppend(map[], RequiredMarks(fields, ProfileRequired), EmailMarks(fields, emailOk));
  }

  /** The password-change submit handler. */
  method SubmitPasswordChange(view: FormView, oldPassword: string, newPassword: string, confirm: string)
    returns (valid: bool)
    modifies view`errors
    ensures view.errors == ApplyMarks(map[], PasswordChangeMarks(oldPassword, newPassword, confirm))
    ensures valid <==> PasswordChangeMarks(oldPassword, newPassword, confirm) == []
  {
    ghost var a := When(oldPassword == "", "old_password", OldPasswordMissing);
    ghost var b := NewPasswordMarks(newPassword);
    ghost var c := ConfirmMarks(newPassword, confirm);
    ghost var d := When(oldPassword != "" && newPassword != "" && oldPassword == newPassword, "new_password1", SameAsOld);
    valid := true;
    view.ClearFormErrors();
    view.ShowFieldErrorWhen(oldPassword == "", "old_password", OldPasswordMissing);
    if oldPassword == "" {
      valid := false;
    }
    if newPassword == "" {
      view.ShowFieldErrorWhen(true, "new_password1", NewPasswordMissing);
      valid := false;
    } else {
      var strength := CheckPasswordStrength(newPassword);
      view.ShowFieldErrorWhen(strength.score < 2, "new_password1", TooWeak);
      if strength.score < 2 {
        valid := false;
      }
    }
    ApplyMarksAppend(map[], a, b);
    if confirm == "" {
      view.ShowFieldErrorWhen(true, "new_password2", ConfirmMissing);
      valid := false;
    } else {
      view.ShowFieldErrorWhen(newPassword != confirm, "new_password2", Mismatch);
      if newPassword != confirm {
        valid := false;
      }
    }
    ApplyMarksAppend(map[], a + b, c);
    var same := oldPassword != "" && newPassword != "" && oldPassword == newPassword;
    view.ShowFieldErrorWhen(same, "new_password1", SameAsOld);
    if same {
      valid := false;
    }
    ApplyMarksAppend(map[], a + b + c, d);
  }
}
