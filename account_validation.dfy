/** The accounts forms (accounts/forms.py) and serializers
    (accounts/serializers.py): the cleaning and validation steps that raise a
    field error or hand back the cleaned value. `check_password` is the
    stored-password match, and the messages of Django's `validate_password`
    are a parameter (empty when the password is strong enough). */
module AccountValidation {
  import opened Base
  import opened AccountRecords
  import opened AccountServices

  /** A validation step's outcome: the cleaned attributes, or the messages
      raised on one field. */
  datatype Checked = Cleaned(attrs: map<string, string>) | FieldErrors(field: string, messages: seq<string>)

  /** Another user than `self` holds this address, compared as stored. */
  predicate EmailTakenByOther(users: seq<User>, email: string, self: int) {
    exists k :: 0 <= k < |users| && users[k].email == email && users[k].id != self
  }

  // ---------------------------------------------------------------------
  // forms

  /** `CustomUserCreationForm.clean_email`: lowercased, refused when that
      address is registered. */
  function RegistrationFormEmail(users: seq<User>, email: string): (r: Result<string>)
    ensures r.Success? <==> !EmailExists(users, email)
    ensures r.Success? ==> r.value == Lower(email)
    ensures r.Failure? ==> r.error == "This email address is already registered."
  {
    var e := Lower(email);
    LowerIdempotent(email);
    if exists k :: 0 <= k < |users| && users[k].email == e then Failure("This email address is already registered.")
    else Success(e)
  }

  /** `UserProfileUpdateForm.clean_email`: the user's own row is left out of
      the conflict check. */
  function ProfileFormEmail(users: seq<User>, self: int, email: string): (r: Result<string>)
    ensures r.Success? <==> !EmailTakenByOther(users, Lower(email), self)
    ensures r.Success? ==> r.value == Lower(email)
    ensures r.Failure? ==> r.error == "This email address is already in use."
  {
    var e := Lower(email);
    if EmailTakenByOther(users, e, self) then Failure("This email address is already in use.")
    else Success(e)
  }

  /** A user keeping their own address, in any capitalisation, is never in
      conflict with themselves. */
  lemma OwnEmailAccepted(users: seq<User>, self: int, email: string)
    requires forall k :: 0 <= k < |users| && users[k].email == Lower(email) ==> users[k].id == self
    ensures ProfileFormEmail(users, self, email) == Success(Lower(email))
  {
  }

  /** `PasswordChangeForm.clean_old_password`, and
      `PasswordChangeSerializer.validate_old_password`, which raises the
      same message. */
  function CleanOldPassword(u: User, oldPassword: string): (r: Result<string>)
    ensures r.Success? <==> u.password == oldPassword
    ensures r.Success? ==> r.value == oldPassword
    ensures r.Failure? ==> r.error == "Current password is incorrect."
  {
    if u.password != oldPassword then Failure("Current password is incorrect.") else Success(oldPassword)
  }

  /** `cleaned_data.get(name)` taken as true: present and non-empty. */
  predicate Given(v: Option<string>) { v.Some? && v.value != "" }

  /** Shared shape of the two form `clean` methods over the cleaned data:
      a mismatch is raised on new_password2 only when both values are
      present and non-empty; otherwise the cleaned data is handed back. */
  function FormPasswordsAgree(data: map<string, string>, message: string): (r: Checked)
    ensures r.FieldErrors? <==> Given(Get(data, "new_password1")) && Given(Get(data, "new_password2"))
                                && Get(data, "new_password1") != Get(data, "new_password2")
    ensures r.FieldErrors? ==> r == FieldErrors("new_password2", [message])
    ensures r.Cleaned? ==> r.attrs == data
  {
    var p1 := Get(data, "new_password1");
    var p2 := Get(data, "new_password2");
    if Given(p1) && Given(p2) && p1 != p2 then FieldErrors("new_password2", [message])
    else Cleaned(data)
  }

  /** `PasswordChangeForm.clean` */
  function PasswordChangeFormClean(data: map<string, string>): (r: Checked)
    ensures r.FieldErrors? <==> Given(Get(data, "new_password1")) && Given(Get(data, "new_password2"))
                                && data["new_password1"] != data["new_password2"]
    ensures r.FieldErrors? ==> r.messages == ["New passwords do not match."] && r.field == "new_password2"
    ensures r.Cleaned? ==> r.attrs == data
  {
    FormPasswordsAgree(data, "New passwords do not match.")
  }

  /** `PasswordResetConfirmForm.clean` */
  function ResetConfirmFormClean(data: map<string, string>): (r: Checked)
    ensures r.FieldErrors? <==> Given(Get(data, "new_password1")) && Given(Get(data, "new_password2"))
                                && data["new_password1"] != data["new_password2"]
    ensures r.FieldErrors? ==> r.messages == ["Passwords do not match."] && r.field == "new_password2"
    ensures r.Cleaned? ==> r.attrs == data
  {
    FormPasswordsAgree(data, "Passwords do not match.")
  }

  // ---------------------------------------------------------------------
  // serializers

  /** `UserRegistrationSerializer.validate_email` */
  function RegistrationEmail(users: seq<User>, email: string): (r: Result<string>)
    ensures r.Success? <==> !EmailExists(users, email)
    ensures r.Success? ==> r.value == Lower(email)
    ensures r.Failure? ==> r.error == "This email is already registered."
  {
    if EmailExists(users, email) then Failure("This email is already registered.") else Success(Lower(email))
  }

  /** The registration form and serializer accept the same addresses and
      clean them the same way; only the message differs. */
  lemma RegistrationEmailAgrees(users: seq<User>, email: string)
    ensures RegistrationFormEmail(users, email).Success? <==> RegistrationEmail(users, email).Success?
    ensures RegistrationFormEmail(users, email).Success? ==>
      RegistrationFormEmail(users, email) == RegistrationEmail(users, email)
  {
  }

  /** `UserRegistrationSerializer.validate_username`: exact match. */
  function RegistrationUsername(users: seq<User>, username: string): (r: Result<string>)
    ensures r.Success? <==> !UsernameExists(users, username)
    ensures r.Success? ==> r.value == username
    ensures r.Failure? ==> r.error == "This username is already taken."
  {
    if UsernameExists(users, username) then Failure("This username is already taken.") else Success(username)
  }

  function Get(attrs: map<string, string>, key: string): Option<string> {
    if key in attrs then Some(attrs[key]) else None
  }

  /** `UserRegistrationSerializer.validate`: password_confirm is popped and
      compared first; the strength messages go on "password". */
  function RegistrationValidate(attrs: map<string, string>, strengthErrors: seq<string>): (r: Checked)
    ensures Get(attrs, "password") != Get(attrs, "password_confirm") <==>
      r == FieldErrors("password_confirm", ["Passwords do not match."])
    ensures Get(attrs, "password") == Get(attrs, "password_confirm") && strengthErrors != [] ==>
      r == FieldErrors("password", strengthErrors)
    ensures r.Cleaned? <==> Get(attrs, "password") == Get(attrs, "password_confirm") && strengthErrors == []
    ensures r.Cleaned? ==> ("password_confirm" !in r.attrs
      && forall k :: k in attrs && k != "password_confirm" ==> k in r.attrs && r.attrs[k] == attrs[k])
  {
    var password := Get(attrs, "password");
    var confirm := Get(attrs, "password_confirm");
    var rest := attrs - {"password_confirm"};
    if password != confirm then FieldErrors("password_confirm", ["Passwords do not match."])
    else if strengthErrors != [] then FieldErrors("password", strengthErrors)
    else Cleaned(rest)
  }

  /** `UserUpdateSerializer.validate_email` */
  function UpdateEmail(users: seq<User>, self: int, email: string): (r: Result<string>)
    ensures r.Success? <==> !EmailTakenByOther(users, Lower(email), self)
    ensures r.Success? ==> r.value == Lower(email)
    ensures r.Failure? ==> r.error == "This email is already in use."
  {
    if EmailTakenByOther(users, Lower(email), self) then Failure("This email is already in use.")
    else Success(Lower(email))
  }

  /** The profile form and the update serializer agree on every address. */
  lemma UpdateEmailAgrees(users: seq<User>, self: int, email: string)
    ensures ProfileFormEmail(users, self, email).Success? <==> UpdateEmail(users, self, email).Success?
    ensures ProfileFormEmail(users, self, email).Success? ==>
      ProfileFormEmail(users, self, email) == UpdateEmail(users, self, email)
  {
  }

  /** Shared shape of the two serializer `validate` methods: any difference
      of the values (a missing one included) is a mismatch, reported before
      the strength messages. */
  function SerializerPasswordsAgree(attrs: map<string, string>, message: string, strengthErrors: seq<string>): (r: Checked)
    ensures Get(attrs, "new_password") != Get(attrs, "new_password_confirm") <==>
      r == FieldErrors("new_password_confirm", [message])
    ensures Get(attrs, "new_password") == Get(attrs, "new_password_confirm") && strengthErrors != [] ==>
      r == FieldErrors("new_password", strengthErrors)
    ensures r.Cleaned? <==> Get(attrs, "new_password") == Get(attrs, "new_password_confirm") && strengthErrors == []
    ensures r.Cleaned? ==> r.attrs == attrs
  {
    if Get(attrs, "new_password") != Get(attrs, "new_password_confirm") then
      FieldErrors("new_password_confirm", [message])
    else if strengthErrors != [] then FieldErrors("new_password", strengthErrors)
    else Cleaned(attrs)
  }

  /** `PasswordChangeSerializer.validate` */
  function PasswordChangeValidate(attrs: map<string, string>, strengthErrors: seq<string>): (r: Checked)
    ensures r.FieldErrors? && r.field == "new_password_confirm" <==>
      Get(attrs, "new_password") != Get(attrs, "new_password_confirm")
    ensures r.FieldErrors? && r.field == "new_password_confirm" ==> r.messages == ["New passwords do not match."]
    ensures r.Cleaned? <==> Get(attrs, "new_password") == Get(attrs, "new_password_confirm") && strengthErrors == []
  {
    SerializerPasswordsAgree(attrs, "New passwords do not match.", strengthErrors)
  }

  /** `PasswordResetConfirmSerializer.validate` */
  function ResetConfirmValidate(attrs: map<string, string>, strengthErrors: seq<string>): (r: Checked)
    ensures r.FieldErrors? && r.field == "new_password_confirm" <==>
      Get(attrs, "new_password") != Get(attrs, "new_password_confirm")
    ensures r.FieldErrors? && r.field == "new_password_confirm" ==> r.messages == ["Passwords do not match."]
    ensures r.Cleaned? <==> Get(attrs, "new_password") == Get(attrs, "new_password_confirm") && strengthErrors == []
  {
    SerializerPasswordsAgree(attrs, "Passwords do not match.", strengthErrors)
  }

  /** The cross-field checks compared on their own: every pair of passwords
      `PasswordResetConfirmForm.clean()` refuses, the serializer's `validate()`
      refuses too, and a blank password against a non-blank confirmation
      passes `clean()` but not `validate()`. Both fields are required, so
      the field checks that run first refuse "" in both; this is a fact
      about the two methods, not about a whole form or request. */
  lemma SerializerStricterThanForm(p1: string, p2: string, strengthErrors: seq<string>)
    ensures var data := map["new_password1" := p1, "new_password2" := p2];
      var attrs := map["new_password" := p1, "new_password_confirm" := p2];
      (ResetConfirmFormClean(data).FieldErrors? ==> ResetConfirmValidate(attrs, strengthErrors).FieldErrors?)
      && (p1 == "" && p2 != "" ==>
            ResetConfirmFormClean(data).Cleaned? && ResetConfirmValidate(attrs, strengthErrors).FieldErrors?)
  {
    var data := map["new_password1" := p1, "new_password2" := p2];
    var attrs := map["new_password" := p1, "new_password_confirm" := p2];
    assert Get(data, "new_password1") == Some(p1) && Get(data, "new_password2") == Some(p2);
    assert Get(attrs, "new_password") == Some(p1) && Get(attrs, "new_password_confirm") == Some(p2);
  }

  /** `PasswordResetRequestSerializer.validate_email`: never refuses, and
      hands back the address in lowercase. */
  function ResetRequestEmail(email: string): (r: string)
    ensures |r| == |email|
    ensures forall i :: 0 <= i < |r| ==> !IsUpper(r[i])
    ensures EqualsIgnoreCase(r, email)
  {
    LowerIdempotent(email);
    Lower(email)
  }
}
