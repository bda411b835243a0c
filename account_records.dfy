/** The account tables (accounts/models.py): users with a role, verification
    tokens and the activity log. Datetimes are integer instants in seconds.
    Passwords are kept as the text `check_password` compares against; the
    hashing is not part of this model. */
module AccountRecords {
  import opened Base

  datatype User = User(
    id: int, username: string, email: string, password: string,
    firstName: string, lastName: string, phone: string, role: string,
    isVerified: bool, isActive: bool, isStaff: bool)

  /** `USER_ROLES`: the stored value and its display label. */
  const UserRoles: seq<(string, string)> :=
    [("HOSPITAL", "Hospital"), ("DOCTOR", "Doctor"), ("PATIENT", "Patient"), ("ADMIN", "Administrator")]

  predicate IsHospital(u: User) { u.role == "HOSPITAL" }
  predicate IsDoctor(u: User) { u.role == "DOCTOR" }
  predicate IsPatient(u: User) { u.role == "PATIENT" }
  predicate IsAdmin(u: User) { u.role == "ADMIN" }

  /** `get_role_display()`: the label of a listed role, the raw value otherwise. */
  function RoleDisplay(role: string): string {
    if role == "HOSPITAL" then "Hospital"
    else if role == "DOCTOR" then "Doctor"
    else if role == "PATIENT" then "Patient"
    else if role == "ADMIN" then "Administrator"
    else role
  }

  /** The display label is the one `USER_ROLES` pairs with the role, and an
      unlisted role shows as itself. */
  lemma {:induction false} RoleDisplayFollowsChoices(role: string)
    ensures forall k :: 0 <= k < |UserRoles| && UserRoles[k].0 == role ==> RoleDisplay(role) == UserRoles[k].1
    ensures (forall k :: 0 <= k < |UserRoles| ==> UserRoles[k].0 != role) ==> RoleDisplay(role) == role
  {
    forall k | 0 <= k < |UserRoles| && UserRoles[k].0 == role
      ensures RoleDisplay(role) == UserRoles[k].1
    {
      assert k == 0 || k == 1 || k == 2 || k == 3;
    }
    assert UserRoles[0].0 == "HOSPITAL" && UserRoles[1].0 == "DOCTOR";
    assert UserRoles[2].0 == "PATIENT" && UserRoles[3].0 == "ADMIN";
  }

  /** `CustomUser.__str__`: "username (Role label)". */
  function UserLabel(u: User): (r: string)
    ensures u.username <= r
  {
    u.username + " (" + RoleDisplay(u.role) + ")"
  }

  /** Every listed role makes exactly one of the four role predicates true;
      any other role value makes none true. */
  lemma {:induction false} RolesExclusive(u: User)
    ensures (exists k :: 0 <= k < |UserRoles| && UserRoles[k].0 == u.role) ==>
      (if IsHospital(u) then 1 else 0) + (if IsDoctor(u) then 1 else 0)
      + (if IsPatient(u) then 1 else 0) + (if IsAdmin(u) then 1 else 0) == 1
    ensures (forall k :: 0 <= k < |UserRoles| ==> UserRoles[k].0 != u.role) ==>
      !IsHospital(u) && !IsDoctor(u) && !IsPatient(u) && !IsAdmin(u)
  {
    if exists k :: 0 <= k < |UserRoles| && UserRoles[k].0 == u.role {
      var k :| 0 <= k < |UserRoles| && UserRoles[k].0 == u.role;
      assert k == 0 || k == 1 || k == 2 || k == 3;
    }
    assert UserRoles[0].0 == "HOSPITAL" && UserRoles[1].0 == "DOCTOR";
    assert UserRoles[2].0 == "PATIENT" && UserRoles[3].0 == "ADMIN";
  }

  /** A patient called "testuser" renders as "testuser (Patient)". */
  lemma PatientLabel(u: User)
    requires u.username == "testuser" && u.role == "PATIENT"
    ensures UserLabel(u) == "testuser (Patient)"
  {
  }

  /** The profile rows that may hang off a user, each by id when present. */
  datatype Profiles = Profiles(hospital: Option<int>, doctor: Option<int>, patient: Option<int>)

  /** `get_profile`: the profile matching the role, `None` for ADMIN and any
      unlisted role. */
  function GetProfile(u: User, p: Profiles): (r: Option<int>)
    ensures IsHospital(u) ==> r == p.hospital
    ensures IsDoctor(u) ==> r == p.doctor
    ensures IsPatient(u) ==> r == p.patient
    ensures !IsHospital(u) && !IsDoctor(u) && !IsPatient(u) ==> r == None
  {
    if IsHospital(u) then p.hospital
    else if IsDoctor(u) then p.doctor
    else if IsPatient(u) then p.patient
    else None
  }

  // ---------------------------------------------------------------------
  // verification tokens

  const EmailToken: string := "EMAIL"
  const PhoneToken: string := "PHONE"
  const ResetToken: string := "PASSWORD_RESET"

  datatype Token = Token(user: int, token: string, tokenType: string, expiresAt: int, isUsed: bool)

  /** `VerificationToken.is_valid`: unused and not yet expired. */
  predicate TokenIsValid(t: Token, now: int) { !t.isUsed && t.expiresAt > now }

  function TokenTypeDisplay(tokenType: string): string {
    if tokenType == EmailToken then "Email Verification"
    else if tokenType == PhoneToken then "Phone Verification"
    else if tokenType == ResetToken then "Password Reset"
    else tokenType
  }

  /** `VerificationToken.__str__`: "username - Type label". */
  function TokenLabel(username: string, t: Token): (r: string)
    ensures username <= r
  {
    username + " - " + TokenTypeDisplay(t.tokenType)
  }

  /** A used token is never valid, a token expiring exactly now is already
      invalid, and validity only gets lost as time passes. */
  lemma TokenValidity(t: Token, now: int, later: int)
    requires now <= later
    ensures t.isUsed ==> !TokenIsValid(t, now)
    ensures !TokenIsValid(t, t.expiresAt)
    ensures TokenIsValid(t, later) ==> TokenIsValid(t, now)
    ensures !t.isUsed && now < t.expiresAt ==> TokenIsValid(t, now)
  {
  }

  // ---------------------------------------------------------------------
  // activity log

  /** One `UserActivity` row; `success` is the `metadata['success']` flag
      that only login entries carry. */
  datatype Activity = Activity(user: Option<int>, action: string, success: Option<bool>, createdAt: int)
}
