/** The accounts permission classes (accounts/permissions.py). The role
    checks are `is_authenticated` and the role, in that order, so an
    anonymous requester is refused before any role is looked at; the owner
    check calls `is_admin()` first, which an anonymous user does not have. */
module AccountPermissions {
  import opened Base
  import opened Access

  /** The object of `IsOwnerOrAdmin`: a row with a `user` field (which may
      be empty), or a user record itself. */
  datatype Target = OwnedBy(owner: Option<int>) | UserRecord(userId: int)

  predicate HasRole(u: Requester, role: string) { u.isAuthenticated && u.role == role }

  /** `IsOwnerOrAdmin.has_object_permission`; an AttributeError for the
      anonymous user, who has no `is_admin`. */
  function IsOwnerOrAdmin(u: Requester, obj: Target): (r: Result<bool>)
    ensures r.Failure? <==> !u.isAuthenticated
    ensures r.Success? && u.role == "ADMIN" ==> r.value
    ensures r.Success? && u.role != "ADMIN" ==>
      (r.value <==> match obj
        case OwnedBy(owner) => owner.Some? && IsUser(u, owner.value)
        case UserRecord(id) => IsUser(u, id))
  {
    if !u.isAuthenticated then Failure("AttributeError")
    else if u.role == "ADMIN" then Success(true)
    else match obj
      case OwnedBy(owner) => Success(owner.Some? && u.id == owner)
      case UserRecord(id) => Success(u.id == Some(id))
  }

  /** A signed-in user who is not an admin reaches exactly their own rows, and
      never a row with no owner. */
  lemma OwnerOnlyOwnRows(u: Requester, owner: int, other: int)
    requires u.isAuthenticated && u.role != "ADMIN" && u.id == Some(owner) && other != owner
    ensures IsOwnerOrAdmin(u, OwnedBy(Some(owner))) == Success(true)
    ensures IsOwnerOrAdmin(u, UserRecord(owner)) == Success(true)
    ensures IsOwnerOrAdmin(u, OwnedBy(Some(other))) == Success(false)
    ensures IsOwnerOrAdmin(u, UserRecord(other)) == Success(false)
    ensures IsOwnerOrAdmin(u, OwnedBy(None)) == Success(false)
  {
  }

  /** `IsHospital` */
  predicate IsHospital(u: Requester) { HasRole(u, "HOSPITAL") }
  /** `IsDoctor` */
  predicate IsDoctor(u: Requester) { HasRole(u, "DOCTOR") }
  /** `IsPatient` */
  predicate IsPatient(u: Requester) { HasRole(u, "PATIENT") }
  /** `IsAdmin` */
  predicate IsAdmin(u: Requester) { HasRole(u, "ADMIN") }

  /** `IsVerified` */
  predicate IsVerified(u: Requester) { u.isAuthenticated && u.isVerified }

  /** `IsActiveUser` */
  predicate IsActiveUser(u: Requester) { u.isAuthenticated && u.isActive }

  /** `IsHospitalOrDoctor` */
  predicate IsHospitalOrDoctor(u: Requester) { u.isAuthenticated && (u.role == "HOSPITAL" || u.role == "DOCTOR") }

  /** `IsDoctorOrPatient` */
  predicate IsDoctorOrPatient(u: Requester) { u.isAuthenticated && (u.role == "DOCTOR" || u.role == "PATIENT") }

  /** The combined permissions are the unions of the single-role ones; at
      most one single-role permission holds; the anonymous requester passes
      none of them. */
  lemma RolePermissionTable(u: Requester)
    ensures IsHospitalOrDoctor(u) <==> IsHospital(u) || IsDoctor(u)
    ensures IsDoctorOrPatient(u) <==> IsDoctor(u) || IsPatient(u)
    ensures Indicator(IsHospital(u)) + Indicator(IsDoctor(u)) + Indicator(IsPatient(u)) + Indicator(IsAdmin(u)) <= 1
    ensures IsHospitalOrDoctor(u) && IsDoctorOrPatient(u) ==> IsDoctor(u)
  {
  }

  lemma AnonymousRefused()
    ensures !IsHospital(Anonymous) && !IsDoctor(Anonymous) && !IsPatient(Anonymous) && !IsAdmin(Anonymous)
    ensures !IsVerified(Anonymous) && !IsActiveUser(Anonymous)
    ensures !IsHospitalOrDoctor(Anonymous) && !IsDoctorOrPatient(Anonymous)
    ensures IsOwnerOrAdmin(Anonymous, UserRecord(0)).Failure?
  {
  }
}
