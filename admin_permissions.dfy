/** adminpanel/permissions.py. `IsAdminOrReadOnly` is `Access.ReadOrStaff`,
    and `StrictAdminAccess` and `is_admin_user` are both
    `Access.StaffAndActive`. */
module AdminPermissions {
  import opened Base
  import opened Access

  /** `SuperAdminOnly.has_permission` and `is_superuser`. */
  predicate SuperAdminOnly(u: Requester) { u.isSuperuser }

  /** Configuration writes need staff, reads need a login; the strict
      class and the helper agree; only the superuser flag admits to
      `SuperAdminOnly`, whatever the other flags say. */
  lemma AdminAccessTable(u: Requester, verb: string)
    ensures IsSafe(verb) ==> (ReadOrStaff(u, verb) <==> u.isAuthenticated)
    ensures !IsSafe(verb) ==> (ReadOrStaff(u, verb) <==> u.isStaff)
    ensures StaffAndActive(u) <==> u.isStaff && u.isActive
    ensures SuperAdminOnly(u) <==> u.isSuperuser
    ensures !SuperAdminOnly(Anonymous) && !StaffAndActive(Anonymous)
  {
  }

  /** An active staff account that is not a superuser passes the strict
      check and fails the superuser one. */
  lemma StaffAloneIsNotSuper(u: Requester)
    requires u.isStaff && u.isActive && !u.isSuperuser
    ensures StaffAndActive(u) && !SuperAdminOnly(u)
  {
  }
}
