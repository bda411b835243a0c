/** The request side of every permission check: who is asking and with which
    HTTP method. An anonymous requester is not authenticated, has no id and
    no flags. Users are compared by id, and an anonymous requester equals no
    stored user. */
module Access {
  import opened Base

  datatype Requester = Requester(
    id: Option<int>, isAuthenticated: bool, isStaff: bool, isActive: bool,
    isSuperuser: bool, isVerified: bool, role: string)

  const Anonymous: Requester := Requester(None, false, false, false, false, false, "")

  /** `permissions.SAFE_METHODS` */
  const SafeMethods: seq<string> := ["GET", "HEAD", "OPTIONS"]

  predicate IsSafe(verb: string) { verb in SafeMethods }

  /** `obj.user == request.user` for a stored user id. */
  predicate IsUser(u: Requester, userId: int) { u.id == Some(userId) }

  /** The shared `has_permission` of the read-only-unless-staff classes:
      safe methods need authentication, every other method needs staff
      (schedules/permissions.py `ScheduleReadOnly` and
      `ScheduleReminderPermission`, adminpanel/permissions.py
      `IsAdminOrReadOnly`, reports/permissions.py `IsAdminOrReportOwner`
      and `ReportReadOnly`). */
  predicate ReadOrStaff(u: Requester, verb: string) {
    if IsSafe(verb) then u.isAuthenticated else u.isStaff
  }

  /** Staff and active (`StrictScheduleAccess`, `can_manage_schedules`,
      `StrictAdminAccess`, `is_admin_user`, `StrictReportAccess`,
      `can_generate_reports`). */
  predicate StaffAndActive(u: Requester) { u.isStaff && u.isActive }

  /** `ReadOnly`: exactly the safe methods, whoever asks. */
  predicate ReadOnly(verb: string) { IsSafe(verb) }

  /** Safe methods are exactly GET, HEAD and OPTIONS; a write needs staff
      whatever the authentication, and a read never needs staff. */
  lemma ReadOrStaffTable(u: Requester, verb: string)
    ensures ReadOnly(verb) <==> verb == "GET" || verb == "HEAD" || verb == "OPTIONS"
    ensures !IsSafe(verb) ==> (ReadOrStaff(u, verb) <==> u.isStaff)
    ensures IsSafe(verb) ==> (ReadOrStaff(u, verb) <==> u.isAuthenticated)
    ensures !ReadOrStaff(Anonymous, verb)
  {
  }
}
