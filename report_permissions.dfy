/** reports/permissions.py. `IsAdminOrReportOwner.has_permission` and
    `ReportReadOnly` are `Access.ReadOrStaff`; `StrictReportAccess` and
    `can_generate_reports` are `Access.StaffAndActive`. */
module ReportPermissions {
  import opened Base
  import opened Access
  import opened ReportRecords

  /** `IsAdminOrReportOwner.has_object_permission`: staff, the user who
      generated the report, or the user behind its doctor or its patient;
      an empty doctor or patient matches nobody. */
  predicate ReportObjectAccess(u: Requester, r: Report) {
    u.isStaff
    || (r.generatedBy.Some? && IsUser(u, r.generatedBy.value))
    || (r.doctor.Some? && IsUser(u, r.doctor.value.user))
    || (r.patient.Some? && IsUser(u, r.patient.value.user))
  }

  /** `can_view_reports` */
  predicate CanViewReports(u: Requester) { u.isAuthenticated }

  /** Who passes the object check, and that an anonymous requester never
      does. */
  lemma ReportAccessTable(u: Requester, r: Report)
    ensures !u.isStaff ==> (ReportObjectAccess(u, r) <==>
      (u.id.Some? && (r.generatedBy == u.id
        || (r.doctor.Some? && r.doctor.value.user == u.id.value)
        || (r.patient.Some? && r.patient.value.user == u.id.value))))
    ensures r.generatedBy.None? && r.doctor.None? && r.patient.None? ==> (ReportObjectAccess(u, r) <==> u.isStaff)
    ensures !ReportObjectAccess(Anonymous, r)
  {
  }

  /** An owner who is not staff passes the object check but cannot write:
      the view-level check refuses every unsafe method first. */
  lemma OwnerCannotWrite(u: Requester, r: Report, verb: string)
    requires !u.isStaff && r.generatedBy.Some? && IsUser(u, r.generatedBy.value) && !IsSafe(verb)
    ensures ReportObjectAccess(u, r) && !ReadOrStaff(u, verb)
  {
  }

  /** Generating needs an active staff account, which is more than viewing
      needs, provided staff accounts are authenticated. */
  lemma GenerateImpliesView(u: Requester)
    requires u.isStaff ==> u.isAuthenticated
    ensures StaffAndActive(u) ==> CanViewReports(u)
    ensures !CanViewReports(Anonymous) && !StaffAndActive(Anonymous)
  {
  }
}
