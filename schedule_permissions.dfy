/** schedules/permissions.py: staff pass every object check; anyone else
    must be the user of the schedule's doctor or of its patient.
    `ScheduleReadOnly` and `ScheduleReminderPermission.has_permission` are
    `Access.ReadOrStaff`; `StrictScheduleAccess` and `can_manage_schedules`
    are `Access.StaffAndActive`. */
module SchedulePermissions {
  import opened Base
  import opened Access

  /** The users behind a schedule's doctor and patient. */
  datatype ScheduleParties = ScheduleParties(doctorUser: int, patientUser: int)

  /** `IsScheduleOwnerOrAdmin.has_object_permission`; a reminder is checked
      against its schedule (`ScheduleReminderPermission.has_object_permission`). */
  predicate ScheduleObjectAccess(u: Requester, schedule: ScheduleParties) {
    u.isStaff || IsUser(u, schedule.doctorUser) || IsUser(u, schedule.patientUser)
  }

  /** `can_view_schedules` */
  predicate CanViewSchedules(u: Requester) { u.isAuthenticated }

  /** Staff always pass; anyone else passes iff they are one of the two parties. */
  lemma ScheduleAccessTable(u: Requester, schedule: ScheduleParties)
    ensures u.isStaff ==> ScheduleObjectAccess(u, schedule)
    ensures !u.isStaff ==> (ScheduleObjectAccess(u, schedule) <==>
      u.id.Some? && (u.id.value == schedule.doctorUser || u.id.value == schedule.patientUser))
    ensures !ScheduleObjectAccess(Anonymous, schedule)
  {
  }

  /** A patient who is not staff may read their schedule but never write it:
      the view-level check refuses writes before the object check runs. */
  lemma PartyCannotWrite(u: Requester, schedule: ScheduleParties, verb: string)
    requires !u.isStaff && !IsSafe(verb)
    ensures !ReadOrStaff(u, verb)
  {
  }

  /** Managing needs strictly more than viewing, provided staff accounts are
      authenticated, as every stored user is. */
  lemma ManageImpliesView(u: Requester)
    requires u.isStaff ==> u.isAuthenticated
    ensures StaffAndActive(u) ==> CanViewSchedules(u)
  {
  }
}
