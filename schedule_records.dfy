/** The schedule tables: duties, weekly shifts, bookable slots, leave requests
    and per-date overrides. Only the fields the schedule services read or
    write are kept. Dates are day numbers with day 0 a Monday; times of day
    are minutes after midnight. */
module ScheduleRecords {
  import opened Base

  type Date = int

  /** A time of day, 00:00 to 23:59, in minutes. */
  type Time = t: int | 0 <= t < 1440

  const MinutesPerDay: int := 1440

  /** `date.weekday()`: Monday is 0, Sunday is 6. */
  function Weekday(d: Date): (w: int)
    ensures 0 <= w < 7
  {
    d % 7
  }

  datatype Duty = Duty(
    id: int, doctor: int, hospital: int, dutyType: string,
    startDate: Date, endDate: Option<Date>, isActive: bool)

  datatype Shift = Shift(
    id: int, duty: int, dayOfWeek: int, startTime: Time, endTime: Time,
    breakStart: Option<Time>, breakEnd: Option<Time>,
    maxAppointments: int, isActive: bool)

  /** `doctor` is the doctor of the slot's shift's duty, the join the
      slot queries filter on. */
  datatype Slot = Slot(
    id: int, shift: int, doctor: int, date: Date, startTime: Time, endTime: Time,
    isAvailable: bool, isBooked: bool, bookedBy: Option<int>)

  datatype LeaveStatus = Pending | Approved | Rejected | Cancelled

  datatype Leave = Leave(
    id: int, doctor: int, leaveType: string, startDate: Date, endDate: Date,
    reason: string, status: LeaveStatus, approvedBy: Option<int>, approvalNotes: string)

  datatype Override = Override(
    id: int, doctor: int, date: Date, isAvailable: bool, reason: string,
    createdBy: int, customStart: Option<Time>, customEnd: Option<Time>)

  // ---------------------------------------------------------------------
  // `update_duty`, `update_shift`, `update_override`: a set of keyword
  // arguments, each either given (Some) or not (None), assigned with setattr.

  datatype DutyPatch = DutyPatch(
    doctor: Option<int>, hospital: Option<int>, dutyType: Option<string>,
    startDate: Option<Date>, endDate: Option<Option<Date>>, isActive: Option<bool>)

  datatype ShiftPatch = ShiftPatch(
    dayOfWeek: Option<int>, startTime: Option<Time>, endTime: Option<Time>,
    breakStart: Option<Option<Time>>, breakEnd: Option<Option<Time>>,
    maxAppointments: Option<int>, isActive: Option<bool>)

  datatype OverridePatch = OverridePatch(
    date: Option<Date>, isAvailable: Option<bool>, reason: Option<string>,
    customStart: Option<Option<Time>>, customEnd: Option<Option<Time>>)

  function Pick<T>(given: Option<T>, current: T): T {
    if given.Some? then given.value else current
  }

  function ApplyDutyPatch(d: Duty, p: DutyPatch): Duty {
    d.(doctor := Pick(p.doctor, d.doctor), hospital := Pick(p.hospital, d.hospital),
       dutyType := Pick(p.dutyType, d.dutyType), startDate := Pick(p.startDate, d.startDate),
       endDate := Pick(p.endDate, d.endDate), isActive := Pick(p.isActive, d.isActive))
  }

  function ApplyShiftPatch(s: Shift, p: ShiftPatch): Shift {
    s.(dayOfWeek := Pick(p.dayOfWeek, s.dayOfWeek), startTime := Pick(p.startTime, s.startTime),
       endTime := Pick(p.endTime, s.endTime), breakStart := Pick(p.breakStart, s.breakStart),
       breakEnd := Pick(p.breakEnd, s.breakEnd),
       maxAppointments := Pick(p.maxAppointments, s.maxAppointments),
       isActive := Pick(p.isActive, s.isActive))
  }

  function ApplyOverridePatch(o: Override, p: OverridePatch): Override {
    o.(date := Pick(p.date, o.date), isAvailable := Pick(p.isAvailable, o.isAvailable),
       reason := Pick(p.reason, o.reason), customStart := Pick(p.customStart, o.customStart),
       customEnd := Pick(p.customEnd, o.customEnd))
  }

  /** A duty update changes exactly the given fields: a given field takes the
      given value, every other field (the id included) keeps its value, and
      applying the same update twice is the same as applying it once. */
  lemma DutyPatchExact(d: Duty, p: DutyPatch)
    ensures var r := ApplyDutyPatch(d, p);
      r.id == d.id
      && (p.doctor.Some? ==> r.doctor == p.doctor.value) && (p.doctor.None? ==> r.doctor == d.doctor)
      && (p.hospital.Some? ==> r.hospital == p.hospital.value) && (p.hospital.None? ==> r.hospital == d.hospital)
      && (p.dutyType.Some? ==> r.dutyType == p.dutyType.value) && (p.dutyType.None? ==> r.dutyType == d.dutyType)
      && (p.startDate.Some? ==> r.startDate == p.startDate.value) && (p.startDate.None? ==> r.startDate == d.startDate)
      && (p.endDate.Some? ==> r.endDate == p.endDate.value) && (p.endDate.None? ==> r.endDate == d.endDate)
      && (p.isActive.Some? ==> r.isActive == p.isActive.value) && (p.isActive.None? ==> r.isActive == d.isActive)
    ensures ApplyDutyPatch(ApplyDutyPatch(d, p), p) == ApplyDutyPatch(d, p)
    ensures ApplyDutyPatch(d, DutyPatch(None, None, None, None, None, None)) == d
  {
  }

  lemma ShiftPatchExact(s: Shift, p: ShiftPatch)
    ensures var r := ApplyShiftPatch(s, p);
      r.id == s.id && r.duty == s.duty
      && (p.dayOfWeek.Some? ==> r.dayOfWeek == p.dayOfWeek.value) && (p.dayOfWeek.None? ==> r.dayOfWeek == s.dayOfWeek)
      && (p.startTime.Some? ==> r.startTime == p.startTime.value) && (p.startTime.None? ==> r.startTime == s.startTime)
      && (p.endTime.Some? ==> r.endTime == p.endTime.value) && (p.endTime.None? ==> r.endTime == s.endTime)
      && (p.breakStart.Some? ==> r.breakStart == p.breakStart.value) && (p.breakStart.None? ==> r.breakStart == s.breakStart)
      && (p.breakEnd.Some? ==> r.breakEnd == p.breakEnd.value) && (p.breakEnd.None? ==> r.breakEnd == s.breakEnd)
      && (p.maxAppointments.Some? ==> r.maxAppointments == p.maxAppointments.value)
      && (p.maxAppointments.None? ==> r.maxAppointments == s.maxAppointments)
      && (p.isActive.Some? ==> r.isActive == p.isActive.value) && (p.isActive.None? ==> r.isActive == s.isActive)
    ensures ApplyShiftPatch(ApplyShiftPatch(s, p), p) == ApplyShiftPatch(s, p)
    ensures ApplyShiftPatch(s, ShiftPatch(None, None, None, None, None, None, None)) == s
  {
  }

  lemma OverridePatchExact(o: Override, p: OverridePatch)
    ensures var r := ApplyOverridePatch(o, p);
      r.id == o.id && r.doctor == o.doctor && r.createdBy == o.createdBy
      && (p.date.Some? ==> r.date == p.date.value) && (p.date.None? ==> r.date == o.date)
      && (p.isAvailable.Some? ==> r.isAvailable == p.isAvailable.value) && (p.isAvailable.None? ==> r.isAvailable == o.isAvailable)
      && (p.reason.Some? ==> r.reason == p.reason.value) && (p.reason.None? ==> r.reason == o.reason)
      && (p.customStart.Some? ==> r.customStart == p.customStart.value) && (p.customStart.None? ==> r.customStart == o.customStart)
      && (p.customEnd.Some? ==> r.customEnd == p.customEnd.value) && (p.customEnd.None? ==> r.customEnd == o.customEnd)
    ensures ApplyOverridePatch(ApplyOverridePatch(o, p), p) == ApplyOverridePatch(o, p)
    ensures ApplyOverridePatch(o, OverridePatch(None, None, None, None, None)) == o
  {
  }

  // ---------------------------------------------------------------------
  // leave decisions (repository `approve_leave`, `reject_leave`, `cancel_leave`)

  function ApproveLeaveRecord(l: Leave, approvedBy: int, notes: string): (r: Leave)
    ensures r.status == Approved && r.approvedBy == Some(approvedBy) && r.approvalNotes == notes
    ensures r.(status := l.status, approvedBy := l.approvedBy, approvalNotes := l.approvalNotes) == l
  {
    l.(status := Approved, approvedBy := Some(approvedBy), approvalNotes := notes)
  }

  /** A rejection records the rejecting user in the same `approved_by` field. */
  function RejectLeaveRecord(l: Leave, rejectedBy: int, notes: string): (r: Leave)
    ensures r.status == Rejected && r.approvedBy == Some(rejectedBy) && r.approvalNotes == notes
    ensures r.(status := l.status, approvedBy := l.approvedBy, approvalNotes := l.approvalNotes) == l
  {
    l.(status := Rejected, approvedBy := Some(rejectedBy), approvalNotes := notes)
  }

  function CancelLeaveRecord(l: Leave): (r: Leave)
    ensures r.status == Cancelled
    ensures r.(status := l.status) == l
  {
    l.(status := Cancelled)
  }
}
