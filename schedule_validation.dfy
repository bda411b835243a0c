/** The serializer `validate` methods (schedules/serializers.py) and the form
    `clean` methods (schedules/forms.py) of the schedule app. A value the
    request leaves out is `None`; dates, times of day and datetimes are never
    falsy in Python, so a present value always passes a truthiness test.
    Datetimes are integer instants; "now" and "today" are parameters. */
module ScheduleValidation {
  import opened Base
  import opened ScheduleRecords

  const MustFollowStart: string := "End date must be after start date"
  const EndAfterStart: string := "End time must be after start time"

  /** `DutySerializer.validate`: an end date must not precede the start date.
      With an end date but no start date the comparison raises TypeError. */
  function ValidateDuty(startDate: Option<Date>, endDate: Option<Date>): (v: Verdict)
    ensures v == Accepted <==> endDate.None? || (startDate.Some? && startDate.value <= endDate.value)
    ensures endDate.Some? && startDate.Some? && startDate.value > endDate.value ==>
      v == Invalid("end_date", MustFollowStart)
    ensures v.Raises? <==> endDate.Some? && startDate.None?
  {
    if endDate.None? then Accepted
    else if startDate.None? then Raises("TypeError")
    else if startDate.value > endDate.value then Invalid("end_date", MustFollowStart)
    else Accepted
  }

  /** `ShiftSerializer.validate`: start before end; a break, when both of its
      bounds are given, must be non-empty and lie within the shift. */
  function ValidateShift(start: Option<Time>, end: Option<Time>,
                         breakStart: Option<Time>, breakEnd: Option<Time>): (v: Verdict)
    ensures !v.Raises?
    ensures v == Accepted <==>
      (start.Some? && end.Some? ==> start.value < end.value)
      && (breakStart.Some? && breakEnd.Some? ==>
            breakStart.value < breakEnd.value
            && (start.Some? && end.Some? ==> start.value <= breakStart.value && breakEnd.value <= end.value))
    ensures start.Some? && end.Some? && start.value >= end.value ==> v == Invalid("end_time", EndAfterStart)
    ensures v.Invalid? ==> v.field in {"end_time", "break_end", "break_start"}
  {
    if start.Some? && end.Some? && start.value >= end.value then
      Invalid("end_time", EndAfterStart)
    else if breakStart.Some? && breakEnd.Some? then
      if breakStart.value >= breakEnd.value then
        Invalid("break_end", "Break end time must be after break start time")
      else if start.Some? && end.Some? && (breakStart.value < start.value || breakEnd.value > end.value) then
        Invalid("break_start", "Break must be within shift hours")
      else Accepted
    else Accepted
  }

  const DefaultMaxAppointments: int := 10

  function MinValueMessage(n: nat): string {
    "Ensure this value is greater than or equal to " + NatToString(n) + "."
  }

  function MaxValueMessage(n: nat): string {
    "Ensure this value is less than or equal to " + NatToString(n) + "."
  }

  /** `ShiftCreateSerializer`: every listed day is 0..6, max_appointments
      (10 when absent) is at least 1, and the shift starts before it ends. */
  function ValidateShiftCreate(daysOfWeek: seq<int>, start: Time, end: Time,
                               maxAppointments: Option<int>): (v: Verdict)
    ensures !v.Raises?
    ensures v == Accepted <==>
      (forall k :: 0 <= k < |daysOfWeek| ==> 0 <= daysOfWeek[k] <= 6)
      && Pick(maxAppointments, DefaultMaxAppointments) >= 1
      && start < end
  {
    if exists k :: 0 <= k < |daysOfWeek| && daysOfWeek[k] < 0 then
      Invalid("days_of_week", MinValueMessage(0))
    else if exists k :: 0 <= k < |daysOfWeek| && daysOfWeek[k] > 6 then
      Invalid("days_of_week", MaxValueMessage(6))
    else if Pick(maxAppointments, DefaultMaxAppointments) < 1 then
      Invalid("max_appointments", MinValueMessage(1))
    else if start >= end then
      Invalid("end_time", EndAfterStart)
    else Accepted
  }

  /** `DoctorLeaveSerializer.validate`: the dates in order, then no start in the past. */
  function ValidateLeave(startDate: Option<Date>, endDate: Option<Date>, today: Date): (v: Verdict)
    ensures !v.Raises?
    ensures v == Accepted <==>
      (startDate.Some? && endDate.Some? ==> startDate.value <= endDate.value)
      && (startDate.Some? ==> startDate.value >= today)
    ensures startDate.Some? && endDate.Some? && startDate.value > endDate.value ==>
      v == Invalid("end_date", MustFollowStart)
  {
    if startDate.Some? && endDate.Some? && startDate.value > endDate.value then
      Invalid("end_date", MustFollowStart)
    else if startDate.Some? && startDate.value < today then
      Invalid("start_date", "Cannot create leave for past dates")
    else Accepted
  }

  /** `ScheduleOverrideSerializer.validate`: custom hours are compared only on
      an available override with both hours given. */
  function ValidateOverride(isAvailable: Option<bool>, customStart: Option<Time>, customEnd: Option<Time>): (v: Verdict)
    ensures v != Accepted <==>
      isAvailable == Some(true) && customStart.Some? && customEnd.Some?
      && customStart.value >= customEnd.value
    ensures v != Accepted ==> v == Invalid("custom_end_time", EndAfterStart)
  {
    if isAvailable == Some(true) && customStart.Some? && customEnd.Some?
       && customStart.value >= customEnd.value
    then Invalid("custom_end_time", EndAfterStart)
    else Accepted
  }

  /** `DoctorAvailabilitySerializer.validate`: an ordered range of at most 30 days. */
  function ValidateAvailabilityQuery(startDate: Date, endDate: Date): (v: Verdict)
    ensures v == Accepted <==> startDate <= endDate && endDate - startDate <= 30
    ensures startDate > endDate ==> v == Invalid("end_date", MustFollowStart)
  {
    if startDate > endDate then Invalid("end_date", MustFollowStart)
    else if endDate - startDate > 30 then Invalid("non_field_errors", "Date range cannot exceed 30 days")
    else Accepted
  }

  const DefaultSlotDuration: int := 30

  /** `SlotGenerationSerializer`: a duration in [15, 120] (30 when absent) and
      an ordered range of at most 60 days. */
  function ValidateSlotGeneration(startDate: Date, endDate: Date, slotDuration: Option<int>): (v: Verdict)
    ensures v == Accepted <==>
      15 <= Pick(slotDuration, DefaultSlotDuration) <= 120
      && startDate <= endDate && endDate - startDate <= 60
    ensures v == Accepted ==> Pick(slotDuration, DefaultSlotDuration) > 0
  {
    var d := Pick(slotDuration, DefaultSlotDuration);
    if d < 15 then Invalid("slot_duration_minutes", MinValueMessage(15))
    else if d > 120 then Invalid("slot_duration_minutes", MaxValueMessage(120))
    else if startDate > endDate then Invalid("end_date", MustFollowStart)
    else if endDate - startDate > 60 then Invalid("non_field_errors", "Cannot generate slots for more than 60 days")
    else Accepted
  }

  /** `AvailabilitySlotBookSerializer.validate_slot_id`: the slot exists and is bookable. */
  function ValidateSlotId(slots: seq<Slot>, slotId: int): (v: Verdict)
    ensures var i := IndexWhere(slots, (s: Slot) => s.id == slotId);
      (i.None? ==> v == Invalid("slot_id", "Slot does not exist"))
      && (i.Some? ==> (v == Accepted <==> slots[i.value].isAvailable && !slots[i.value].isBooked))
    ensures v != Accepted ==> v.Invalid? && v.field == "slot_id"
  {
    var i := IndexWhere(slots, (s: Slot) => s.id == slotId);
    if i.None? then Invalid("slot_id", "Slot does not exist")
    else if !slots[i.value].isAvailable || slots[i.value].isBooked then
      Invalid("slot_id", "Slot is not available for booking")
    else Accepted
  }

  /** `ScheduleSerializer.validate` and `ScheduleForm.clean`: with both times
      given, start before end and start not in the past (checked in that
      order); then a doctor and a patient, when both given, must not be the
      same model instance. */
  function CheckSchedule(start: Option<int>, end: Option<int>, doctor: Option<Ref>, patient: Option<Ref>,
                         now: int): (o: Outcome)
    ensures o == Pass <==>
      (start.Some? && end.Some? ==> start.value < end.value && start.value >= now)
      && (doctor.Some? && patient.Some? ==> doctor.value != patient.value)
    ensures start.Some? && end.Some? && start.value >= end.value ==> o == Fail(EndAfterStart)
    ensures start.Some? && end.Some? && start.value < end.value && start.value < now ==>
      o == Fail("Schedule cannot be in the past")
    ensures o == Fail("Doctor and patient cannot be the same") ==>
      (start.Some? && end.Some? ==> now <= start.value < end.value)
  {
    if start.Some? && end.Some? && start.value >= end.value then Fail(EndAfterStart)
    else if start.Some? && end.Some? && start.value < now then Fail("Schedule cannot be in the past")
    else if doctor.Some? && patient.Some? && doctor.value == patient.value then
      Fail("Doctor and patient cannot be the same")
    else Pass
  }

  /** The schedule's doctor is a `Doctor` row and its patient a `Patient`
      row; rows of two models never compare equal, so the doctor and
      patient check never fires and only the time checks decide. */
  lemma ScheduleTimesDecide(start: Option<int>, end: Option<int>, doctor: Option<Ref>, patient: Option<Ref>,
                            now: int)
    requires doctor.Some? ==> doctor.value.model == "Doctor"
    requires patient.Some? ==> patient.value.model == "Patient"
    ensures CheckSchedule(start, end, doctor, patient, now) == CheckSchedule(start, end, None, None, now)
    ensures CheckSchedule(start, end, doctor, patient, now) != Fail("Doctor and patient cannot be the same")
  {
  }

  /** `ScheduleReminderSerializer.validate` and `ScheduleReminderForm.clean`:
      a reminder goes out strictly before its schedule starts. */
  function CheckReminder(scheduleStart: Option<int>, sendTime: Option<int>): (o: Outcome)
    ensures o != Pass <==> scheduleStart.Some? && sendTime.Some? && sendTime.value >= scheduleStart.value
    ensures o != Pass ==> o == Fail("Reminder send time must be before schedule start time")
  {
    if scheduleStart.Some? && sendTime.Some? && sendTime.value >= scheduleStart.value then
      Fail("Reminder send time must be before schedule start time")
    else Pass
  }

  /** `ScheduleCategoryForm.clean_name`: a non-empty name that matches an
      existing category ignoring case is rejected, but only once the category
      table exists. */
  function CleanCategoryName(name: string, tableExists: bool, existing: seq<string>): (o: Outcome)
    ensures o != Pass <==>
      name != [] && tableExists && exists k :: 0 <= k < |existing| && EqualsIgnoreCase(existing[k], name)
    ensures o != Pass ==> o == Fail("A category with this name already exists.")
  {
    if name != [] && tableExists && exists k :: 0 <= k < |existing| && EqualsIgnoreCase(existing[k], name) then
      Fail("A category with this name already exists.")
    else Pass
  }

  /** `ScheduleCategorySerializer.validate_name`: the same case-insensitive
      check without the table guard. */
  function ValidateCategoryName(name: string, existing: seq<string>): (o: Outcome)
    ensures o != Pass <==> exists k :: 0 <= k < |existing| && EqualsIgnoreCase(existing[k], name)
  {
    if exists k :: 0 <= k < |existing| && EqualsIgnoreCase(existing[k], name) then
      Fail("A category with this name already exists.")
    else Pass
  }

  // ---------------------------------------------------------------------
  // how the validators fit the services they guard

  /** A slot the booking serializer accepts is one `book_slot` books. */
  lemma SlotIdMatchesBooking(slots: seq<Slot>, slotId: int)
    ensures ValidateSlotId(slots, slotId) == Accepted <==>
      exists k :: 0 <= k < |slots| && slots[k].id == slotId
        && (forall j :: 0 <= j < k ==> slots[j].id != slotId)
        && slots[k].isAvailable && !slots[k].isBooked
  {
    var i := IndexWhere(slots, (s: Slot) => s.id == slotId);
    if i.Some? {
      assert slots[i.value].id == slotId;
    }
  }

  /** A shift the serializer accepts with a break yields a non-empty break
      inside the shift, so the slot cutter's break test is meaningful. */
  lemma AcceptedShiftBreakInside(s: Shift)
    requires s.breakStart.Some? && s.breakEnd.Some?
    requires ValidateShift(Some(s.startTime), Some(s.endTime), s.breakStart, s.breakEnd) == Accepted
    ensures s.startTime <= s.breakStart.value < s.breakEnd.value <= s.endTime
  {
  }

  /** The form rejects a category name the serializer's check would reject as
      soon as the table exists and the name is non-empty, and never otherwise. */
  lemma CategoryChecksAgree(name: string, existing: seq<string>)
    ensures CleanCategoryName(name, true, existing) != Pass <==>
      name != [] && ValidateCategoryName(name, existing) != Pass
    ensures CleanCategoryName(name, false, existing) == Pass
  {
  }

  /** Matching ignores case both ways: a name differing only in letter case
      from an existing one is rejected. */
  lemma CategoryNameCaseBlind(name: string, existing: seq<string>, k: nat)
    requires k < |existing| && Lower(existing[k]) == Lower(name)
    ensures ValidateCategoryName(name, existing) != Pass
    ensures ValidateCategoryName(Lower(name), existing) != Pass
  {
    LowerIdempotent(name);
  }
}
