/** The schedule repository's read queries, as filters and orderings over the
    tables (schedules/repositories.py). `today` is the caller's current date. */
module ScheduleQueries {
  import opened Base
  import opened ScheduleRecords

  // ---------------------------------------------------------------------
  // duties and shifts

  predicate IsCurrentDuty(d: Duty, doctor: int, today: Date) {
    d.doctor == doctor && d.isActive && d.startDate <= today
    && (d.endDate.None? || d.endDate.value >= today)
  }

  /** `get_current_duties`: the doctor's active duties that have started and
      have not ended; a duty ending today is still current. */
  function CurrentDuties(duties: seq<Duty>, doctor: int, today: Date): (r: seq<Duty>)
    ensures forall d :: d in r <==>
      d in duties && d.doctor == doctor && d.isActive && d.startDate <= today
      && (d.endDate.None? || d.endDate.value >= today)
  {
    Filter(duties, d => IsCurrentDuty(d, doctor, today))
  }

  /** A duty that covers the date for that doctor (the `duty__...` part of the join). */
  predicate DutyCovers(d: Duty, doctor: int, date: Date) {
    d.doctor == doctor && d.isActive && d.startDate <= date
    && (d.endDate.None? || d.endDate.value >= date)
  }

  predicate ShiftRunsOn(s: Shift, duties: seq<Duty>, doctor: int, date: Date) {
    s.isActive && s.dayOfWeek == Weekday(date)
    && exists d :: d in duties && d.id == s.duty && DutyCovers(d, doctor, date)
  }

  /** `get_shifts_for_date`: active shifts on the date's weekday whose duty
      belongs to the doctor, is active and covers the date. */
  function ShiftsForDate(shifts: seq<Shift>, duties: seq<Duty>, doctor: int, date: Date): (r: seq<Shift>)
    ensures forall s :: s in r <==>
      s in shifts && s.isActive && s.dayOfWeek == Weekday(date)
      && exists d :: d in duties && d.id == s.duty && d.doctor == doctor && d.isActive
                     && d.startDate <= date && (d.endDate.None? || d.endDate.value >= date)
  {
    Filter(shifts, s => ShiftRunsOn(s, duties, doctor, date))
  }

  // ---------------------------------------------------------------------
  // slots

  function StartKey(s: Slot): int { s.startTime }

  /** Chronological key of a slot: (date, start_time) as one number. */
  function DateTimeKey(s: Slot): int { s.date * MinutesPerDay + s.startTime }

  lemma DateTimeKeyOrder(a: Slot, b: Slot)
    ensures DateTimeKey(a) <= DateTimeKey(b) <==>
      a.date < b.date || (a.date == b.date && a.startTime <= b.startTime)
  {
    if a.date < b.date {
      assert a.date * MinutesPerDay + MinutesPerDay <= b.date * MinutesPerDay;
    } else if b.date < a.date {
      assert b.date * MinutesPerDay + MinutesPerDay <= a.date * MinutesPerDay;
    }
  }

  predicate IsOpenSlot(s: Slot, doctor: int, date: Date, isBooked: bool) {
    s.doctor == doctor && s.date == date && s.isAvailable && s.isBooked == isBooked
  }

  /** `get_available_slots`: the doctor's available slots on the date with the
      requested booked flag, ordered by start time. */
  function AvailableSlots(slots: seq<Slot>, doctor: int, date: Date, isBooked: bool): (r: seq<Slot>)
    ensures forall s :: s in r <==>
      s in slots && s.doctor == doctor && s.date == date && s.isAvailable && s.isBooked == isBooked
    ensures forall i, j :: 0 <= i < j < |r| ==> r[i].startTime <= r[j].startTime
    ensures |r| <= |slots|
  {
    var r := SortBy(Filter(slots, s => IsOpenSlot(s, doctor, date, isBooked)), StartKey);
    assert forall i, j :: 0 <= i < j < |r| ==> StartKey(r[i]) <= StartKey(r[j]);
    r
  }

  predicate InDateRange(s: Slot, doctor: int, startDate: Date, endDate: Date) {
    s.doctor == doctor && startDate <= s.date <= endDate
  }

  /** `get_slots_by_date_range`: the doctor's slots dated from `startDate` to
      `endDate`, both included, ordered by date and then start time. */
  function SlotsInRange(slots: seq<Slot>, doctor: int, startDate: Date, endDate: Date): (r: seq<Slot>)
    ensures forall s :: s in r <==> s in slots && s.doctor == doctor && startDate <= s.date <= endDate
    ensures forall i, j :: 0 <= i < j < |r| ==>
      r[i].date < r[j].date || (r[i].date == r[j].date && r[i].startTime <= r[j].startTime)
    ensures |r| <= |slots|
  {
    var r := SortBy(Filter(slots, s => InDateRange(s, doctor, startDate, endDate)), DateTimeKey);
    forall i, j | 0 <= i < j < |r|
      ensures r[i].date < r[j].date || (r[i].date == r[j].date && r[i].startTime <= r[j].startTime)
    {
      DateTimeKeyOrder(r[i], r[j]);
    }
    r
  }

  predicate DeletedAsFuture(s: Slot, shift: int, fromDate: Date) {
    s.shift == shift && s.date >= fromDate && !s.isBooked
  }

  /** `delete_future_slots`: the table after deleting the shift's unbooked
      slots dated on or after `fromDate`, and the number deleted. Booked slots,
      earlier slots and other shifts' slots all survive. */
  function DeleteFutureSlots(slots: seq<Slot>, shift: int, fromDate: Date): (r: (seq<Slot>, nat))
    ensures forall s :: s in r.0 <==> s in slots && !(s.shift == shift && s.date >= fromDate && !s.isBooked)
    ensures r.1 == Count(slots, s => DeletedAsFuture(s, shift, fromDate))
    ensures |r.0| + r.1 == |slots|
  {
    var kept := Filter(slots, s => !DeletedAsFuture(s, shift, fromDate));
    FilterPartition(slots, s => DeletedAsFuture(s, shift, fromDate), s => !DeletedAsFuture(s, shift, fromDate));
    (kept, |slots| - |kept|)
  }

  // ---------------------------------------------------------------------
  // leaves and overrides

  predicate IsActiveLeave(l: Leave, doctor: int, today: Date) {
    l.doctor == doctor && l.status == Approved && l.startDate <= today <= l.endDate
  }

  /** `get_active_leaves`: the doctor's approved leaves that include today. */
  function ActiveLeaves(leaves: seq<Leave>, doctor: int, today: Date): (r: seq<Leave>)
    ensures forall l :: l in r <==>
      l in leaves && l.doctor == doctor && l.status == Approved && l.startDate <= today <= l.endDate
  {
    Filter(leaves, l => IsActiveLeave(l, doctor, today))
  }

  /** `if exclude_id:` — an absent id or id 0 excludes nothing. */
  predicate Excluded(l: Leave, excludeId: Option<int>) {
    excludeId.Some? && excludeId.value != 0 && l.id == excludeId.value
  }

  predicate Conflicts(l: Leave, doctor: int, startDate: Date, endDate: Date, excludeId: Option<int>) {
    l.doctor == doctor && (l.status == Pending || l.status == Approved)
    && l.startDate <= endDate && l.endDate >= startDate && !Excluded(l, excludeId)
  }

  /** `check_leave_overlap`: some pending or approved leave of the doctor,
      other than the excluded one, shares at least one day with the closed
      interval [startDate, endDate]. */
  function LeaveOverlap(leaves: seq<Leave>, doctor: int, startDate: Date, endDate: Date,
                        excludeId: Option<int>): (r: bool)
    ensures r <==> (exists l :: l in leaves && l.doctor == doctor
                      && (l.status == Pending || l.status == Approved)
                      && l.startDate <= endDate && l.endDate >= startDate && !Excluded(l, excludeId))
  {
    var hits := Filter(leaves, l => Conflicts(l, doctor, startDate, endDate, excludeId));
    assert |hits| > 0 ==> hits[0] in hits;
    |hits| > 0
  }

  /** The intervals are closed: a request starting on the last day of a
      pending or approved leave overlaps it, and a request starting the day
      after does not meet that leave. */
  lemma SharedDayOverlaps(leaves: seq<Leave>, l: Leave, endDate: Date)
    requires l in leaves && (l.status == Pending || l.status == Approved)
    requires l.startDate <= l.endDate <= endDate
    ensures LeaveOverlap(leaves, l.doctor, l.endDate, endDate, None)
    ensures !Conflicts(l, l.doctor, l.endDate + 1, endDate, None)
  {
  }

  predicate IsOverrideFor(o: Override, doctor: int, date: Date) { o.doctor == doctor && o.date == date }

  /** The doctor's first override for the date, if any: what
      `get_override_for_date` returns whenever it does not raise. */
  function OverrideFor(overrides: seq<Override>, doctor: int, date: Date): (r: Option<Override>)
    ensures r.Some? <==> exists o :: o in overrides && o.doctor == doctor && o.date == date
    ensures r.Some? ==> r.value in overrides && r.value.doctor == doctor && r.value.date == date
  {
    var k := IndexWhere(overrides, o => IsOverrideFor(o, doctor, date));
    if k.None? then
      assert forall o :: o in overrides ==> !IsOverrideFor(o, doctor, date);
      None
    else Some(overrides[k.value])
  }

  /** `get_override_for_date`: `.get(doctor=..., date=...)`, which returns
      None when there is no override and raises MultipleObjectsReturned when
      there are two. */
  function OverrideLookup(overrides: seq<Override>, doctor: int, date: Date): (r: Result<Option<Override>>)
    ensures r.Failure? <==>
      exists i, j :: 0 <= i < j < |overrides| && IsOverrideFor(overrides[i], doctor, date)
                     && IsOverrideFor(overrides[j], doctor, date)
    ensures r.Failure? ==> r.error == "MultipleObjectsReturned"
    ensures r.Success? ==> r.value == OverrideFor(overrides, doctor, date)
    ensures r.Success? && r.value.Some? ==>
      forall k :: 0 <= k < |overrides| && IsOverrideFor(overrides[k], doctor, date) ==> overrides[k] == r.value.value
  {
    var g := GetWhere(overrides, o => IsOverrideFor(o, doctor, date));
    if g.Failure? then Failure(g.error)
    else if g.value.None? then Success(None)
    else Success(Some(overrides[g.value.value]))
  }
}
