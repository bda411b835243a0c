/** The schedule service layer (schedules/services.py) over the repository's
    tables (schedules/repositories.py). `ScheduleStore` holds the five tables;
    each service call is one method and runs atomically. Pure parts that the
    services loop over (the availability sweep and the per-date counts) come
    first, each proved against a specification function. */
module ScheduleServices {
  import opened Base
  import opened ScheduleRecords
  import opened ScheduleQueries
  import opened SlotGeneration

  // ---------------------------------------------------------------------
  // making slots unavailable (`_handle_leave_slots`, `create_override`)

  /** The slots a leave covers: the doctor's slots dated within the leave. */
  predicate LeaveCovers(l: Leave, s: Slot) {
    s.doctor == l.doctor && l.startDate <= s.date <= l.endDate
  }

  function CoveredBy(l: Leave): Slot -> bool { s => LeaveCovers(l, s) }

  /** One slot after the sweep. */
  function Swept(s: Slot, selected: Slot -> bool): Slot {
    if selected(s) && !s.isBooked then s.(isAvailable := false) else s
  }

  /** Each selected slot that is not booked becomes unavailable; nothing else changes. */
  function MarkUnavailable(slots: seq<Slot>, selected: Slot -> bool): (r: seq<Slot>)
    ensures |r| == |slots|
    ensures forall i :: 0 <= i < |r| ==> r[i] == Swept(slots[i], selected)
    ensures forall i :: 0 <= i < |r| ==> (slots[i].isBooked || !selected(slots[i]) ==> r[i] == slots[i])
    ensures forall i :: 0 <= i < |r| ==> (selected(slots[i]) && !slots[i].isBooked ==> !r[i].isAvailable)
  {
    if slots == [] then []
    else [Swept(slots[0], selected)] + MarkUnavailable(slots[1..], selected)
  }

  /** The sweep loop: walk the slots and flip the selected unbooked ones. */
  method SweepSlots(slots: seq<Slot>, selected: Slot -> bool) returns (r: seq<Slot>)
    ensures r == MarkUnavailable(slots, selected)
  {
    r := [];
    var i := 0;
    while i < |slots|
      invariant 0 <= i <= |slots| && |r| == i
      invariant forall k :: 0 <= k < i ==> r[k] == Swept(slots[k], selected)
    {
      var slot := slots[i];
      if selected(slot) && !slot.isBooked {
        slot := slot.(isAvailable := false);
      }
      r := r + [slot];
      i := i + 1;
    }
    assert r == MarkUnavailable(slots, selected);
  }

  /** Approving a leave never touches a booked slot, and leaves every
      unbooked slot of that doctor within the leave dates unavailable. */
  lemma LeaveSweepEffect(slots: seq<Slot>, l: Leave, i: nat)
    requires i < |slots|
    ensures var r := MarkUnavailable(slots, CoveredBy(l));
      (slots[i].isBooked ==> r[i] == slots[i])
      && (LeaveCovers(l, slots[i]) && !slots[i].isBooked ==> !r[i].isAvailable)
      && (!LeaveCovers(l, slots[i]) ==> r[i] == slots[i])
  {
  }

  // ---------------------------------------------------------------------
  // `get_doctor_availability`: per-date slot counts

  datatype DayCounts = DayCounts(totalSlots: nat, availableSlots: nat, bookedSlots: nat)

  predicate OnDate(s: Slot, date: Date) { s.date == date }
  predicate OpenOnDate(s: Slot, date: Date) { s.date == date && s.isAvailable && !s.isBooked }
  predicate BookedOnDate(s: Slot, date: Date) { s.date == date && s.isBooked }

  /** The counts the source reports for one date. */
  function Tally(slots: seq<Slot>, date: Date): DayCounts {
    DayCounts(Count(slots, s => OnDate(s, date)),
              Count(slots, s => OpenOnDate(s, date)),
              Count(slots, s => BookedOnDate(s, date)))
  }

  /** The counts for one date after one more slot. */
  function TallyStep(c: DayCounts, x: Slot, date: Date): DayCounts {
    if x.date != date then c
    else DayCounts(c.totalSlots + 1,
                   c.availableSlots + (if x.isAvailable && !x.isBooked then 1 else 0),
                   c.bookedSlots + (if x.isBooked then 1 else 0))
  }

  lemma TallySnoc(slots: seq<Slot>, x: Slot, date: Date)
    ensures Tally(slots + [x], date) == TallyStep(Tally(slots, date), x, date)
  {
    CountSnoc(slots, x, s => OnDate(s, date));
    CountSnoc(slots, x, s => OpenOnDate(s, date));
    CountSnoc(slots, x, s => BookedOnDate(s, date));
  }

  /** A date has slots exactly when its total is positive. */
  lemma TallyPositive(slots: seq<Slot>, date: Date)
    ensures Tally(slots, date).totalSlots > 0 <==> exists s :: s in slots && s.date == date
  {
    var f := Filter(slots, s => OnDate(s, date));
    if |f| > 0 {
      assert f[0] in f;
    }
    if exists s :: s in slots && s.date == date {
      var s :| s in slots && s.date == date;
      assert s in f;
    }
  }

  /** The counts kept in the result dictionary, built slot by slot. */
  function ByDate(slots: seq<Slot>): map<Date, DayCounts>
    decreases |slots|
  {
    if slots == [] then map[]
    else
      var m := ByDate(slots[..|slots| - 1]);
      var x := slots[|slots| - 1];
      m[x.date := TallyStep(if x.date in m then m[x.date] else DayCounts(0, 0, 0), x, x.date)]
  }

  /** The dictionary holds exactly the dates that have slots, each with its tally. */
  lemma {:induction false} ByDateTally(slots: seq<Slot>, date: Date)
    ensures date in ByDate(slots) ==> ByDate(slots)[date] == Tally(slots, date)
    ensures date !in ByDate(slots) ==> Tally(slots, date) == DayCounts(0, 0, 0)
    ensures date in ByDate(slots) <==> exists s :: s in slots && s.date == date
    decreases |slots|
  {
    if slots != [] {
      var init := slots[..|slots| - 1];
      var x := slots[|slots| - 1];
      assert slots == init + [x];
      ByDateTally(init, date);
      TallySnoc(init, x, date);
    }
    TallyPositive(slots, date);
  }

  /** The loop of `get_doctor_availability` over already-fetched slots. */
  method CountByDate(slots: seq<Slot>) returns (m: map<Date, DayCounts>)
    ensures m == ByDate(slots)
  {
    m := map[];
    var i := 0;
    while i < |slots|
      invariant 0 <= i <= |slots|
      invariant m == ByDate(slots[..i])
    {
      var slot := slots[i];
      var c := if slot.date in m then m[slot.date] else DayCounts(0, 0, 0);
      c := TallyStep(c, slot, slot.date);
      assert slots[..i + 1][..i] == slots[..i];
      m := m[slot.date := c];
      i := i + 1;
    }
    assert slots[..i] == slots;
  }

  /** For every date, available plus booked never exceeds the total, so the
      three counts are consistent. */
  lemma TallyConsistent(slots: seq<Slot>, date: Date)
    ensures Tally(slots, date).availableSlots + Tally(slots, date).bookedSlots
            <= Tally(slots, date).totalSlots
  {
    CountDisjointSum(slots, s => OpenOnDate(s, date), s => BookedOnDate(s, date), s => OnDate(s, date));
  }

  // ---------------------------------------------------------------------
  // saved slots

  /** `bulk_create_slots`: the drafts saved as available, unbooked slots with fresh ids. */
  function ToSlots(drafts: seq<Draft>, shift: int, doctor: int, firstId: int): (r: seq<Slot>)
    ensures |r| == |drafts|
    ensures forall k :: 0 <= k < |r| ==>
      r[k].id == firstId + k && r[k].shift == shift && r[k].doctor == doctor
      && r[k].date == drafts[k].date && r[k].startTime == drafts[k].startTime
      && r[k].endTime == drafts[k].endTime
      && r[k].isAvailable && !r[k].isBooked && r[k].bookedBy == None
    decreases |drafts|
  {
    if drafts == [] then []
    else [Slot(firstId, shift, doctor, drafts[0].date, drafts[0].startTime, drafts[0].endTime, true, false, None)]
         + ToSlots(drafts[1..], shift, doctor, firstId + 1)
  }

  predicate DutyIdsBelow(s: seq<Duty>, n: int) { forall i :: 0 <= i < |s| ==> s[i].id < n }
  predicate ShiftIdsBelow(s: seq<Shift>, n: int) { forall i :: 0 <= i < |s| ==> s[i].id < n }
  predicate SlotIdsBelow(s: seq<Slot>, n: int) { forall i :: 0 <= i < |s| ==> s[i].id < n }
  predicate LeaveIdsBelow(s: seq<Leave>, n: int) { forall i :: 0 <= i < |s| ==> s[i].id < n }
  predicate OverrideIdsBelow(s: seq<Override>, n: int) { forall i :: 0 <= i < |s| ==> s[i].id < n }

  predicate HasDuty(duties: seq<Duty>, id: int) {
    exists k :: 0 <= k < |duties| && duties[k].id == id
  }

  /** The open, unbooked slots of a doctor on a date. */
  function OpenOn(doctor: int, date: Date): Slot -> bool {
    s => IsOpenSlot(s, doctor, date, false)
  }

  predicate OverridePairsUnique(overrides: seq<Override>) {
    forall i, j :: 0 <= i < j < |overrides| ==>
      !(overrides[i].doctor == overrides[j].doctor && overrides[i].date == overrides[j].date)
  }

  /** An override for a doctor and date that have none keeps the pairs unique. */
  lemma OverrideAppendUnique(overrides: seq<Override>, o: Override)
    requires OverridePairsUnique(overrides) && OverrideFor(overrides, o.doctor, o.date).None?
    ensures OverridePairsUnique(overrides + [o])
  {
    var t := overrides + [o];
    forall i, j | 0 <= i < j < |t|
      ensures !(t[i].doctor == t[j].doctor && t[i].date == t[j].date)
    {
      assert t[i] == overrides[i] && t[i] in overrides;
      if j < |overrides| {
        assert t[j] == overrides[j];
      }
    }
  }

  /** Slots numbered from the counter stay below the counter moved past them. */
  lemma ToSlotsBelow(slots: seq<Slot>, drafts: seq<Draft>, shift: int, doctor: int, n: int)
    requires SlotIdsBelow(slots, n)
    ensures SlotIdsBelow(slots + ToSlots(drafts, shift, doctor, n), n + |drafts|)
  {
    var t := slots + ToSlots(drafts, shift, doctor, n);
    forall i | 0 <= i < |t| ensures t[i].id < n + |drafts| {
      if i >= |slots| {
        assert t[i] == ToSlots(drafts, shift, doctor, n)[i - |slots|];
      } else {
        assert t[i] == slots[i];
      }
    }
  }

  /** Marking slots unavailable keeps their ids. */
  lemma SweptIdsBelow(slots: seq<Slot>, selected: Slot -> bool, n: int)
    requires SlotIdsBelow(slots, n)
    ensures SlotIdsBelow(MarkUnavailable(slots, selected), n)
  {
  }

  /** Changing a duty row without changing its id keeps every duty id present. */
  lemma HasDutyKept(duties: seq<Duty>, k: nat, d: Duty)
    requires k < |duties| && d.id == duties[k].id
    ensures forall id :: HasDuty(duties, id) ==> HasDuty(duties[k := d], id)
  {
    forall id | HasDuty(duties, id) ensures HasDuty(duties[k := d], id) {
      var j :| 0 <= j < |duties| && duties[j].id == id;
      assert duties[k := d][j].id == id;
    }
  }

  // ---------------------------------------------------------------------
  // the join from a slot to its doctor

  function HasShiftId(id: int): Shift -> bool { (s: Shift) => s.id == id }
  function HasDutyId(id: int): Duty -> bool { (d: Duty) => d.id == id }

  /** `ShiftRepository.get_by_id` */
  function ShiftIndex(shifts: seq<Shift>, id: int): Option<nat> { IndexWhere(shifts, HasShiftId(id)) }

  /** `DutyRepository.get_by_id` */
  function DutyIndex(duties: seq<Duty>, id: int): Option<nat> { IndexWhere(duties, HasDutyId(id)) }

  /** `slot.shift.duty.doctor`, the join behind the `shift__duty__doctor`
      filters; None when the shift or its duty is missing. */
  function ShiftDoctor(shifts: seq<Shift>, duties: seq<Duty>, shiftId: int): Option<int> {
    var k := ShiftIndex(shifts, shiftId);
    if k.None? then None
    else
      var d := DutyIndex(duties, shifts[k.value].duty);
      if d.None? then None else Some(duties[d.value].doctor)
  }

  /** Every slot's doctor is the doctor its shift's duty names. */
  predicate DoctorsJoined(slots: seq<Slot>, shifts: seq<Shift>, duties: seq<Duty>) {
    forall s :: s in slots ==> ShiftDoctor(shifts, duties, s.shift) == Some(s.doctor)
  }

  /** The slot's shift belongs to the duty. */
  predicate OnDuty(shifts: seq<Shift>, s: Slot, dutyId: int) {
    var k := ShiftIndex(shifts, s.shift);
    k.Some? && shifts[k.value].duty == dutyId
  }

  /** The duty's slots, seen through the join once the duty names a new doctor. */
  function Restamp(slots: seq<Slot>, shifts: seq<Shift>, dutyId: int, doctor: int): (r: seq<Slot>)
    ensures |r| == |slots|
    ensures forall k :: 0 <= k < |r| ==>
      r[k] == if OnDuty(shifts, slots[k], dutyId) then slots[k].(doctor := doctor) else slots[k]
  {
    seq(|slots|, k requires 0 <= k < |slots| =>
      if OnDuty(shifts, slots[k], dutyId) then slots[k].(doctor := doctor) else slots[k])
  }

  /** Rewriting one slot without touching its shift or doctor keeps the join. */
  lemma JoinedUpdate(slots: seq<Slot>, i: nat, x: Slot, shifts: seq<Shift>, duties: seq<Duty>)
    requires DoctorsJoined(slots, shifts, duties) && i < |slots|
    requires x.shift == slots[i].shift && x.doctor == slots[i].doctor
    ensures DoctorsJoined(slots[i := x], shifts, duties)
  {
    forall s | s in slots[i := x] ensures ShiftDoctor(shifts, duties, s.shift) == Some(s.doctor) {
      var k :| 0 <= k < |slots| && slots[i := x][k] == s;
      assert slots[k] in slots;
    }
  }

  /** The availability sweep keeps the join. */
  lemma JoinedSwept(slots: seq<Slot>, selected: Slot -> bool, shifts: seq<Shift>, duties: seq<Duty>)
    requires DoctorsJoined(slots, shifts, duties)
    ensures DoctorsJoined(MarkUnavailable(slots, selected), shifts, duties)
  {
    var r := MarkUnavailable(slots, selected);
    forall s | s in r ensures ShiftDoctor(shifts, duties, s.shift) == Some(s.doctor) {
      var k :| 0 <= k < |r| && r[k] == s;
      assert slots[k] in slots;
    }
  }

  /** Dropping slots keeps the join. */
  lemma JoinedKept(slots: seq<Slot>, kept: seq<Slot>, shifts: seq<Shift>, duties: seq<Duty>)
    requires DoctorsJoined(slots, shifts, duties) && forall s :: s in kept ==> s in slots
    ensures DoctorsJoined(kept, shifts, duties)
  {
  }

  /** Slots saved for a shift under its duty's doctor keep the join. */
  lemma JoinedAppend(slots: seq<Slot>, drafts: seq<Draft>, shiftId: int, doctor: int, n: int,
                     shifts: seq<Shift>, duties: seq<Duty>)
    requires DoctorsJoined(slots, shifts, duties) && ShiftDoctor(shifts, duties, shiftId) == Some(doctor)
    ensures DoctorsJoined(slots + ToSlots(drafts, shiftId, doctor, n), shifts, duties)
  {
    var t := ToSlots(drafts, shiftId, doctor, n);
    forall s | s in slots + t ensures ShiftDoctor(shifts, duties, s.shift) == Some(s.doctor) {
      if s !in slots {
        var k :| 0 <= k < |t| && t[k] == s;
      }
    }
  }

  /** New shifts do not change which shift an existing slot belongs to. */
  lemma JoinedShiftsAppend(slots: seq<Slot>, shifts: seq<Shift>, created: seq<Shift>, duties: seq<Duty>)
    requires DoctorsJoined(slots, shifts, duties)
    ensures DoctorsJoined(slots, shifts + created, duties)
  {
    forall s | s in slots ensures ShiftDoctor(shifts + created, duties, s.shift) == Some(s.doctor) {
      IndexWhereAppend(shifts, created, HasShiftId(s.shift));
      assert (shifts + created)[ShiftIndex(shifts, s.shift).value] == shifts[ShiftIndex(shifts, s.shift).value];
    }
  }

  /** Rewriting a shift under its own id and duty keeps the join. */
  lemma JoinedShiftReplace(slots: seq<Slot>, shifts: seq<Shift>, i: nat, x: Shift, duties: seq<Duty>)
    requires DoctorsJoined(slots, shifts, duties) && i < |shifts|
    requires x.id == shifts[i].id && x.duty == shifts[i].duty
    ensures DoctorsJoined(slots, shifts[i := x], duties)
  {
    forall s | s in slots ensures ShiftDoctor(shifts[i := x], duties, s.shift) == Some(s.doctor) {
      IndexWhereSame(shifts, shifts[i := x], HasShiftId(s.shift));
    }
  }

  /** Rewriting a duty under its own id and doctor keeps the join. */
  lemma JoinedDutyReplace(slots: seq<Slot>, shifts: seq<Shift>, duties: seq<Duty>, i: nat, x: Duty)
    requires DoctorsJoined(slots, shifts, duties) && i < |duties|
    requires x.id == duties[i].id && x.doctor == duties[i].doctor
    ensures DoctorsJoined(slots, shifts, duties[i := x])
  {
    forall s | s in slots ensures ShiftDoctor(shifts, duties[i := x], s.shift) == Some(s.doctor) {
      var k := ShiftIndex(shifts, s.shift).value;
      IndexWhereSame(duties, duties[i := x], HasDutyId(shifts[k].duty));
    }
  }

  /** A duty that names a new doctor: its slots, restamped, reach the new
      doctor through the join, and every other slot keeps its doctor. */
  lemma JoinedRestamp(slots: seq<Slot>, shifts: seq<Shift>, duties: seq<Duty>, i: nat, x: Duty)
    requires DoctorsJoined(slots, shifts, duties) && i < |duties|
    requires DutyIndex(duties, duties[i].id) == Some(i) && x.id == duties[i].id
    ensures DoctorsJoined(Restamp(slots, shifts, x.id, x.doctor), shifts, duties[i := x])
  {
    var r := Restamp(slots, shifts, x.id, x.doctor);
    forall s | s in r ensures ShiftDoctor(shifts, duties[i := x], s.shift) == Some(s.doctor) {
      var k :| 0 <= k < |r| && r[k] == s;
      RestampOne(slots, shifts, duties, i, x, k);
    }
  }

  /** One slot of `JoinedRestamp`. */
  lemma RestampOne(slots: seq<Slot>, shifts: seq<Shift>, duties: seq<Duty>, i: nat, x: Duty, k: nat)
    requires DoctorsJoined(slots, shifts, duties) && i < |duties| && k < |slots|
    requires DutyIndex(duties, duties[i].id) == Some(i) && x.id == duties[i].id
    ensures var s := if OnDuty(shifts, slots[k], x.id) then slots[k].(doctor := x.doctor) else slots[k];
      ShiftDoctor(shifts, duties[i := x], s.shift) == Some(s.doctor)
  {
    assert slots[k] in slots;
    var m := ShiftIndex(shifts, slots[k].shift).value;
    IndexWhereSame(duties, duties[i := x], HasDutyId(shifts[m].duty));
  }

  datatype Reply = Reply(success: bool, message: string)

  /** What a service call can end in: a reply, or an exception that aborts the
      surrounding transaction. */
  datatype CallResult = Replied(reply: Reply) | Raised(exception: string)

  class ScheduleStore {
    var duties: seq<Duty>
    var shifts: seq<Shift>
    var slots: seq<Slot>
    var leaves: seq<Leave>
    var overrides: seq<Override>
    /** The next primary key the database hands out. */
    var nextId: int

    /** Primary keys are below `nextId`, every shift's duty exists, and each
        slot's doctor is the one its shift's duty names. */
    ghost predicate Valid()
      reads this
    {
      DutyIdsBelow(duties, nextId) && ShiftIdsBelow(shifts, nextId) && SlotIdsBelow(slots, nextId)
      && LeaveIdsBelow(leaves, nextId) && OverrideIdsBelow(overrides, nextId)
      && (forall i :: 0 <= i < |shifts| ==> HasDuty(duties, shifts[i].duty))
      && DoctorsJoined(slots, shifts, duties)
    }

    constructor ()
      ensures Valid()
      ensures duties == [] && shifts == [] && slots == [] && leaves == [] && overrides == []
    {
      duties, shifts, slots, leaves, overrides := [], [], [], [], [];
      nextId := 1;
    }

    // ----- duties

    /** `DutyService.update_duty`. The slot queries reach a slot's doctor
        through its shift's duty, so when the patch names another doctor,
        the duty's slots belong to that doctor from then on. */
    method UpdateDuty(dutyId: int, patch: DutyPatch) returns (reply: Reply, updated: Option<Duty>)
      requires Valid()
      modifies this
      ensures Valid()
      ensures unchanged(this`shifts, this`leaves, this`overrides, this`nextId)
      ensures var i := DutyIndex(old(duties), dutyId);
        if i.None? then
          reply == Reply(false, "Duty not found") && updated == None && duties == old(duties)
          && slots == old(slots)
        else
          reply == Reply(true, "Duty updated successfully")
          && updated == Some(ApplyDutyPatch(old(duties)[i.value], patch))
          && duties == old(duties)[i.value := updated.value]
          && slots == Restamp(old(slots), shifts, dutyId, updated.value.doctor)
    {
      var i := DutyIndex(duties, dutyId);
      if i.None? {
        return Reply(false, "Duty not found"), None;
      }
      var d := ApplyDutyPatch(duties[i.value], patch);
      HasDutyKept(duties, i.value, d);
      JoinedRestamp(slots, shifts, duties, i.value, d);
      duties := duties[i.value := d];
      slots := Restamp(slots, shifts, dutyId, d.doctor);
      assert DutyIdsBelow(duties, nextId) && SlotIdsBelow(slots, nextId);
      return Reply(true, "Duty updated successfully"), Some(d);
    }

    /** `DutyService.end_duty`: record the end date and deactivate. */
    method EndDuty(dutyId: int, endDate: Date) returns (reply: Reply)
      requires Valid()
      modifies this
      ensures Valid()
      ensures unchanged(this`shifts, this`slots, this`leaves, this`overrides, this`nextId)
      ensures var i := DutyIndex(old(duties), dutyId);
        if i.None? then
          reply == Reply(false, "Duty not found") && duties == old(duties)
        else
          reply == Reply(true, "Duty ended successfully")
          && duties == old(duties)[i.value := old(duties)[i.value].(endDate := Some(endDate), isActive := false)]
    {
      var i := DutyIndex(duties, dutyId);
      if i.None? {
        return Reply(false, "Duty not found");
      }
      HasDutyKept(duties, i.value, duties[i.value].(endDate := Some(endDate), isActive := false));
      JoinedDutyReplace(slots, shifts, duties, i.value, duties[i.value].(endDate := Some(endDate), isActive := false));
      duties := duties[i.value := duties[i.value].(endDate := Some(endDate), isActive := false)];
      return Reply(true, "Duty ended successfully");
    }

    /** `DutyRepository.deactivate_duty` */
    method DeactivateDuty(index: nat)
      requires Valid() && index < |duties|
      modifies this
      ensures Valid()
      ensures unchanged(this`shifts, this`slots, this`leaves, this`overrides, this`nextId)
      ensures duties == old(duties)[index := old(duties)[index].(isActive := false)]
    {
      HasDutyKept(duties, index, duties[index].(isActive := false));
      JoinedDutyReplace(slots, shifts, duties, index, duties[index].(isActive := false));
      duties := duties[index := duties[index].(isActive := false)];
    }

    // ----- shifts

    /** `ShiftService.create_multiple_shifts`: one shift per listed weekday,
        all with the same times and extra fields. */
    method CreateMultipleShifts(dutyId: int, daysOfWeek: seq<int>, startTime: Time, endTime: Time,
                                breakStart: Option<Time>, breakEnd: Option<Time>,
                                maxAppointments: int, isActive: bool)
      returns (reply: Reply, created: seq<Shift>)
      requires Valid()
      modifies this
      ensures Valid()
      ensures unchanged(this`duties, this`slots, this`leaves, this`overrides)
      ensures (forall k :: 0 <= k < |old(duties)| ==> old(duties)[k].id != dutyId) ==>
        reply == Reply(false, "Duty not found") && created == [] && shifts == old(shifts)
      ensures (exists k :: 0 <= k < |old(duties)| && old(duties)[k].id == dutyId) ==>
        reply == Reply(true, NatToString(|daysOfWeek|) + " shifts created successfully")
        && shifts == old(shifts) + created
        && |created| == |daysOfWeek|
        && forall k :: 0 <= k < |created| ==>
             created[k] == Shift(old(nextId) + k, dutyId, daysOfWeek[k], startTime, endTime,
                                 breakStart, breakEnd, maxAppointments, isActive)
    {
      var di := IndexWhere(duties, (d: Duty) => d.id == dutyId);
      if di.None? {
        return Reply(false, "Duty not found"), [];
      }
      created := [];
      var k := 0;
      while k < |daysOfWeek|
        invariant 0 <= k <= |daysOfWeek|
        invariant |created| == k
        invariant forall j :: 0 <= j < k ==>
          created[j] == Shift(nextId + j, dutyId, daysOfWeek[j], startTime, endTime,
                              breakStart, breakEnd, maxAppointments, isActive)
      {
        created := created + [Shift(nextId + k, dutyId, daysOfWeek[k], startTime, endTime,
                                    breakStart, breakEnd, maxAppointments, isActive)];
        k := k + 1;
      }
      ghost var n := nextId;
      forall j | 0 <= j < |shifts + created|
        ensures (shifts + created)[j].id < n + |created| && HasDuty(duties, (shifts + created)[j].duty)
      {
        if j >= |shifts| {
          assert (shifts + created)[j] == created[j - |shifts|];
        } else {
          assert (shifts + created)[j] == shifts[j];
        }
      }
      JoinedShiftsAppend(slots, shifts, created, duties);
      shifts := shifts + created;
      nextId := nextId + |created|;
      assert DutyIdsBelow(duties, nextId) && SlotIdsBelow(slots, nextId)
        && LeaveIdsBelow(leaves, nextId) && OverrideIdsBelow(overrides, nextId);
      reply := Reply(true, NatToString(|created|) + " shifts created successfully");
    }

    /** `ShiftService.update_shift` */
    method UpdateShift(shiftId: int, patch: ShiftPatch) returns (reply: Reply, updated: Option<Shift>)
      requires Valid()
      modifies this
      ensures Valid()
      ensures unchanged(this`duties, this`slots, this`leaves, this`overrides, this`nextId)
      ensures var i := ShiftIndex(old(shifts), shiftId);
        if i.None? then
          reply == Reply(false, "Shift not found") && updated == None && shifts == old(shifts)
        else
          reply == Reply(true, "Shift updated successfully")
          && updated == Some(ApplyShiftPatch(old(shifts)[i.value], patch))
          && shifts == old(shifts)[i.value := updated.value]
    {
      var i := ShiftIndex(shifts, shiftId);
      if i.None? {
        return Reply(false, "Shift not found"), None;
      }
      var s := ApplyShiftPatch(shifts[i.value], patch);
      JoinedShiftReplace(slots, shifts, i.value, s, duties);
      shifts := shifts[i.value := s];
      return Reply(true, "Shift updated successfully"), Some(s);
    }

    // ----- slots

    /** `AvailabilitySlotService.generate_slots_for_shift`; `today` is the
        date the active-leave query uses. When two overrides share a matching
        date, the lookup raises and the atomic call saves nothing. */
    method GenerateSlotsForShift(shiftId: int, startDate: Date, endDate: Date,
                                 slotDuration: int, today: Date)
      returns (result: CallResult, count: nat)
      requires Valid() && slotDuration > 0
      modifies this
      ensures Valid()
      ensures unchanged(this`duties, this`shifts, this`leaves, this`overrides)
      ensures var i := ShiftIndex(old(shifts), shiftId);
        if i.None? then
          result == Replied(Reply(false, "Shift not found")) && count == 0 && slots == old(slots)
        else
          var shift := old(shifts)[i.value];
          var di := DutyIndex(old(duties), shift.duty);
          di.Some?
          && var plan := Plan(shift, old(duties)[di.value].doctor, slotDuration, old(overrides), old(leaves), today);
          if RangeClash(plan, startDate, endDate) then
            result == Raised("MultipleObjectsReturned") && count == 0
            && slots == old(slots) && nextId == old(nextId)
          else
            var drafts := RangeDrafts(plan, startDate, endDate);
            count == |drafts|
            && slots == old(slots) + ToSlots(drafts, shift.id, plan.doctor, old(nextId))
            && result == Replied(Reply(true, NatToString(count) + " slots generated successfully"))
    {
      var i := ShiftIndex(shifts, shiftId);
      if i.None? {
        return Replied(Reply(false, "Shift not found")), 0;
      }
      var shift := shifts[i.value];
      var di := DutyIndex(duties, shift.duty);
      assert exists k :: 0 <= k < |duties| && HasDutyId(shift.duty)(duties[k]);
      var plan := Plan(shift, duties[di.value].doctor, slotDuration, overrides, leaves, today);
      var drafts := DraftSlots(plan, startDate, endDate);
      if drafts.Failure? {
        return Raised(drafts.error), 0;
      }
      assert ShiftDoctor(shifts, duties, shift.id) == Some(plan.doctor);
      SaveSlots(drafts.value, shift.id, plan.doctor);
      count := |drafts.value|;
      result := Replied(Reply(true, NatToString(count) + " slots generated successfully"));
    }

    /** `bulk_create_slots`: saves the drafts under fresh ids. */
    method SaveSlots(drafts: seq<Draft>, shiftId: int, doctor: int)
      requires Valid() && ShiftDoctor(shifts, duties, shiftId) == Some(doctor)
      modifies this`slots, this`nextId
      ensures Valid()
      ensures slots == old(slots) + ToSlots(drafts, shiftId, doctor, old(nextId))
      ensures nextId == old(nextId) + |drafts|
    {
      ToSlotsBelow(slots, drafts, shiftId, doctor, nextId);
      JoinedAppend(slots, drafts, shiftId, doctor, nextId, shifts, duties);
      slots := slots + ToSlots(drafts, shiftId, doctor, nextId);
      nextId := nextId + |drafts|;
      assert DutyIdsBelow(duties, nextId) && ShiftIdsBelow(shifts, nextId)
        && LeaveIdsBelow(leaves, nextId) && OverrideIdsBelow(overrides, nextId);
    }

    /** `AvailabilitySlotService.get_doctor_availability`: per-date counts of
        the doctor's slots in the range, the doctor reached through each
        slot's shift and duty; keys are the dates that have slots. */
    method DoctorAvailability(doctor: int, startDate: Date, endDate: Date) returns (m: map<Date, DayCounts>)
      requires Valid()
      ensures m == ByDate(SlotsInRange(slots, doctor, startDate, endDate))
      ensures forall s :: s in SlotsInRange(slots, doctor, startDate, endDate) <==>
        s in slots && ShiftDoctor(shifts, duties, s.shift) == Some(doctor) && startDate <= s.date <= endDate
    {
      m := CountByDate(SlotsInRange(slots, doctor, startDate, endDate));
    }

    /** `AvailabilitySlotService.book_slot`; the appointment link is not kept. */
    method BookSlot(slotId: int, patient: int) returns (reply: Reply)
      requires Valid()
      modifies this
      ensures Valid()
      ensures unchanged(this`duties, this`shifts, this`leaves, this`overrides, this`nextId)
      ensures var i := IndexWhere(old(slots), (s: Slot) => s.id == slotId);
        if i.None? then reply == Reply(false, "Slot not found") && slots == old(slots)
        else if !old(slots)[i.value].isAvailable || old(slots)[i.value].isBooked then
          reply == Reply(false, "Slot is not available for booking") && slots == old(slots)
        else
          reply == Reply(true, "Slot booked successfully")
          && slots == old(slots)[i.value := old(slots)[i.value].(isBooked := true, bookedBy := Some(patient))]
    {
      var i := IndexWhere(slots, (s: Slot) => s.id == slotId);
      if i.None? {
        return Reply(false, "Slot not found");
      }
      var slot := slots[i.value];
      if !slot.isAvailable || slot.isBooked {
        return Reply(false, "Slot is not available for booking");
      }
      PutSlot(i.value, slot.(isBooked := true, bookedBy := Some(patient)));
      return Reply(true, "Slot booked successfully");
    }

    /** `AvailabilitySlotService.cancel_slot_booking` */
    method CancelSlotBooking(slotId: int) returns (reply: Reply)
      requires Valid()
      modifies this
      ensures Valid()
      ensures unchanged(this`duties, this`shifts, this`leaves, this`overrides, this`nextId)
      ensures var i := IndexWhere(old(slots), (s: Slot) => s.id == slotId);
        if i.None? then reply == Reply(false, "Slot not found") && slots == old(slots)
        else if !old(slots)[i.value].isBooked then
          reply == Reply(false, "Slot is not booked") && slots == old(slots)
        else
          reply == Reply(true, "Booking cancelled successfully")
          && slots == old(slots)[i.value := old(slots)[i.value].(isBooked := false, bookedBy := None)]
    {
      var i := IndexWhere(slots, (s: Slot) => s.id == slotId);
      if i.None? {
        return Reply(false, "Slot not found");
      }
      var slot := slots[i.value];
      if !slot.isBooked {
        return Reply(false, "Slot is not booked");
      }
      PutSlot(i.value, slot.(isBooked := false, bookedBy := None));
      return Reply(true, "Booking cancelled successfully");
    }

    /** Saves a slot row in place; its id, shift and doctor stay. */
    method PutSlot(i: nat, x: Slot)
      requires Valid() && i < |slots|
      requires x.id == slots[i].id && x.shift == slots[i].shift && x.doctor == slots[i].doctor
      modifies this`slots
      ensures Valid()
      ensures slots == old(slots)[i := x]
    {
      JoinedUpdate(slots, i, x, shifts, duties);
      slots := slots[i := x];
      assert SlotIdsBelow(slots, nextId);
    }

    /** `AvailabilitySlotRepository.delete_future_slots` */
    method DeleteFutureSlots(shiftId: int, fromDate: Date) returns (deleted: nat)
      requires Valid()
      modifies this
      ensures Valid()
      ensures unchanged(this`duties, this`shifts, this`leaves, this`overrides, this`nextId)
      ensures (slots, deleted) == ScheduleQueries.DeleteFutureSlots(old(slots), shiftId, fromDate)
    {
      var r := ScheduleQueries.DeleteFutureSlots(slots, shiftId, fromDate);
      JoinedKept(slots, r.0, shifts, duties);
      slots, deleted := r.0, r.1;
    }

    // ----- leaves

    /** `DoctorLeaveService.request_leave`; a new leave is PENDING. */
    method RequestLeave(doctor: int, leaveType: string, startDate: Date, endDate: Date, reason: string)
      returns (reply: Reply, leave: Option<Leave>)
      requires Valid()
      modifies this
      ensures Valid()
      ensures unchanged(this`duties, this`shifts, this`slots, this`overrides)
      ensures LeaveOverlap(old(leaves), doctor, startDate, endDate, None) ==>
        reply == Reply(false, "Leave request overlaps with existing leave") && leave == None
        && leaves == old(leaves)
      ensures !LeaveOverlap(old(leaves), doctor, startDate, endDate, None) ==>
        reply == Reply(true, "Leave request submitted successfully")
        && leave == Some(Leave(old(nextId), doctor, leaveType, startDate, endDate, reason, Pending, None, ""))
        && leaves == old(leaves) + [leave.value]
    {
      if LeaveOverlap(leaves, doctor, startDate, endDate, None) {
        return Reply(false, "Leave request overlaps with existing leave"), None;
      }
      var l := Leave(nextId, doctor, leaveType, startDate, endDate, reason, Pending, None, "");
      leaves := leaves + [l];
      nextId := nextId + 1;
      return Reply(true, "Leave request submitted successfully"), Some(l);
    }

    /** `DoctorLeaveService.approve_leave` as intended: approve a pending
        leave, then make the doctor's unbooked slots in the leave dates
        unavailable (`DoctorLeaveService._handle_leave_slots`). */
    method ApproveLeave(leaveId: int, approvedBy: int, notes: string) returns (reply: Reply)
      requires Valid()
      modifies this
      ensures Valid()
      ensures unchanged(this`duties, this`shifts, this`overrides, this`nextId)
      ensures var i := IndexWhere(old(leaves), (l: Leave) => l.id == leaveId);
        if i.None? then
          reply == Reply(false, "Leave request not found") && leaves == old(leaves) && slots == old(slots)
        else if old(leaves)[i.value].status != Pending then
          reply == Reply(false, "Only pending leave requests can be approved")
          && leaves == old(leaves) && slots == old(slots)
        else
          var approved := ApproveLeaveRecord(old(leaves)[i.value], approvedBy, notes);
          reply == Reply(true, "Leave request approved")
          && leaves == old(leaves)[i.value := approved]
          && slots == MarkUnavailable(old(slots), CoveredBy(approved))
    {
      var i := IndexWhere(leaves, (l: Leave) => l.id == leaveId);
      if i.None? {
        return Reply(false, "Leave request not found");
      }
      if leaves[i.value].status != Pending {
        return Reply(false, "Only pending leave requests can be approved");
      }
      var approved := ApproveLeaveRecord(leaves[i.value], approvedBy, notes);
      leaves := leaves[i.value := approved];
      SweepWhere(CoveredBy(approved));
      return Reply(true, "Leave request approved");
    }

    /** `DoctorLeaveService.approve_leave` as written: after the approval it
        calls `AvailabilitySlotService._handle_leave_slots`, which does not
        exist, so every approval of a pending leave raises AttributeError and
        the atomic transaction discards the approval. */
    method ApproveLeaveAsWritten(leaveId: int, approvedBy: int, notes: string) returns (result: CallResult)
      requires Valid()
      modifies this
      ensures Valid()
      ensures unchanged(this`duties, this`shifts, this`overrides, this`nextId, this`slots)
      ensures var i := IndexWhere(old(leaves), (l: Leave) => l.id == leaveId);
        if i.None? then result == Replied(Reply(false, "Leave request not found")) && leaves == old(leaves)
        else if old(leaves)[i.value].status != Pending then
          result == Replied(Reply(false, "Only pending leave requests can be approved"))
          && leaves == old(leaves)
        else
          result == Raised("AttributeError") && leaves == old(leaves)
    {
      var i := IndexWhere(leaves, (l: Leave) => l.id == leaveId);
      if i.None? {
        return Replied(Reply(false, "Leave request not found"));
      }
      if leaves[i.value].status != Pending {
        return Replied(Reply(false, "Only pending leave requests can be approved"));
      }
      var saved := leaves;
      leaves := leaves[i.value := ApproveLeaveRecord(leaves[i.value], approvedBy, notes)];
      // the sweep is looked up on the wrong class: the call raises and the
      // transaction rolls the approval back
      leaves := saved;
      return Raised("AttributeError");
    }

    /** `DoctorLeaveService.reject_leave` */
    method RejectLeave(leaveId: int, rejectedBy: int, notes: string) returns (reply: Reply)
      requires Valid()
      modifies this
      ensures Valid()
      ensures unchanged(this`duties, this`shifts, this`slots, this`overrides, this`nextId)
      ensures var i := IndexWhere(old(leaves), (l: Leave) => l.id == leaveId);
        if i.None? then reply == Reply(false, "Leave request not found") && leaves == old(leaves)
        else if old(leaves)[i.value].status != Pending then
          reply == Reply(false, "Only pending leave requests can be rejected") && leaves == old(leaves)
        else
          reply == Reply(true, "Leave request rejected")
          && leaves == old(leaves)[i.value := RejectLeaveRecord(old(leaves)[i.value], rejectedBy, notes)]
    {
      var i := IndexWhere(leaves, (l: Leave) => l.id == leaveId);
      if i.None? {
        return Reply(false, "Leave request not found");
      }
      if leaves[i.value].status != Pending {
        return Reply(false, "Only pending leave requests can be rejected");
      }
      leaves := leaves[i.value := RejectLeaveRecord(leaves[i.value], rejectedBy, notes)];
      return Reply(true, "Leave request rejected");
    }

    /** `DoctorLeaveRepository.cancel_leave`: only the status changes. */
    method CancelLeave(index: nat)
      requires Valid() && index < |leaves|
      modifies this
      ensures Valid()
      ensures unchanged(this`duties, this`shifts, this`slots, this`overrides, this`nextId)
      ensures leaves == old(leaves)[index := CancelLeaveRecord(old(leaves)[index])]
    {
      leaves := leaves[index := CancelLeaveRecord(leaves[index])];
    }

    // ----- overrides

    /** `ScheduleOverrideService.create_override`: refused when the doctor
        already has an override for the date; an unavailable override makes
        that date's open slots unavailable. The existence check is a `.get`,
        which raises when the doctor already has two overrides for the date;
        the atomic call then changes nothing. */
    method CreateOverride(doctor: int, date: Date, isAvailable: bool, reason: string, createdBy: int,
                          customStart: Option<Time>, customEnd: Option<Time>)
      returns (result: CallResult, created: Option<Override>)
      requires Valid()
      modifies this
      ensures Valid()
      ensures old(OverridePairsUnique(overrides)) ==> OverridePairsUnique(overrides)
      ensures unchanged(this`duties, this`shifts, this`leaves)
      ensures var lookup := OverrideLookup(old(overrides), doctor, date);
        if lookup.Failure? then
          result == Raised("MultipleObjectsReturned") && created == None
          && overrides == old(overrides) && slots == old(slots) && nextId == old(nextId)
        else if lookup.value.Some? then
          result == Replied(Reply(false, "Override already exists for this date")) && created == None
          && overrides == old(overrides) && slots == old(slots) && nextId == old(nextId)
        else
          result == Replied(Reply(true, "Schedule override created successfully"))
          && created == Some(Override(old(nextId), doctor, date, isAvailable, reason, createdBy, customStart, customEnd))
          && overrides == old(overrides) + [created.value]
          && slots == (if isAvailable then old(slots)
                       else MarkUnavailable(old(slots), OpenOn(doctor, date)))
    {
      var lookup := OverrideLookup(overrides, doctor, date);
      if lookup.Failure? {
        return Raised(lookup.error), None;
      }
      if lookup.value.Some? {
        return Replied(Reply(false, "Override already exists for this date")), None;
      }
      var o := Override(nextId, doctor, date, isAvailable, reason, createdBy, customStart, customEnd);
      if OverridePairsUnique(overrides) {
        OverrideAppendUnique(overrides, o);
      }
      AddOverrideRow(o);
      if !isAvailable {
        SweepWhere(OpenOn(doctor, date));
      }
      return Replied(Reply(true, "Schedule override created successfully")), Some(o);
    }

    /** Stores a new override row under the next id. */
    method AddOverrideRow(o: Override)
      requires Valid() && o.id == nextId
      modifies this`overrides, this`nextId
      ensures Valid()
      ensures overrides == old(overrides) + [o] && nextId == old(nextId) + 1
    {
      overrides := overrides + [o];
      nextId := nextId + 1;
    }

    /** Makes the selected unbooked slots unavailable. */
    method SweepWhere(selected: Slot -> bool)
      requires Valid()
      modifies this`slots
      ensures Valid()
      ensures slots == MarkUnavailable(old(slots), selected)
    {
      SweptIdsBelow(slots, selected, nextId);
      JoinedSwept(slots, selected, shifts, duties);
      slots := SweepSlots(slots, selected);
    }

    /** `ScheduleOverrideService.update_override` */
    method UpdateOverride(overrideId: int, patch: OverridePatch) returns (reply: Reply, updated: Option<Override>)
      requires Valid()
      modifies this
      ensures Valid()
      ensures unchanged(this`duties, this`shifts, this`slots, this`leaves, this`nextId)
      ensures var i := IndexWhere(old(overrides), (o: Override) => o.id == overrideId);
        if i.None? then
          reply == Reply(false, "Override not found") && updated == None && overrides == old(overrides)
        else
          reply == Reply(true, "Override updated successfully")
          && updated == Some(ApplyOverridePatch(old(overrides)[i.value], patch))
          && overrides == old(overrides)[i.value := updated.value]
    {
      var i := IndexWhere(overrides, (o: Override) => o.id == overrideId);
      if i.None? {
        return Reply(false, "Override not found"), None;
      }
      var o := ApplyOverridePatch(overrides[i.value], patch);
      overrides := overrides[i.value := o];
      return Reply(true, "Override updated successfully"), Some(o);
    }
  }

  /** An unavailable override leaves none of that date's unbooked slots of the
      doctor available, and touches no booked slot and no other date. */
  lemma OverrideSweepEffect(slots: seq<Slot>, doctor: int, date: Date, i: nat)
    requires i < |slots|
    ensures var r := MarkUnavailable(slots, OpenOn(doctor, date));
      (slots[i].isBooked ==> r[i] == slots[i])
      && (slots[i].doctor == doctor && slots[i].date == date && !slots[i].isBooked ==> !r[i].isAvailable)
      && (slots[i].date != date || slots[i].doctor != doctor ==> r[i] == slots[i])
  {
  }

  /** `update_override` checks nothing about the new date: moving one of a
      doctor's overrides onto the date of another leaves two overrides for
      that date, and every later lookup for it raises. */
  lemma PatchedDateClash(overrides: seq<Override>, i: nat, j: nat, p: OverridePatch)
    requires i < |overrides| && j < |overrides| && i != j
    requires overrides[i].doctor == overrides[j].doctor && p.date == Some(overrides[j].date)
    ensures var moved := overrides[i := ApplyOverridePatch(overrides[i], p)];
      OverrideLookup(moved, overrides[j].doctor, overrides[j].date) == Failure("MultipleObjectsReturned")
  {
    var moved := overrides[i := ApplyOverridePatch(overrides[i], p)];
    var a, b := if i < j then i else j, if i < j then j else i;
    assert IsOverrideFor(moved[a], overrides[j].doctor, overrides[j].date)
        && IsOverrideFor(moved[b], overrides[j].doctor, overrides[j].date);
  }
}
