/** Appointments (appointments/services.py over appointments/repositories.py
    and appointments/models.py). Times are minutes on one clock and users
    are compared by id. The table keeps the model's `unique_together` on
    (doctor, scheduled_time): a save that would break it raises
    IntegrityError and leaves the table as it was. */
module Appointments {
  import opened Base
  import opened Access

  /** `AppointmentStatus` */
  datatype AppointmentStatus = Pending | Confirmed | Cancelled | Completed

  /** The stored value of each status. */
  function StatusValue(s: AppointmentStatus): (r: string)
    ensures r != ""
  {
    match s
    case Pending => "pending"
    case Confirmed => "confirmed"
    case Cancelled => "cancelled"
    case Completed => "completed"
  }

  lemma StatusValuesDistinct(a: AppointmentStatus, b: AppointmentStatus)
    ensures StatusValue(a) == StatusValue(b) <==> a == b
  {
  }

  datatype Appointment = Appointment(
    id: int, patient: int, doctor: int, scheduledTime: int,
    status: AppointmentStatus, reason: Option<string>, createdAt: int)

  /** Ids grow strictly along the table and stay below the next id. */
  predicate IdsBelow(rows: seq<Appointment>, nextId: int) {
    (forall k :: 0 <= k < |rows| ==> rows[k].id < nextId)
    && (forall i, j :: 0 <= i < j < |rows| ==> rows[i].id < rows[j].id)
  }

  /** `unique_together = ('doctor', 'scheduled_time')` */
  predicate NoDoubleBooking(rows: seq<Appointment>) {
    forall i, j :: 0 <= i < j < |rows| ==>
      !(rows[i].doctor == rows[j].doctor && rows[i].scheduledTime == rows[j].scheduledTime)
  }

  /** Some row other than `skip` already holds this doctor and time. */
  predicate Clashes(rows: seq<Appointment>, doctor: int, time: int, skip: int) {
    exists k :: 0 <= k < |rows| && k != skip && rows[k].doctor == doctor && rows[k].scheduledTime == time
  }

  /** `AppointmentRepository.get_by_id`: the row with that id, if any. */
  function Find(rows: seq<Appointment>, id: int): (r: Option<nat>)
    ensures r.Some? ==> r.value < |rows| && rows[r.value].id == id
    ensures r.None? <==> forall k :: 0 <= k < |rows| ==> rows[k].id != id
  {
    IndexWhere(rows, (a: Appointment) => a.id == id)
  }

  /** With strictly growing ids the row found is the only one with that id. */
  lemma FindUnique(rows: seq<Appointment>, nextId: int, id: int, k: nat)
    requires IdsBelow(rows, nextId) && k < |rows| && rows[k].id == id
    ensures Find(rows, id) == Some(k)
  {
    forall j | 0 <= j < |rows| && j != k
      ensures rows[j].id != id
    {
      if j > k {
        assert rows[k].id < rows[j].id;
      }
    }
  }

  /** The patient or the doctor of the appointment. */
  predicate Involved(a: Appointment, user: Requester) {
    IsUser(user, a.patient) || IsUser(user, a.doctor)
  }

  /** In a consistent table a row's own doctor and time are held by no other row. */
  lemma NoClashWithSelf(rows: seq<Appointment>, i: nat)
    requires NoDoubleBooking(rows) && i < |rows|
    ensures !Clashes(rows, rows[i].doctor, rows[i].scheduledTime, i)
  {
    forall k | 0 <= k < |rows| && k != i
      ensures !(rows[k].doctor == rows[i].doctor && rows[k].scheduledTime == rows[i].scheduledTime)
    {
      if k > i {
        assert !(rows[i].doctor == rows[k].doctor && rows[i].scheduledTime == rows[k].scheduledTime);
      }
    }
  }

  /** The appointment with a new time, if that time is free for its doctor. */
  lemma RescheduleKeepsTable(rows: seq<Appointment>, nextId: int, i: nat, a: Appointment)
    requires IdsBelow(rows, nextId) && NoDoubleBooking(rows) && i < |rows|
    requires a.id == rows[i].id && a.doctor == rows[i].doctor
    requires !Clashes(rows, a.doctor, a.scheduledTime, i)
    ensures IdsBelow(rows[i := a], nextId) && NoDoubleBooking(rows[i := a])
  {
    var rows' := rows[i := a];
    forall p, q | 0 <= p < q < |rows'|
      ensures !(rows'[p].doctor == rows'[q].doctor && rows'[p].scheduledTime == rows'[q].scheduledTime)
    {
      if p == i {
        assert rows'[q] == rows[q];
      } else if q == i {
        assert rows'[p] == rows[p];
      } else {
        assert rows'[p] == rows[p] && rows'[q] == rows[q];
      }
    }
  }

  /** A new row with a fresh id and a free time keeps the table consistent. */
  lemma AppendKeepsTable(rows: seq<Appointment>, nextId: int, a: Appointment)
    requires IdsBelow(rows, nextId) && NoDoubleBooking(rows)
    requires a.id == nextId && !Clashes(rows, a.doctor, a.scheduledTime, -1)
    ensures IdsBelow(rows + [a], nextId + 1) && NoDoubleBooking(rows + [a])
  {
    var rows' := rows + [a];
    forall p, q | 0 <= p < q < |rows'|
      ensures !(rows'[p].doctor == rows'[q].doctor && rows'[p].scheduledTime == rows'[q].scheduledTime)
      ensures rows'[p].id < rows'[q].id
    {
      assert rows'[p] == rows[p];
      if q < |rows| {
        assert rows'[q] == rows[q];
      }
    }
  }

  /** `AppointmentRepository.get_upcoming`'s filter: the user is the
      patient and the time is not before `now`. */
  function UpcomingFor(user: int, now: int): Appointment -> bool {
    (a: Appointment) => a.patient == user && a.scheduledTime >= now
  }

  function ScheduledTime(a: Appointment): int { a.scheduledTime }

  /** `AppointmentService.get_upcoming_appointments`: the appointments the
      user holds as patient at or after `now`, each as often as stored,
      earliest first. The status is not looked at, so cancelled ones are
      listed too, and appointments the user holds as doctor are not. */
  function UpcomingAppointments(rows: seq<Appointment>, user: int, now: int): (r: seq<Appointment>)
    ensures SortedBy(r, ScheduledTime)
    ensures forall x :: multiset(r)[x] == if x.patient == user && x.scheduledTime >= now then multiset(rows)[x] else 0
  {
    var r := SortBy(Filter(rows, UpcomingFor(user, now)), ScheduledTime);
    forall x ensures multiset(r)[x] == if x.patient == user && x.scheduledTime >= now then multiset(rows)[x] else 0 {
      FilterMultiset(rows, UpcomingFor(user, now), x);
    }
    r
  }

  class AppointmentBook {
    var appointments: seq<Appointment>
    var nextId: int

    ghost predicate Valid()
      reads this
    {
      IdsBelow(appointments, nextId) && NoDoubleBooking(appointments)
    }

    constructor ()
      ensures Valid() && appointments == []
    {
      appointments := [];
      nextId := 1;
    }

    /** `AppointmentService.create_appointment`: a new row in status
        pending, unless the doctor already has an appointment at that time. */
    method CreateAppointment(patient: int, doctor: int, scheduledTime: int, reason: Option<string>, now: int)
      returns (r: Result<Appointment>)
      requires Valid()
      modifies this
      ensures Valid()
      ensures Clashes(old(appointments), doctor, scheduledTime, -1) ==>
        r == Failure("IntegrityError") && appointments == old(appointments) && nextId == old(nextId)
      ensures !Clashes(old(appointments), doctor, scheduledTime, -1) ==>
        r == Success(Appointment(old(nextId), patient, doctor, scheduledTime, Pending, reason, now))
        && appointments == old(appointments) + [r.value] && nextId == old(nextId) + 1
    {
      if Clashes(appointments, doctor, scheduledTime, -1) {
        return Failure("IntegrityError");
      }
      var a := Appointment(nextId, patient, doctor, scheduledTime, Pending, reason, now);
      AppendKeepsTable(appointments, nextId, a);
      appointments := appointments + [a];
      nextId := nextId + 1;
      return Success(a);
    }

    /** `AppointmentService.cancel_appointment`: only the patient or the
        doctor may cancel, and any status may be cancelled; otherwise None
        and nothing changes. */
    method CancelAppointment(id: int, user: Requester) returns (r: Option<Appointment>)
      requires Valid()
      modifies this`appointments
      ensures Valid()
      ensures var i := Find(old(appointments), id);
        if i.Some? && Involved(old(appointments)[i.value], user) then
          r == Some(old(appointments)[i.value].(status := Cancelled))
          && appointments == old(appointments)[i.value := r.value]
        else
          r == None && appointments == old(appointments)
    {
      var i := Find(appointments, id);
      if i.None? || !Involved(appointments[i.value], user) {
        return None;
      }
      var a := appointments[i.value].(status := Cancelled);
      NoClashWithSelf(appointments, i.value);
      RescheduleKeepsTable(appointments, nextId, i.value, a);
      appointments := appointments[i.value := a];
      return Some(a);
    }

    /** `AppointmentService.reschedule_appointment`: only a pending
        appointment moves, and only its time changes; a time the doctor
        already holds raises IntegrityError. */
    method RescheduleAppointment(id: int, newTime: int) returns (r: Result<Option<Appointment>>)
      requires Valid()
      modifies this`appointments
      ensures Valid()
      ensures var i := Find(old(appointments), id);
        if i.None? || old(appointments)[i.value].status != Pending then
          r == Success(None) && appointments == old(appointments)
        else if Clashes(old(appointments), old(appointments)[i.value].doctor, newTime, i.value) then
          r == Failure("IntegrityError") && appointments == old(appointments)
        else
          r == Success(Some(old(appointments)[i.value].(scheduledTime := newTime)))
          && appointments == old(appointments)[i.value := r.value.value]
    {
      var i := Find(appointments, id);
      if i.None? || appointments[i.value].status != Pending {
        return Success(None);
      }
      var a := appointments[i.value].(scheduledTime := newTime);
      if Clashes(appointments, a.doctor, newTime, i.value) {
        return Failure("IntegrityError");
      }
      RescheduleKeepsTable(appointments, nextId, i.value, a);
      appointments := appointments[i.value := a];
      return Success(Some(a));
    }
  }
}
