/** Patients (patients/services.py over patients/repositories.py and
    patients/models.py): one profile per user, created on first use; a set
    of saved doctors per profile; uploaded medical records. An uploaded file
    is its name and size in bytes. */
module Patients {
  import opened Base

  datatype Profile = Profile(id: int, user: int)

  datatype SavedDoctor = SavedDoctor(id: int, patient: int, doctorId: int, savedAt: int)

  datatype MedicalRecord = MedicalRecord(
    id: int, patient: int, title: string, file: string, notes: string, uploadedAt: int)

  /** The upload limit, 10 * 1024 * 1024 bytes. */
  const MaxUploadBytes: nat := 10 * 1024 * 1024

  /** The size check of `upload_medical_record`. */
  function UploadCheck(size: nat): (r: Outcome)
    ensures r == Pass <==> size <= 10485760
    ensures r.Fail? ==> r.message == "File too large (max 10MB)"
  {
    if size > MaxUploadBytes then Fail("File too large (max 10MB)") else Pass
  }

  /** Exactly 10 MiB passes; one byte more does not. */
  lemma UploadBoundary()
    ensures UploadCheck(10485760) == Pass
    ensures UploadCheck(10485761).Fail?
  {
  }

  /** The profile of a user, if it exists (`OneToOneField(user)`). */
  function ProfileOf(profiles: seq<Profile>, user: int): (r: Option<nat>)
    ensures r.Some? ==> r.value < |profiles| && profiles[r.value].user == user
    ensures r.None? <==> forall k :: 0 <= k < |profiles| ==> profiles[k].user != user
  {
    IndexWhere(profiles, (p: Profile) => p.user == user)
  }

  /** The saved-doctor row of a profile and doctor, if any. */
  function SavedIndex(saved: seq<SavedDoctor>, patient: int, doctorId: int): (r: Option<nat>)
    ensures r.Some? ==> r.value < |saved| && saved[r.value].patient == patient && saved[r.value].doctorId == doctorId
    ensures r.None? <==> forall k :: 0 <= k < |saved| ==> !(saved[k].patient == patient && saved[k].doctorId == doctorId)
  {
    IndexWhere(saved, (s: SavedDoctor) => s.patient == patient && s.doctorId == doctorId)
  }

  function NotSaved(patient: int, doctorId: int): SavedDoctor -> bool {
    (s: SavedDoctor) => !(s.patient == patient && s.doctorId == doctorId)
  }

  /** `remove_saved_doctor`: the rows of other profiles and other doctors. */
  function Unsaved(saved: seq<SavedDoctor>, patient: int, doctorId: int): (r: seq<SavedDoctor>)
    ensures forall s :: s in r <==> s in saved && !(s.patient == patient && s.doctorId == doctorId)
  {
    Filter(saved, NotSaved(patient, doctorId))
  }

  /** The doctors a profile has saved, as a set. */
  function SavedDoctorsOf(saved: seq<SavedDoctor>, patient: int): (r: set<int>)
    ensures forall d :: d in r <==> exists k :: 0 <= k < |saved| && saved[k].patient == patient && saved[k].doctorId == d
  {
    set k | 0 <= k < |saved| && saved[k].patient == patient :: saved[k].doctorId
  }

  /** Saving adds the doctor to the profile's set and touches no other set;
      removing takes it out. */
  lemma SavedSetLaws(saved: seq<SavedDoctor>, s: SavedDoctor, patient: int, doctorId: int)
    ensures SavedDoctorsOf(saved + [s], s.patient) == SavedDoctorsOf(saved, s.patient) + {s.doctorId}
    ensures patient != s.patient ==> SavedDoctorsOf(saved + [s], patient) == SavedDoctorsOf(saved, patient)
    ensures SavedDoctorsOf(Unsaved(saved, patient, doctorId), patient) == SavedDoctorsOf(saved, patient) - {doctorId}
  {
    SavedAdd(saved, s, s.patient);
    SavedAdd(saved, s, patient);
    SavedRemove(saved, patient, doctorId);
  }

  /** Appending a row adds its doctor to its own profile's set and leaves
      the others. */
  lemma SavedAdd(saved: seq<SavedDoctor>, s: SavedDoctor, patient: int)
    ensures SavedDoctorsOf(saved + [s], patient)
      == SavedDoctorsOf(saved, patient) + (if patient == s.patient then {s.doctorId} else {})
  {
    var t := saved + [s];
    assert t[|saved|] == s;
    forall d | d in SavedDoctorsOf(saved, patient) ensures d in SavedDoctorsOf(t, patient) {
      var k :| 0 <= k < |saved| && saved[k].patient == patient && saved[k].doctorId == d;
      assert t[k] == saved[k];
    }
    forall d | d in SavedDoctorsOf(t, patient) && d !in SavedDoctorsOf(saved, patient)
      ensures patient == s.patient && d == s.doctorId
    {
      var k :| 0 <= k < |t| && t[k].patient == patient && t[k].doctorId == d;
      if k < |saved| {
        assert t[k] == saved[k];
      }
    }
  }

  /** Removing a (profile, doctor) pair takes exactly that doctor out of the
      profile's set. */
  lemma SavedRemove(saved: seq<SavedDoctor>, patient: int, doctorId: int)
    ensures SavedDoctorsOf(Unsaved(saved, patient, doctorId), patient) == SavedDoctorsOf(saved, patient) - {doctorId}
  {
    var u := Unsaved(saved, patient, doctorId);
    forall d | d in SavedDoctorsOf(u, patient) ensures d in SavedDoctorsOf(saved, patient) - {doctorId} {
      var k :| 0 <= k < |u| && u[k].patient == patient && u[k].doctorId == d;
      assert u[k] in u;
      var j :| 0 <= j < |saved| && saved[j] == u[k];
    }
    forall d | d in SavedDoctorsOf(saved, patient) - {doctorId} ensures d in SavedDoctorsOf(u, patient) {
      var k :| 0 <= k < |saved| && saved[k].patient == patient && saved[k].doctorId == d;
      assert saved[k] in u;
      var j :| 0 <= j < |u| && u[j] == saved[k];
    }
  }

  /** A profile's records newest first (`order_by('-uploaded_at')`). */
  predicate NewestFirst(s: seq<MedicalRecord>) {
    forall i, j :: 0 <= i < j < |s| ==> s[i].uploadedAt >= s[j].uploadedAt
  }

  function Age(r: MedicalRecord): int { -r.uploadedAt }

  function OfPatient(patient: int): MedicalRecord -> bool {
    (r: MedicalRecord) => r.patient == patient
  }

  /** `list_medical_records`: the profile's records, each as often as stored, newest first. */
  function RecordsOf(records: seq<MedicalRecord>, patient: int): (r: seq<MedicalRecord>)
    ensures NewestFirst(r)
    ensures forall x :: multiset(r)[x] == if x.patient == patient then multiset(records)[x] else 0
  {
    var r := SortBy(Filter(records, OfPatient(patient)), Age);
    assert SortedBy(r, Age);
    forall x ensures multiset(r)[x] == if x.patient == patient then multiset(records)[x] else 0 {
      FilterMultiset(records, OfPatient(patient), x);
    }
    r
  }

  /** Each user has at most one profile. */
  predicate OneProfilePerUser(profiles: seq<Profile>) {
    forall i, j :: 0 <= i < j < |profiles| ==> profiles[i].user != profiles[j].user
  }

  /** `unique_together = ('patient', 'doctor_id')` */
  predicate SavedUnique(saved: seq<SavedDoctor>) {
    forall i, j :: 0 <= i < j < |saved| ==>
      !(saved[i].patient == saved[j].patient && saved[i].doctorId == saved[j].doctorId)
  }

  lemma {:induction false} UnsavedUnique(saved: seq<SavedDoctor>, patient: int, doctorId: int)
    requires SavedUnique(saved)
    ensures SavedUnique(Unsaved(saved, patient, doctorId))
    decreases |saved|
  {
    if saved != [] {
      SavedUniqueTail(saved);
      UnsavedUnique(saved[1..], patient, doctorId);
      var rest := Unsaved(saved[1..], patient, doctorId);
      if NotSaved(patient, doctorId)(saved[0]) {
        forall k | 0 <= k < |rest|
          ensures !(rest[k].patient == saved[0].patient && rest[k].doctorId == saved[0].doctorId)
        {
          assert rest[k] in rest;
          HeadKeyAbsent(saved, rest[k]);
        }
        SavedUniqueCons(saved[0], rest);
        assert Unsaved(saved, patient, doctorId) == [saved[0]] + rest;
      } else {
        assert Unsaved(saved, patient, doctorId) == rest;
      }
    }
  }

  /** A row whose pair no row of a unique table has can go in front of it. */
  lemma SavedUniqueCons(x: SavedDoctor, rest: seq<SavedDoctor>)
    requires SavedUnique(rest)
    requires forall k :: 0 <= k < |rest| ==> !(rest[k].patient == x.patient && rest[k].doctorId == x.doctorId)
    ensures SavedUnique([x] + rest)
  {
    var r := [x] + rest;
    forall i, j | 0 <= i < j < |r|
      ensures !(r[i].patient == r[j].patient && r[i].doctorId == r[j].doctorId)
    {
      assert r[j] == rest[j - 1];
      if i > 0 {
        assert r[i] == rest[i - 1];
      }
    }
  }

  lemma SavedUniqueTail(saved: seq<SavedDoctor>)
    requires SavedUnique(saved) && saved != []
    ensures SavedUnique(saved[1..])
  {
    var t := saved[1..];
    forall a, b | 0 <= a < b < |t|
      ensures !(t[a].patient == t[b].patient && t[a].doctorId == t[b].doctorId)
    {
      assert t[a] == saved[a + 1] && t[b] == saved[b + 1];
    }
  }

  /** No later row shares the first row's key. */
  lemma HeadKeyAbsent(saved: seq<SavedDoctor>, y: SavedDoctor)
    requires SavedUnique(saved) && saved != [] && y in saved[1..]
    ensures !(y.patient == saved[0].patient && y.doctorId == saved[0].doctorId)
  {
    var k :| 0 <= k < |saved[1..]| && saved[1..][k] == y;
    assert saved[k + 1] == y;
  }

  /** A user's profile, once created, is the one found for them afterwards:
      the lookup in a table with one profile per user. */
  lemma ProfileLookupStable(profiles: seq<Profile>, p: Profile)
    requires OneProfilePerUser(profiles) && ProfileOf(profiles, p.user).None?
    ensures OneProfilePerUser(profiles + [p])
    ensures ProfileOf(profiles + [p], p.user) == Some(|profiles|)
  {
    var t := profiles + [p];
    assert forall k :: 0 <= k < |profiles| ==> t[k] == profiles[k];
    assert forall k :: 0 <= k < |profiles| ==> t[k].user != p.user;
    assert t[|profiles|] == p;
  }

  /** A stored row's doctor is in its profile's set. */
  lemma SavedIndexMember(saved: seq<SavedDoctor>, k: nat)
    requires k < |saved|
    ensures SavedDoctorsOf(saved, saved[k].patient) == SavedDoctorsOf(saved, saved[k].patient) + {saved[k].doctorId}
  {
  }

  /** A row with a new (patient, doctor) pair keeps the pairs unique. */
  lemma SavedAppendUnique(saved: seq<SavedDoctor>, s: SavedDoctor)
    requires SavedUnique(saved) && SavedIndex(saved, s.patient, s.doctorId).None?
    ensures SavedUnique(saved + [s])
  {
    var t := saved + [s];
    forall i, j | 0 <= i < j < |t|
      ensures !(t[i].patient == t[j].patient && t[i].doctorId == t[j].doctorId)
    {
      assert t[i] == saved[i];
      if j < |saved| {
        assert t[j] == saved[j];
      }
    }
  }

  class PatientStore {
    var profiles: seq<Profile>
    var saved: seq<SavedDoctor>
    var records: seq<MedicalRecord>
    var nextProfileId: int
    var nextSavedId: int
    var nextRecordId: int

    ghost predicate Valid()
      reads this
    {
      OneProfilePerUser(profiles) && SavedUnique(saved)
    }

    constructor ()
      ensures Valid() && profiles == [] && saved == [] && records == []
    {
      profiles, saved, records := [], [], [];
      nextProfileId, nextSavedId, nextRecordId := 1, 1, 1;
    }

    /** `ensure_profile_for_user` (`get_or_create`): the existing profile,
        or a new one when the user has none. */
    method EnsureProfile(user: int) returns (p: Profile)
      requires Valid()
      modifies this`profiles, this`nextProfileId
      ensures Valid()
      ensures p.user == user && ProfileOf(profiles, user).Some? && profiles[ProfileOf(profiles, user).value] == p
      ensures ProfileOf(old(profiles), user).Some? ==>
        p == old(profiles)[ProfileOf(old(profiles), user).value]
        && profiles == old(profiles) && nextProfileId == old(nextProfileId)
      ensures ProfileOf(old(profiles), user).None? ==>
        p == Profile(old(nextProfileId), user) && profiles == old(profiles) + [p]
        && nextProfileId == old(nextProfileId) + 1
    {
      var i := ProfileOf(profiles, user);
      if i.Some? {
        return profiles[i.value];
      }
      p := Profile(nextProfileId, user);
      ProfileLookupStable(profiles, p);
      profiles := profiles + [p];
      nextProfileId := nextProfileId + 1;
    }

    /** `add_favorite_doctor` (`save_doctor`'s `get_or_create`): the stored
        row and whether it was created. */
    method AddFavoriteDoctor(user: int, doctorId: int, now: int) returns (obj: SavedDoctor, created: bool)
      requires Valid()
      modifies this`profiles, this`nextProfileId, this`saved, this`nextSavedId
      ensures Valid()
      ensures var i := ProfileOf(profiles, user);
        i.Some? && obj.patient == profiles[i.value].id && obj.doctorId == doctorId
      ensures created <==> SavedIndex(old(saved), obj.patient, doctorId).None?
      ensures created ==>
        obj == SavedDoctor(old(nextSavedId), obj.patient, doctorId, now) && saved == old(saved) + [obj]
        && nextSavedId == old(nextSavedId) + 1
      ensures !created ==>
        obj == old(saved)[SavedIndex(old(saved), obj.patient, doctorId).value] && saved == old(saved)
        && nextSavedId == old(nextSavedId)
      ensures ProfileOf(old(profiles), user).Some? ==>
        profiles == old(profiles) && nextProfileId == old(nextProfileId)
      ensures ProfileOf(old(profiles), user).None? ==>
        profiles == old(profiles) + [Profile(old(nextProfileId), user)] && nextProfileId == old(nextProfileId) + 1
      ensures SavedDoctorsOf(saved, obj.patient) == SavedDoctorsOf(old(saved), obj.patient) + {doctorId}
    {
      var profile := EnsureProfile(user);
      var i := SavedIndex(saved, profile.id, doctorId);
      if i.Some? {
        obj, created := saved[i.value], false;
        SavedIndexMember(saved, i.value);
        return;
      }
      obj := SavedDoctor(nextSavedId, profile.id, doctorId, now);
      SavedSetLaws(saved, obj, profile.id, doctorId);
      SavedAppendUnique(saved, obj);
      saved := saved + [obj];
      nextSavedId := nextSavedId + 1;
      created := true;
    }

    /** `delete_favorite_doctor`: answers True whether or not the doctor was saved. */
    method DeleteFavoriteDoctor(user: int, doctorId: int) returns (r: bool)
      requires Valid()
      modifies this`profiles, this`nextProfileId, this`saved
      ensures Valid()
      ensures r
      ensures var i := ProfileOf(profiles, user);
        i.Some? && saved == Unsaved(old(saved), profiles[i.value].id, doctorId)
        && doctorId !in SavedDoctorsOf(saved, profiles[i.value].id)
      ensures ProfileOf(old(profiles), user).Some? ==>
        profiles == old(profiles) && nextProfileId == old(nextProfileId)
      ensures ProfileOf(old(profiles), user).None? ==>
        profiles == old(profiles) + [Profile(old(nextProfileId), user)] && nextProfileId == old(nextProfileId) + 1
    {
      var profile := EnsureProfile(user);
      UnsavedUnique(saved, profile.id, doctorId);
      SavedSetLaws(saved, SavedDoctor(0, profile.id, doctorId, 0), profile.id, doctorId);
      saved := Unsaved(saved, profile.id, doctorId);
      return true;
    }

    /** `upload_medical_record`: the size is checked before the profile is
        looked up, so a refused upload creates no profile either. */
    method UploadMedicalRecord(user: int, title: string, file: string, size: nat, notes: string, now: int)
      returns (r: Result<MedicalRecord>)
      requires Valid()
      modifies this`profiles, this`nextProfileId, this`records, this`nextRecordId
      ensures Valid()
      ensures UploadCheck(size).Fail? ==>
        r == Failure("File too large (max 10MB)") && profiles == old(profiles) && records == old(records)
        && nextProfileId == old(nextProfileId) && nextRecordId == old(nextRecordId)
      ensures UploadCheck(size) == Pass ==>
        var i := ProfileOf(profiles, user);
        i.Some? && r == Success(MedicalRecord(old(nextRecordId), profiles[i.value].id, title, file, notes, now))
        && records == old(records) + [r.value] && nextRecordId == old(nextRecordId) + 1
      ensures UploadCheck(size) == Pass && ProfileOf(old(profiles), user).Some? ==>
        profiles == old(profiles) && nextProfileId == old(nextProfileId)
      ensures UploadCheck(size) == Pass && ProfileOf(old(profiles), user).None? ==>
        profiles == old(profiles) + [Profile(old(nextProfileId), user)] && nextProfileId == old(nextProfileId) + 1
    {
      var check := UploadCheck(size);
      if check.Fail? {
        return Failure(check.message);
      }
      var profile := EnsureProfile(user);
      var rec := MedicalRecord(nextRecordId, profile.id, title, file, notes, now);
      records := records + [rec];
      nextRecordId := nextRecordId + 1;
      return Success(rec);
    }

    /** `get_records` */
    method GetRecords(user: int) returns (rs: seq<MedicalRecord>)
      requires Valid()
      modifies this`profiles, this`nextProfileId
      ensures Valid()
      ensures var i := ProfileOf(profiles, user);
        i.Some? && rs == RecordsOf(records, profiles[i.value].id)
      ensures ProfileOf(old(profiles), user).Some? ==>
        profiles == old(profiles) && nextProfileId == old(nextProfileId)
      ensures ProfileOf(old(profiles), user).None? ==>
        profiles == old(profiles) + [Profile(old(nextProfileId), user)] && nextProfileId == old(nextProfileId) + 1
    {
      var profile := EnsureProfile(user);
      rs := RecordsOf(records, profile.id);
    }
  }

}
