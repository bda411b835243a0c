/** Prescriptions and their medications (prescriptions/models.py), the
    summary text built from the medications (prescriptions/services.py and
    the identical helper in prescriptions/serializers.py), the service and
    serializer writes, and the object permission
    (prescriptions/permissions.py). Rows are kept in insertion order, and
    the model takes `prescription.medications.all()` to return them in that
    (primary-key) order; Medication declares no ordering. */
module Prescriptions {
  import opened Base
  import opened Access

  /** `STATUS_DRAFT`, `STATUS_FINAL`, `STATUS_REVOKED` */
  datatype Status = Draft | Final | Revoked

  /** The stored value of a status. */
  function StatusValue(s: Status): (r: string)
    ensures r in ["draft", "final", "revoked"]
  {
    match s
    case Draft => "draft"
    case Final => "final"
    case Revoked => "revoked"
  }

  /** The label shown for a status (`STATUS_CHOICES`). */
  function StatusLabel(s: Status): (r: string)
    ensures r in ["Draft", "Finalized", "Revoked"]
  {
    match s
    case Draft => "Draft"
    case Final => "Finalized"
    case Revoked => "Revoked"
  }

  /** The three statuses are stored as three different values. */
  lemma StatusValuesDistinct(a: Status, b: Status)
    ensures StatusValue(a) == StatusValue(b) <==> a == b
    ensures StatusLabel(a) == StatusLabel(b) <==> a == b
  {
  }

  datatype Medication = Medication(
    id: int, prescription: int, name: string, dosage: string, frequency: string,
    duration: string, instructions: string, quantity: nat)

  /** One medication dict as handed to `Medication.objects.create(**med)`:
      a key that is left out takes the model default. */
  datatype MedSpec = MedSpec(
    name: string, dosage: Option<string>, frequency: Option<string>,
    duration: Option<string>, instructions: Option<string>, quantity: Option<nat>)

  const DefaultQuantity: nat := 1

  function OrBlank(v: Option<string>): string { if v.Some? then v.value else "" }

  /** The row `Medication.objects.create` stores: blank text fields and a
      quantity of 1 where the dict gives no value. */
  function FromSpec(spec: MedSpec, id: int, prescription: int): (m: Medication)
    ensures m.id == id && m.prescription == prescription && m.name == spec.name
    ensures m.quantity == if spec.quantity.Some? then spec.quantity.value else 1
    ensures spec.dosage.None? ==> m.dosage == ""
    ensures spec.dosage.Some? ==> m.dosage == spec.dosage.value
  {
    Medication(id, prescription, spec.name, OrBlank(spec.dosage), OrBlank(spec.frequency),
      OrBlank(spec.duration), OrBlank(spec.instructions),
      if spec.quantity.Some? then spec.quantity.value else DefaultQuantity)
  }

  /** `MinValueValidator(1)` on the quantity, run when a serializer
      validates a medication. */
  function QuantityError(q: int): (r: Option<string>)
    ensures r.None? <==> q >= 1
  {
    if q < 1 then Some("Ensure this value is greater than or equal to 1.") else None
  }

  /** The row a medication dict stores always passes the validator when the
      quantity is left out. */
  lemma DefaultQuantityValid(spec: MedSpec, id: int, prescription: int)
    requires spec.quantity.None?
    ensures QuantityError(FromSpec(spec, id, prescription).quantity).None?
  {
  }

  datatype Prescription = Prescription(
    id: int, patient: int, doctor: Option<int>, notes: string, createdAt: int,
    updatedAt: int, status: Status, file: Option<string>, summary: string)

  // ---------------------------------------------------------------------
  // the summary text

  /** The separator of the parts of a line. */
  const Sep: string := " | "

  /** `f"x{m.quantity}"` */
  function QuantityPart(m: Medication): string { "x" + NatToString(m.quantity) }

  /** The parts of one summary line: the name, the dosage and the frequency
      when they are non-empty, and "x" with the quantity. */
  function Parts(m: Medication): seq<string> {
    [m.name] + (if m.dosage != "" then [m.dosage] else [])
      + (if m.frequency != "" then [m.frequency] else []) + [QuantityPart(m)]
  }

  /** `" | ".join(parts)` */
  function Line(m: Medication): string { Join(Parts(m), Sep) }

  /** The lines of a summary, from the back. */
  function Lines(meds: seq<Medication>): (r: seq<string>)
    ensures |r| == |meds|
    ensures forall i :: 0 <= i < |meds| ==> r[i] == Line(meds[i])
    decreases |meds|
  {
    if meds == [] then [] else Lines(meds[..|meds| - 1]) + [Line(meds[|meds| - 1])]
  }

  /** `_build_summary` / `_build_summary_text`: one line per medication,
      joined by newlines. */
  function Summary(meds: seq<Medication>): string { Join(Lines(meds), "\n") }

  lemma Join2(a: string, b: string, sep: string)
    ensures Join([a, b], sep) == a + (sep + b)
  {
    assert [a, b][1..] == [b];
  }

  lemma Join3(a: string, b: string, c: string, sep: string)
    ensures Join([a, b, c], sep) == a + (sep + b) + (sep + c)
  {
    assert [a, b, c][1..] == [b, c];
    Join2(b, c, sep);
  }

  lemma Join4(a: string, b: string, c: string, d: string, sep: string)
    ensures Join([a, b, c, d], sep) == a + (sep + b) + (sep + c) + (sep + d)
  {
    assert [a, b, c, d][1..] == [b, c, d];
    Join3(b, c, d, sep);
  }

  /** The parts are the name, then whichever of dosage and frequency are
      non-empty, then the quantity. */
  lemma PartsCases(m: Medication)
    ensures Parts(m) == if m.dosage == "" && m.frequency == "" then [m.name, QuantityPart(m)]
        else if m.dosage == "" then [m.name, m.frequency, QuantityPart(m)]
        else if m.frequency == "" then [m.name, m.dosage, QuantityPart(m)]
        else [m.name, m.dosage, m.frequency, QuantityPart(m)]
  {
  }

  /** A line spelled out: the name first, " | " before each further part, the
      dosage before the frequency, and "x" with the quantity last. */
  lemma LineShape(m: Medication)
    ensures Line(m) == m.name + (if m.dosage != "" then Sep + m.dosage else "")
      + (if m.frequency != "" then Sep + m.frequency else "") + (Sep + QuantityPart(m))
  {
    var q := QuantityPart(m);
    PartsCases(m);
    if m.dosage == "" && m.frequency == "" {
      Join2(m.name, q, Sep);
      assert m.name + "" + "" == m.name;
    } else if m.dosage == "" {
      Join3(m.name, m.frequency, q, Sep);
      assert m.name + "" == m.name;
    } else if m.frequency == "" {
      Join3(m.name, m.dosage, q, Sep);
      assert m.name + (Sep + m.dosage) + "" == m.name + (Sep + m.dosage);
    } else {
      Join4(m.name, m.dosage, m.frequency, q, Sep);
    }
  }

  /** No medications give the empty summary; one more medication adds a
      newline and its line, so there is one line per medication, in order,
      and no newline after the last. */
  lemma SummaryGrows(meds: seq<Medication>, m: Medication)
    ensures Summary([]) == ""
    ensures Summary(meds + [m]) == if meds == [] then Line(m) else Summary(meds) + "\n" + Line(m)
  {
    assert (meds + [m])[..|meds + [m]| - 1] == meds;
    JoinSnoc(Lines(meds), Line(m), "\n");
  }

  /** A line starts with the name and ends with "x" and the quantity. */
  lemma LineEnds(m: Medication)
    ensures var q := QuantityPart(m);
      m.name <= Line(m) && |q| <= |Line(m)| && Line(m)[|Line(m)| - |q|..] == q
  {
    LineShape(m);
  }

  /** A non-empty summary ends with the last medication's "x" and quantity,
      and starts with the first medication's name. */
  lemma {:induction false} SummaryEnds(meds: seq<Medication>)
    requires |meds| > 0
    ensures var q := QuantityPart(meds[|meds| - 1]);
      |q| <= |Summary(meds)| && Summary(meds)[|Summary(meds)| - |q|..] == q
    ensures meds[0].name <= Summary(meds)
    decreases |meds|
  {
    var init := meds[..|meds| - 1];
    var m := meds[|meds| - 1];
    assert meds == init + [m];
    SummaryGrows(init, m);
    LineEnds(m);
    if init != [] {
      SummaryEnds(init);
      assert init[0] == meds[0];
    }
  }

  /** The loop of `_build_summary`: `parts` grows part by part and each
      joined line is appended to `lines`. */
  method BuildSummary(meds: seq<Medication>) returns (summary: string)
    ensures summary == Summary(meds)
  {
    var lines: seq<string> := [];
    var k := 0;
    while k < |meds|
      invariant 0 <= k <= |meds|
      invariant lines == Lines(meds[..k])
    {
      var m := meds[k];
      var parts := [m.name];
      if m.dosage != "" {
        parts := parts + [m.dosage];
      }
      if m.frequency != "" {
        parts := parts + [m.frequency];
      }
      parts := parts + ["x" + NatToString(m.quantity)];
      assert parts[|parts| - 1] == QuantityPart(m);
      assert parts == Parts(m);
      assert meds[..k + 1][..k] == meds[..k];
      assert Lines(meds[..k + 1]) == Lines(meds[..k]) + [Line(m)];
      lines := lines + [Join(parts, Sep)];
      k := k + 1;
    }
    assert meds[..k] == meds;
    summary := Join(lines, "\n");
  }

  // ---------------------------------------------------------------------
  // the medications of one prescription

  /** `prescription.medications.all()` */
  function MedsOf(meds: seq<Medication>, prescription: int): (r: seq<Medication>)
    ensures forall i :: 0 <= i < |r| ==> r[i].prescription == prescription
    decreases |meds|
  {
    if meds == [] then []
    else
      var init := MedsOf(meds[..|meds| - 1], prescription);
      var last := meds[|meds| - 1];
      init + (if last.prescription == prescription then [last] else [])
  }

  lemma {:induction false} MedsOfAppend(a: seq<Medication>, b: seq<Medication>, prescription: int)
    ensures MedsOf(a + b, prescription) == MedsOf(a, prescription) + MedsOf(b, prescription)
    decreases |b|
  {
    if b == [] {
      assert a + b == a;
    } else {
      assert (a + b)[..|a + b| - 1] == a + b[..|b| - 1];
      MedsOfAppend(a, b[..|b| - 1], prescription);
    }
  }

  /** Rows that all belong to the prescription are all of its rows; rows of
      which none belongs to it give none. */
  lemma {:induction false} MedsOfUniform(meds: seq<Medication>, prescription: int)
    ensures (forall i :: 0 <= i < |meds| ==> meds[i].prescription == prescription) ==>
      MedsOf(meds, prescription) == meds
    ensures (forall i :: 0 <= i < |meds| ==> meds[i].prescription != prescription) ==>
      MedsOf(meds, prescription) == []
    decreases |meds|
  {
    if meds != [] {
      MedsOfUniform(meds[..|meds| - 1], prescription);
    }
  }

  /** `instance.medications.all().delete()`: the other prescriptions' rows
      stay, in order. */
  function WithoutMedsOf(meds: seq<Medication>, prescription: int): (r: seq<Medication>)
    ensures forall i :: 0 <= i < |r| ==> r[i].prescription != prescription
    decreases |meds|
  {
    if meds == [] then []
    else
      var last := meds[|meds| - 1];
      WithoutMedsOf(meds[..|meds| - 1], prescription) + (if last.prescription != prescription then [last] else [])
  }

  /** Deleting one prescription's medications leaves every other
      prescription's medications as they were. */
  lemma {:induction false} WithoutMedsOfKeeps(meds: seq<Medication>, prescription: int, other: int)
    requires other != prescription
    ensures MedsOf(WithoutMedsOf(meds, prescription), other) == MedsOf(meds, other)
    decreases |meds|
  {
    if meds != [] {
      var init := meds[..|meds| - 1];
      var last := meds[|meds| - 1];
      var rest := WithoutMedsOf(init, prescription);
      WithoutMedsOfKeeps(init, prescription, other);
      if last.prescription == prescription {
        assert WithoutMedsOf(meds, prescription) == rest + [];
        assert rest + [] == rest;
      } else {
        assert WithoutMedsOf(meds, prescription) == rest + [last];
        assert (rest + [last])[..|rest + [last]| - 1] == rest;
      }
    }
  }

  /** The rows `Medication.objects.create` adds for a list of dicts, with
      consecutive ids from `firstId`. */
  function Created(specs: seq<MedSpec>, firstId: int, prescription: int): (r: seq<Medication>)
    ensures |r| == |specs|
    ensures forall i :: 0 <= i < |r| ==> r[i].prescription == prescription && r[i].id == firstId + i
    decreases |specs|
  {
    if specs == [] then []
    else Created(specs[..|specs| - 1], firstId, prescription) + [FromSpec(specs[|specs| - 1], firstId + |specs| - 1, prescription)]
  }

  /** Rows added for a prescription after rows that are not its own are
      exactly its medications. */
  lemma OwnRows(before: seq<Medication>, added: seq<Medication>, prescription: int)
    requires forall i :: 0 <= i < |before| ==> before[i].prescription != prescription
    requires forall i :: 0 <= i < |added| ==> added[i].prescription == prescription
    ensures MedsOf(before + added, prescription) == added
  {
    MedsOfAppend(before, added, prescription);
    MedsOfUniform(before, prescription);
    MedsOfUniform(added, prescription);
  }

  /** Every prescription id was issued below the counter. */
  predicate IdsBelow(rows: seq<Prescription>, nextId: int) {
    forall i :: 0 <= i < |rows| ==> rows[i].id < nextId
  }

  /** Every medication belongs to an issued prescription and has an issued
      id. */
  predicate MedsBelow(meds: seq<Medication>, nextId: int, nextMedicationId: int) {
    forall i :: 0 <= i < |meds| ==> meds[i].prescription < nextId && meds[i].id < nextMedicationId
  }

  /** A new prescription with the next id keeps the bound when the counter
      moves past it. */
  lemma IdsBelowSnoc(rows: seq<Prescription>, p: Prescription, nextId: int)
    requires IdsBelow(rows, nextId) && p.id == nextId
    ensures IdsBelow(rows + [p], nextId + 1)
  {
  }

  /** Rewriting a row under its own id keeps the bound. */
  lemma IdsBelowSet(rows: seq<Prescription>, i: nat, p: Prescription, nextId: int)
    requires IdsBelow(rows, nextId) && i < |rows| && p.id == rows[i].id
    ensures IdsBelow(rows[i := p], nextId)
  {
  }

  /** Deleting rows keeps the bound. */
  lemma {:induction false} WithoutMedsBelow(meds: seq<Medication>, prescription: int, nextId: int, nextMedicationId: int)
    requires MedsBelow(meds, nextId, nextMedicationId)
    ensures MedsBelow(WithoutMedsOf(meds, prescription), nextId, nextMedicationId)
    decreases |meds|
  {
    if meds != [] {
      WithoutMedsBelow(meds[..|meds| - 1], prescription, nextId, nextMedicationId);
    }
  }

  /** Rows created for a new prescription keep the counters' bound and are
      its only medications. */
  lemma CreatedForNew(meds: seq<Medication>, specs: seq<MedSpec>, nextId: int, nextMedicationId: int)
    requires MedsBelow(meds, nextId, nextMedicationId)
    ensures MedsBelow(meds + Created(specs, nextMedicationId, nextId), nextId + 1, nextMedicationId + |specs|)
    ensures MedsOf(meds + Created(specs, nextMedicationId, nextId), nextId) == Created(specs, nextMedicationId, nextId)
  {
    OwnRows(meds, Created(specs, nextMedicationId, nextId), nextId);
  }

  /** Replacing one prescription's rows by newly created ones keeps the
      counters' bound, makes the new rows its medications and leaves the
      others'. */
  lemma CreatedReplace(meds: seq<Medication>, specs: seq<MedSpec>, prescription: int, nextId: int, nextMedicationId: int)
    requires MedsBelow(meds, nextId, nextMedicationId) && prescription < nextId
    ensures var rows := WithoutMedsOf(meds, prescription) + Created(specs, nextMedicationId, prescription);
      MedsBelow(rows, nextId, nextMedicationId + |specs|)
      && MedsOf(rows, prescription) == Created(specs, nextMedicationId, prescription)
      && forall p :: p != prescription ==> MedsOf(rows, p) == MedsOf(meds, p)
  {
    var rest := WithoutMedsOf(meds, prescription);
    var created := Created(specs, nextMedicationId, prescription);
    WithoutMedsBelow(meds, prescription, nextId, nextMedicationId);
    OwnRows(rest, created, prescription);
    forall p | p != prescription
      ensures MedsOf(rest + created, p) == MedsOf(meds, p)
    {
      MedsOfAppend(rest, created, p);
      MedsOfUniform(created, p);
      WithoutMedsOfKeeps(meds, prescription, p);
    }
  }

  /** `if file:`: a file with a name. */
  predicate HasFile(file: Option<string>) { file.Some? && file.value != "" }

  /** The fields `PrescriptionSerializer` writes on create or update; `None`
      is a key that is not in `validated_data`. */
  datatype Changes = Changes(
    patient: Option<int>, doctor: Option<Option<int>>, notes: Option<string>,
    status: Option<Status>, file: Option<Option<string>>)

  /** The `setattr` loop of `update`: each given attribute is assigned, every
      other one keeps its value. */
  function Patch(p: Prescription, c: Changes): (r: Prescription)
    ensures r.id == p.id && r.createdAt == p.createdAt && r.updatedAt == p.updatedAt && r.summary == p.summary
    ensures r.patient == if c.patient.Some? then c.patient.value else p.patient
    ensures r.doctor == if c.doctor.Some? then c.doctor.value else p.doctor
    ensures r.notes == if c.notes.Some? then c.notes.value else p.notes
    ensures r.status == if c.status.Some? then c.status.value else p.status
    ensures r.file == if c.file.Some? then c.file.value else p.file
  {
    var p1 := if c.patient.Some? then p.(patient := c.patient.value) else p;
    var p2 := if c.doctor.Some? then p1.(doctor := c.doctor.value) else p1;
    var p3 := if c.notes.Some? then p2.(notes := c.notes.value) else p2;
    var p4 := if c.status.Some? then p3.(status := c.status.value) else p3;
    if c.file.Some? then p4.(file := c.file.value) else p4
  }

  /** An update that gives no attribute changes none, and a second identical
      patch changes nothing more. */
  lemma PatchLaws(p: Prescription, c: Changes)
    ensures Patch(p, Changes(None, None, None, None, None)) == p
    ensures Patch(Patch(p, c), c) == Patch(p, c)
  {
  }

  /** `finalize`: the status becomes final and the save stamps updated_at;
      nothing else is written. */
  function Finalized(p: Prescription, now: int): (r: Prescription)
    ensures r.status == Final && r.updatedAt == now
    ensures r.(status := p.status, updatedAt := p.updatedAt) == p
  {
    p.(status := Final, updatedAt := now)
  }

  /** `revoke`: as `finalize`, with status revoked. */
  function RevokedAt(p: Prescription, now: int): (r: Prescription)
    ensures r.status == Revoked && r.updatedAt == now
    ensures r.(status := p.status, updatedAt := p.updatedAt) == p
  {
    p.(status := Revoked, updatedAt := now)
  }

  /** Neither transition looks at the prior status: a revoked prescription
      can be finalized again and the other way round, and the last call
      decides the status. */
  lemma NoTransitionGuard(p: Prescription, t1: int, t2: int)
    ensures Finalized(RevokedAt(p, t1), t2) == Finalized(p, t2)
    ensures RevokedAt(Finalized(p, t1), t2) == RevokedAt(p, t2)
    ensures Finalized(Finalized(p, t1), t2) == Finalized(p, t2)
  {
  }

  // ---------------------------------------------------------------------
  // the permission

  /** `IsDoctorOrOwner.has_object_permission` */
  predicate IsDoctorOrOwner(u: Requester, p: Prescription) {
    if u.isStaff then true
    else if u.id.None? then false
    else Some(p.patient) == u.id || p.doctor == u.id
  }

  /** Staff always pass; otherwise the requester must have an id and be the
      patient or the doctor, and a prescription without a doctor is open to
      its patient (and staff) only. */
  lemma DoctorOrOwnerTable(u: Requester, p: Prescription)
    ensures u.isStaff ==> IsDoctorOrOwner(u, p)
    ensures !u.isStaff ==> (IsDoctorOrOwner(u, p) <==>
      u.id.Some? && (u.id.value == p.patient || p.doctor == Some(u.id.value)))
    ensures p.doctor.None? && !u.isStaff ==> (IsDoctorOrOwner(u, p) <==> u.id == Some(p.patient))
    ensures !IsDoctorOrOwner(Anonymous, p)
  {
  }

  // ---------------------------------------------------------------------
  // the tables

  class PrescriptionStore {
    var prescriptions: seq<Prescription>
    var medications: seq<Medication>
    var nextId: int
    var nextMedicationId: int

    /** Ids are issued from the counters, so a new prescription owns no
        medication yet. */
    predicate Valid()
      reads this
    {
      IdsBelow(prescriptions, nextId) && MedsBelow(medications, nextId, nextMedicationId)
    }

    constructor ()
      ensures Valid()
      ensures prescriptions == [] && medications == []
    {
      prescriptions := [];
      medications := [];
      nextId := 1;
      nextMedicationId := 1;
    }

    /** The `for med in medications` loop: one row per dict, in order. */
    method AddMedications(prescription: int, specs: seq<MedSpec>)
      modifies this`medications, this`nextMedicationId
      ensures medications == old(medications) + Created(specs, old(nextMedicationId), prescription)
      ensures nextMedicationId == old(nextMedicationId) + |specs|
    {
      var k := 0;
      while k < |specs|
        invariant 0 <= k <= |specs|
        invariant medications == old(medications) + Created(specs[..k], old(nextMedicationId), prescription)
        invariant nextMedicationId == old(nextMedicationId) + k
      {
        assert specs[..k + 1][..k] == specs[..k];
        assert Created(specs[..k + 1], old(nextMedicationId), prescription)
          == Created(specs[..k], old(nextMedicationId), prescription) + [FromSpec(specs[k], nextMedicationId, prescription)];
        medications := medications + [FromSpec(specs[k], nextMedicationId, prescription)];
        nextMedicationId := nextMedicationId + 1;
        k := k + 1;
      }
      assert specs[..k] == specs;
    }

    /** `save()` of a new row, which takes the next id. */
    method AddRow(p: Prescription)
      requires IdsBelow(prescriptions, nextId) && p.id == nextId
      modifies this`prescriptions, this`nextId
      ensures prescriptions == old(prescriptions) + [p] && nextId == old(nextId) + 1
      ensures IdsBelow(prescriptions, nextId)
    {
      IdsBelowSnoc(prescriptions, p, nextId);
      prescriptions := prescriptions + [p];
      nextId := nextId + 1;
    }

    /** Insert a prescription with its medications and store the summary
        built from them. */
    method Insert(p: Prescription, specs: seq<MedSpec>) returns (id: int)
      requires Valid()
      modifies this
      ensures Valid()
      ensures id == old(nextId) && nextId == old(nextId) + 1
      ensures prescriptions == old(prescriptions) + [p.(id := id, summary := Summary(Created(specs, old(nextMedicationId), id)))]
      ensures medications == old(medications) + Created(specs, old(nextMedicationId), id)
    {
      id := nextId;
      var firstId := nextMedicationId;
      ghost var rows := prescriptions;
      ghost var meds := medications;
      var created := Created(specs, firstId, id);
      CreatedForNew(meds, specs, id, firstId);
      AddMedications(id, specs);
      assert medications == meds + created && nextMedicationId == firstId + |specs|;
      assert prescriptions == rows && nextId == id;
      assert MedsBelow(medications, id + 1, nextMedicationId);
      var summary := BuildSummary(created);
      assert summary == Summary(created);
      AddRow(p.(id := id, summary := summary));
      assert prescriptions == rows + [p.(id := id, summary := Summary(created))];
      assert medications == meds + created;
    }

    /** `PrescriptionService.create_prescription`: a draft, with the file
        only when it has a name, one medication per dict (none when the list
        is missing or empty) and the rebuilt summary. */
    method CreatePrescription(patient: int, doctor: Option<int>, notes: string,
                              medications: Option<seq<MedSpec>>, file: Option<string>, now: int)
      returns (id: int)
      requires Valid()
      modifies this
      ensures Valid()
      ensures id == old(nextId)
      ensures var specs := if medications.Some? then medications.value else [];
        var created := Created(specs, old(nextMedicationId), id);
        this.prescriptions == old(this.prescriptions)
          + [Prescription(id, patient, doctor, notes, now, now, Draft,
                          if HasFile(file) then file else None, Summary(created))]
        && this.medications == old(this.medications) + created
        && MedsOf(this.medications, id) == created
    {
      var specs := if medications.Some? then medications.value else [];
      CreatedForNew(this.medications, specs, nextId, nextMedicationId);
      id := Insert(Prescription(0, patient, doctor, notes, now, now, Draft,
                                if HasFile(file) then file else None, ""), specs);
    }

    /** `PrescriptionSerializer.create`: the validated fields, with the
        model defaults (draft, no file, empty notes) for those not given. */
    method SerializerCreate(patient: int, doctor: Option<int>, c: Changes,
                            medications: Option<seq<MedSpec>>, now: int)
      returns (id: int)
      requires Valid()
      modifies this
      ensures Valid()
      ensures id == old(nextId)
      ensures var specs := if medications.Some? then medications.value else [];
        var created := Created(specs, old(nextMedicationId), id);
        var base := Prescription(0, patient, doctor, "", now, now, Draft, None, "");
        this.prescriptions == old(this.prescriptions)
          + [Patch(base, c.(patient := None, doctor := None)).(id := id, summary := Summary(created))]
        && this.medications == old(this.medications) + created
        && MedsOf(this.medications, id) == created
    {
      var specs := if medications.Some? then medications.value else [];
      var base := Prescription(0, patient, doctor, "", now, now, Draft, None, "");
      CreatedForNew(this.medications, specs, nextId, nextMedicationId);
      id := Insert(Patch(base, c.(patient := None, doctor := None)), specs);
    }

    /** `instance.medications.all().delete()` followed by the create loop. */
    method ReplaceMedications(prescription: int, specs: seq<MedSpec>)
      requires MedsBelow(medications, nextId, nextMedicationId) && prescription < nextId
      modifies this`medications, this`nextMedicationId
      ensures medications == WithoutMedsOf(old(medications), prescription) + Created(specs, old(nextMedicationId), prescription)
      ensures nextMedicationId == old(nextMedicationId) + |specs|
      ensures MedsBelow(medications, nextId, nextMedicationId)
      ensures MedsOf(medications, prescription) == Created(specs, old(nextMedicationId), prescription)
      ensures forall p :: p != prescription ==> MedsOf(medications, p) == MedsOf(old(medications), p)
    {
      CreatedReplace(medications, specs, prescription, nextId, nextMedicationId);
      medications := WithoutMedsOf(medications, prescription);
      AddMedications(prescription, specs);
    }

    /** `PrescriptionSerializer.update`: the given attributes are assigned and
        saved; a medications list replaces every existing medication of the
        prescription, a missing one leaves them; the summary is rebuilt. */
    method SerializerUpdate(index: nat, c: Changes, given: Option<seq<MedSpec>>, now: int)
      requires Valid() && index < |prescriptions|
      modifies this
      ensures Valid()
      ensures nextId == old(nextId)
      ensures var id := old(prescriptions[index].id);
        prescriptions == old(prescriptions)[index :=
          Patch(old(prescriptions[index]), c).(updatedAt := now, summary := Summary(MedsOf(medications, id)))]
      ensures given.None? ==> medications == old(medications)
      ensures given.Some? ==> var id := old(prescriptions[index].id);
        medications == WithoutMedsOf(old(medications), id) + Created(given.value, old(nextMedicationId), id)
        && MedsOf(medications, id) == Created(given.value, old(nextMedicationId), id)
      ensures forall p :: p != old(prescriptions[index].id) ==> MedsOf(medications, p) == MedsOf(old(medications), p)
    {
      var id := prescriptions[index].id;
      if given.Some? {
        ReplaceMedications(id, given.value);
      }
      var summary := BuildSummary(MedsOf(medications, id));
      var updated := Patch(prescriptions[index], c).(updatedAt := now, summary := summary);
      IdsBelowSet(prescriptions, index, updated, nextId);
      prescriptions := prescriptions[index := updated];
      assert IdsBelow(prescriptions, nextId) && MedsBelow(medications, nextId, nextMedicationId);
    }

    /** `Prescription.finalize` */
    method Finalize(index: nat, now: int)
      requires Valid() && index < |prescriptions|
      modifies this`prescriptions
      ensures Valid()
      ensures prescriptions == old(prescriptions)[index := Finalized(old(prescriptions[index]), now)]
    {
      IdsBelowSet(prescriptions, index, Finalized(prescriptions[index], now), nextId);
      prescriptions := prescriptions[index := Finalized(prescriptions[index], now)];
    }

    /** `Prescription.revoke` */
    method Revoke(index: nat, now: int)
      requires Valid() && index < |prescriptions|
      modifies this`prescriptions
      ensures Valid()
      ensures prescriptions == old(prescriptions)[index := RevokedAt(old(prescriptions[index]), now)]
    {
      IdsBelowSet(prescriptions, index, RevokedAt(prescriptions[index], now), nextId);
      prescriptions := prescriptions[index := RevokedAt(prescriptions[index], now)];
    }
  }
}
