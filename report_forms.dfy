/** The clean methods of reports/forms.py. */
module ReportForms {
  import opened Base
  import opened ReportRecords

  /** Some stored name equals this one ignoring case. */
  predicate NameTaken(names: seq<string>, name: string) {
    exists k :: 0 <= k < |names| && EqualsIgnoreCase(names[k], name)
  }

  /** `ReportCategoryForm.clean_name`: a name that some stored category has,
      in any case, is refused. The category being edited is not set
      apart. */
  function CleanCategoryName(categoryNames: seq<string>, name: string): (r: Result<string>)
    ensures r.Failure? <==> NameTaken(categoryNames, name)
    ensures r.Failure? ==> r.error == CategoryExists
    ensures r.Success? ==> r.value == name
  {
    if NameTaken(categoryNames, name) then Failure(CategoryExists) else Success(name)
  }

  /** `ReportTemplateForm.clean_name` */
  function CleanTemplateName(templateNames: seq<string>, name: string): (r: Result<string>)
    ensures r.Failure? <==> NameTaken(templateNames, name)
    ensures r.Failure? ==> r.error == "A template with this name already exists."
    ensures r.Success? ==> r.value == name
  {
    if NameTaken(templateNames, name) then Failure("A template with this name already exists.") else Success(name)
  }

  /** Editing a category and submitting its own name unchanged is refused,
      and so is any change of case only. */
  lemma ResubmitRefused(categoryNames: seq<string>, k: nat, name: string)
    requires k < |categoryNames| && EqualsIgnoreCase(name, categoryNames[k])
    ensures CleanCategoryName(categoryNames, name).Failure?
    ensures CleanCategoryName(categoryNames, categoryNames[k]).Failure?
  {
    assert EqualsIgnoreCase(categoryNames[k], name);
  }

  /** The form's doctor and patient choices: a row of the `Doctor` model
      and a row of the `Patient` model. */
  datatype ReportParties = ReportParties(doctor: Option<Ref>, patient: Option<Ref>)

  predicate FromChoiceFields(data: ReportParties) {
    (data.doctor.Some? ==> data.doctor.value.model == "Doctor")
    && (data.patient.Some? ==> data.patient.value.model == "Patient")
  }

  /** `ReportForm.clean`: a doctor equal to the patient is refused;
      otherwise the cleaned data comes back unchanged. */
  function CleanReport(data: ReportParties): (r: Result<ReportParties>)
    ensures r.Failure? <==> data.doctor.Some? && data.patient.Some? && data.doctor == data.patient
    ensures r.Failure? ==> r.error == "Doctor and patient cannot be the same"
    ensures r.Success? ==> r.value == data
  {
    if data.doctor.Some? && data.patient.Some? && data.doctor == data.patient then
      Failure("Doctor and patient cannot be the same")
    else Success(data)
  }

  /** Leaving either party out always passes. */
  lemma MissingPartyPasses(d: Option<Ref>, p: Option<Ref>)
    requires d.None? || p.None?
    ensures CleanReport(ReportParties(d, p)) == Success(ReportParties(d, p))
  {
  }

  /** A Doctor row and a Patient row are rows of two models and never
      compare equal, so data from the choice fields always passes, even a
      doctor and a patient that share their primary key or their user. */
  lemma ChoicesAlwaysPass(data: ReportParties)
    requires FromChoiceFields(data)
    ensures CleanReport(data) == Success(data)
  {
  }
}
