/** The validators and computed fields of adminpanel/serializers.py. A
    related object is a `Ref` to a row of some model, and a present
    reference is always truthy. */
module AdminSerializers {
  import opened Base

  /** `SystemConfigurationSerializer.validate_key`: a key that some stored
      configuration already has is refused, but only when creating. */
  function ValidateKey(storedKeys: seq<string>, value: string, creating: bool): (r: Result<string>)
    ensures r.Failure? <==> creating && value in storedKeys
    ensures r.Failure? ==> r.error == "Configuration key already exists."
    ensures r.Success? ==> r.value == value
  {
    if creating && value in storedKeys then Failure("Configuration key already exists.")
    else Success(value)
  }

  /** `get_profile_complete` */
  function ProfileComplete(firstName: string, lastName: string, email: string): (r: bool)
    ensures r <==> firstName != "" && lastName != "" && email != ""
  {
    firstName != "" && lastName != "" && email != ""
  }

  /** `get_last_login_display`; `since` is what `timesince` renders. */
  function LastLoginDisplay(lastLogin: Option<int>, since: string): (r: string)
    ensures lastLogin.None? <==> r == "Never"
    ensures lastLogin.Some? ==> r == since + " ago"
  {
    if lastLogin.Some? then
      assert (since + " ago")[|since| + 1] == 'a';
      since + " ago"
    else "Never"
  }

  /** `BackupRestoreSerializer.validate_confirm` */
  function ValidateConfirm(confirm: bool): (r: Result<bool>)
    ensures r.Success? <==> confirm
    ensures r.Success? ==> r.value
    ensures r.Failure? ==> r.error == "You must confirm the restore operation."
  {
    if !confirm then Failure("You must confirm the restore operation.") else Success(confirm)
  }

  /** `PatientSerializer.validate_contact_number`: `str.isdigit()`, which is
      false on the empty text. */
  function ValidateContactNumber(value: string): (r: Result<string>)
    ensures r.Success? <==> |value| > 0 && forall i :: 0 <= i < |value| ==> '0' <= value[i] <= '9'
    ensures r.Success? ==> r.value == value
    ensures r.Failure? ==> r.error == "Contact number must contain only digits"
  {
    if !AllDigits(value) then Failure("Contact number must contain only digits") else Success(value)
  }

  lemma EmptyContactNumberRejected()
    ensures ValidateContactNumber("").Failure?
  {
  }

  /** The checked fields of an appointment or prescription payload. */
  datatype Parties = Parties(patient: Option<Ref>, doctor: Option<Ref>)

  /** `AppointmentSerializer.validate`: refused only when both are given
      and equal; otherwise the data is returned unchanged. */
  function ValidateAppointment(data: Parties): (r: Result<Parties>)
    ensures r.Failure? <==> data.patient.Some? && data.doctor.Some? && data.patient == data.doctor
    ensures r.Failure? ==> r.error == "Patient cannot be the same as the doctor"
    ensures r.Success? ==> r.value == data
  {
    if data.patient.Some? && data.doctor.Some? && data.patient == data.doctor then
      Failure("Patient cannot be the same as the doctor")
    else Success(data)
  }

  /** A patient row and a doctor row of two different models never compare
      equal, so the appointment check passes them whatever their keys. */
  lemma DifferentModelsPass(p: Ref, d: Ref)
    requires p.model != d.model
    ensures ValidateAppointment(Parties(Some(p), Some(d))) == Success(Parties(Some(p), Some(d)))
  {
  }

  /** `PrescriptionSerializer.validate`: both parties are required. */
  function ValidatePrescription(data: Parties): (r: Result<Parties>)
    ensures r.Failure? <==> data.patient.None? || data.doctor.None?
    ensures r.Failure? ==> r.error == "Both patient and doctor are required"
    ensures r.Success? ==> r.value == data
  {
    if data.patient.None? || data.doctor.None? then Failure("Both patient and doctor are required")
    else Success(data)
  }

  /** A prescription payload the appointment check accepts need not pass
      the prescription check, and the reverse. */
  lemma ValidatorsDiffer(r: Ref)
    ensures ValidateAppointment(Parties(None, None)).Success? && ValidatePrescription(Parties(None, None)).Failure?
    ensures ValidateAppointment(Parties(Some(r), Some(r))).Failure? && ValidatePrescription(Parties(Some(r), Some(r))).Success?
  {
  }
}
