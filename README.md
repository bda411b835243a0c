# MedApp core, modelled in Dafny

MedApp is a Django healthcare application with browser scripts. Hospitals, doctors, patients and administrators use it. This project models the parts of it that follow fixed rules, and proves properties about them.

- **Schedules.** Doctors' duties, weekly shifts, bookable availability slots, leave requests and per-date overrides. This includes the slot generator: it walks a date range and cuts each open day of a shift into fixed-length slots around the break. Also modelled: the booking state machine, the leave and override transitions with their slot sweeps, the per-date availability counts, the repository queries, the serializer and form validators, and the permission classes.
- **Accounts.** Registration, authentication with the five-failure lockout, profile updates, password changes and the verification tokens. Also modelled: the activity log, the forms, serializers and permission classes, and the account page script (strength meter, live requirements, submit checks).
- **Prescriptions.** The prescription and medication tables, the one-line-per-medication summary, the finalize and revoke transitions, and the object permission. Also the create page's medication editor, the list search, the create-form checks and the stored draft.
- **Smaller tables.**
  - Appointments: creation, cancellation and rescheduling guards.
  - Departments, unique by hospital and name.
  - Each patient's profile, saved doctors and medical records.
  - The keyword urgency triage.
- **Admin panel.**
  - Backup records and their status machine.
  - Typed configuration values.
  - The audit trail and its counts.
  - The serializer validators and the permission classes.
  - The page script: the AJAX options, table search, category tabs, required fields, CSV export and the backup button.
- **Reports.** Report creation, generation and export, the pre-save publication check, category seeding, the file-name builder, the form checks and the permissions.
- **Shared page components.** The pagination query builder with its single-navigation guard, and the filter chips.

Code that updates state in place becomes a class whose fields are the tables or page elements it changes. Pure code becomes functions. Each loop of the source is a method proved equal to a specification function. The clock, random values, password hashing, mail delivery, the browser's URL parsing and the validators `MedApp.isValidEmail` and `MedApp.isValidPhone` are parameters. Three other helpers the scripts call but do not define (`MedApp.clearFormErrors`, `showFieldError` and `showToast`) are given an assumed meaning instead; see "Left out".

The modules follow the application's packages, one module per file. `Base` holds the shared value types, string helpers and sequence lemmas.

Where the source's docstrings and comments differ from its code, the model follows the code. Three such cases:
- `ReportForm.clean`, `ScheduleForm.clean` and `ScheduleSerializer.validate` compare a `Doctor` row with a `Patient` row. Django never treats rows of two models as equal, so that check can never fire (`ReportForms.ChoicesAlwaysPass`, `ScheduleValidation.ScheduleTimesDecide`).
- `approve_leave` raises before it sweeps any slot (see Findings).
- The slot generator computes a slot's end with `.time()`, which wraps at midnight. On some late shifts the loop then runs forever; on others it stops after storing a slot that ends before it starts and slots that start before the shift does. The model generates slots with the corrected end and models the loop as written beside it (see Findings).

## Model

| member | source | states |
|---|---|---|
| Access.ReadOrStaffTable | schedules/permissions.py:22-28 | Safe methods are exactly GET, HEAD and OPTIONS; a safe method needs authentication, any other needs staff; the anonymous requester passes neither |
| AccountPermissions.IsOwnerOrAdmin | accounts/permissions.py:16-38 | Fails with AttributeError iff the requester is anonymous; an ADMIN passes; anyone else passes iff the object (or its user) is the requester |
| AccountPermissions.OwnerOnlyOwnRows | accounts/permissions.py:31-38 | A signed-in non-admin reaches their own rows and user record, never another user's and never a row with no owner |
| AccountPermissions.RolePermissionTable | accounts/permissions.py:45-131 | The combined role permissions are the unions of the single ones; at most one single-role permission holds; hospital-or-doctor and doctor-or-patient together mean doctor |
| AccountPermissions.AnonymousRefused | accounts/permissions.py:45-131 | The anonymous user passes no role, verified or active check, and the owner check raises for them |
| AccountRecords.RoleDisplayFollowsChoices | accounts/models.py:35-40 | The display label is the one USER_ROLES pairs with the role; an unlisted role shows as itself |
| AccountRecords.UserLabel | accounts/models.py:74-75 | The label starts with the username |
| AccountRecords.RolesExclusive | accounts/models.py:77-91 | A listed role makes exactly one of the four role predicates true; an unlisted one makes none true |
| AccountRecords.PatientLabel | accounts/tests/test_models.py:81-85 | A patient called "testuser" renders as "testuser (Patient)" |
| AccountRecords.GetProfile | accounts/models.py:93-108 | The profile of the user's role: hospital, doctor or patient; None for ADMIN and any other role |
| AccountRecords.TokenLabel | accounts/models.py:169-170 | The label starts with the username |
| AccountRecords.TokenValidity | accounts/models.py:172-176 | A used token is never valid; one expiring exactly now is invalid; a token valid later was valid earlier; unused and unexpired is valid |
| AccountServices.UserByLogin | accounts/repositories.py:70-80 | None iff no user has the identifier as username or its lowercase form as email; MultipleObjectsReturned iff two users match; otherwise the one user that matches |
| AccountServices.LoginAmbiguous | accounts/repositories.py:70-80 | An identifier that is one user's username and another's email makes the lookup raise MultipleObjectsReturned |
| AccountServices.EmailLookupCaseBlind | accounts/repositories.py:62-86 | Two addresses equal up to case find the same user and agree on existence |
| AccountServices.UserByEmail | accounts/repositories.py:61-67 | `.get` on the lowercased address: None iff no user holds it; MultipleObjectsReturned iff two users hold it; otherwise the one user holding it |
| AccountServices.EmailAmbiguous | accounts/repositories.py:61-67 | Two users holding one address (reachable by clearing it, accounts/services.py:134-137) make the lookup raise MultipleObjectsReturned |
| AccountServices.EmailFoundAnyCase | accounts/repositories.py:61-86 | An address stored lowercase by exactly one user is found as that user, and exists, under any capitalisation |
| AccountServices.SetFieldEffect | accounts/repositories.py:127-131 | One setattr changes the named field, lowercasing an email, and no other settable field |
| AccountServices.ApplyFieldsKeeps | accounts/repositories.py:127-133 | The id, the password and the verified, active and staff flags are never assigned by the field loop |
| AccountServices.ApplyFieldsSets | accounts/repositories.py:117-133 | With distinct keyword names, every settable field ends with the given value (an email lowercased) or keeps its old one when not given |
| AccountServices.FieldValueLast | accounts/repositories.py:127-131 | With distinct names, the last argument is the only one carrying its name, and the others are found before it |
| AccountServices.ValidToken | accounts/repositories.py:218-238 | Some iff a token has that string and type, is unused and expires strictly after now; the result is such a token |
| AccountServices.UsedTokenSpent | accounts/repositories.py:218-246 | With unique token strings, a used token's string never finds a valid token again, of any type |
| AccountServices.DeleteExpiredTokens | accounts/repositories.py:265-270 | Keeps exactly the tokens expiring at or after now; kept plus deleted is the old count |
| AccountServices.ExpiringNowKept | accounts/repositories.py:218-270 | A token expiring exactly now is kept by the cleanup and yet is not valid |
| AccountServices.DeleteUserTokens | accounts/repositories.py:273-284 | Keeps exactly the tokens not of the user (and type, when given); other users' tokens all stay; kept plus deleted is the old count |
| AccountServices.FailedLoginAttempts | accounts/repositories.py:363-382 | The count of the user's failed LOGIN entries at or after now minus the window |
| AccountServices.FailedLoginsIgnoreOthers | accounts/repositories.py:376-380 | An entry of another user, a success, or another action never changes the count |
| AccountServices.FailureCounts | accounts/services.py:98-114 | A failed login logged now adds exactly one to the lockout count |
| AccountServices.UserActivities | accounts/repositories.py:318-329 | The newest `limit` of the user's entries, newest first: as many as there are up to the limit, each no more often than stored, and every entry left out no newer than the last one returned |
| AccountServices.PhoneCodeShape | accounts/services.py:293 | Every draw below 1000000 gives six digits that read back as the draw |
| AccountServices.PhoneCodeInjective | accounts/services.py:293 | Distinct draws give distinct codes |
| AccountServices.AccountStore.Log | accounts/repositories.py:294-316 | Appends one activity entry and changes nothing else |
| AccountServices.AccountStore.RegisterUser | accounts/services.py:28-74 | Username taken, then email taken, fail with the source's messages and change nothing; a taken token string or a failed verification mail fails and the atomic block leaves the tables as they were; otherwise one user with lowercased email, one EMAIL token valid 24 hours and one REGISTER entry are added |
| AccountServices.AccountStore.AuthenticateUser | accounts/services.py:77-116 | An identifier two users match: MultipleObjectsReturned, nothing logged; unknown identifier: None, nothing logged; five or more recent failures: the lockout error, nothing logged; otherwise the user iff password matches and active, with one LOGIN entry carrying the outcome |
| AccountServices.AccountStore.UpdateProfile | accounts/services.py:119-149 | A non-empty new email, different from the stored one and already present, is refused with nothing changed; otherwise the fields are applied and one PROFILE_UPDATE entry is logged |
| AccountServices.AccountStore.UpdateUser | accounts/repositories.py:117-133 | The row becomes the field loop applied to it; other rows are untouched |
| AccountServices.AccountStore.ChangePassword | accounts/services.py:152-181 | A wrong current password raises "Current password is incorrect" and changes nothing; otherwise the password is replaced and one PASSWORD_CHANGE entry is logged |
| AccountServices.AccountStore.DeactivateAccount | accounts/services.py:194-213 | Clears is_active only and logs one PROFILE_UPDATE entry |
| AccountServices.AccountStore.CreateToken | accounts/repositories.py:189-208 | Appends the unused token iff its string is not taken; otherwise nothing changes |
| AccountServices.AccountStore.CreateEmailVerificationToken | accounts/services.py:222-246 | Stores an EMAIL token expiring 24 hours from now and returns its string, unless the string is taken |
| AccountServices.AccountStore.CreatePhoneVerificationToken | accounts/services.py:282-306 | Stores a six-digit PHONE code expiring in 10 minutes and returns it, unless the code is taken |
| AccountServices.AccountStore.Verify | accounts/services.py:250-279 | No valid token: None and nothing changes; otherwise its user is marked verified, the token used, one VERIFICATION entry logged, and the string never validates again |
| AccountServices.AccountStore.VerifyEmail | accounts/services.py:250-279 | No valid EMAIL token: None and nothing changes; otherwise the token's user is returned and marked verified, the token is used up and one VERIFICATION entry is logged, and the string never validates again |
| AccountServices.AccountStore.VerifyPhone | accounts/services.py:308-339 | No valid PHONE code: None and nothing changes; otherwise the code's user is returned and marked verified, the code is used up and one VERIFICATION entry is logged, and the code never validates again |
| AccountServices.AccountStore.MarkAsUsed | accounts/repositories.py:241-245 | Only that token's is_used changes |
| AccountServices.AccountStore.CreatePasswordResetToken | accounts/services.py:342-378 | Two users on the address: MultipleObjectsReturned, nothing changes; unknown email: None, nothing changes; otherwise the user's reset tokens are deleted and a new one valid one hour is stored; a taken string fails with the deletion kept, and a failed reset mail fails with the new token kept |
| AccountServices.AccountStore.ResetPassword | accounts/services.py:382-413 | No valid reset token: None and nothing changes; otherwise the password is set, the token used up and one PASSWORD_RESET entry logged |
| AccountServices.AccountStore.DeleteExpired | accounts/repositories.py:265-270 | The table becomes DeleteExpiredTokens of the old one, and the count is returned |
| AccountServices.AccountStore.DeleteUserTokensOf | accounts/repositories.py:273-284 | The table becomes DeleteUserTokens of the old one, and the count is returned |
| AccountValidation.RegistrationFormEmail | accounts/forms.py:87-92 | Accepts iff no stored user has the lowercased address, returning it lowercased; otherwise "This email address is already registered." |
| AccountValidation.ProfileFormEmail | accounts/forms.py:155-162 | Accepts iff no other user has the lowercased address, returning it lowercased; otherwise "This email address is already in use." |
| AccountValidation.OwnEmailAccepted | accounts/forms.py:155-162 | Keeping one's own address, in any case, is accepted |
| AccountValidation.CleanOldPassword | accounts/forms.py:198-203 | Accepts iff the current password matches, returning it; otherwise "Current password is incorrect." |
| AccountValidation.PasswordChangeFormClean | accounts/forms.py:205-217 | An error on new_password2, "New passwords do not match.", iff both cleaned values are given, non-empty and differ; otherwise the cleaned data is returned unchanged |
| AccountValidation.ResetConfirmFormClean | accounts/forms.py:255-266 | An error on new_password2, "Passwords do not match.", iff both cleaned values are given, non-empty and differ; otherwise the cleaned data is returned unchanged |
| AccountValidation.RegistrationEmail | accounts/serializers.py:50-54 | Accepts iff the lowercased address is not stored, returning it lowercased; otherwise "This email is already registered." |
| AccountValidation.RegistrationEmailAgrees | accounts/serializers.py:50-54 | The registration form and serializer accept the same addresses and clean them alike |
| AccountValidation.RegistrationUsername | accounts/serializers.py:56-60 | Accepts iff the username is not stored; otherwise "This username is already taken." |
| AccountValidation.RegistrationValidate | accounts/serializers.py:62-79 | A mismatch gives the password_confirm error; then strength messages go on password; otherwise the attributes minus password_confirm are returned unchanged |
| AccountValidation.UpdateEmail | accounts/serializers.py:144-149 | Accepts iff no other user has the lowercased address; otherwise "This email is already in use." |
| AccountValidation.UpdateEmailAgrees | accounts/serializers.py:144-149 | The profile form and the update serializer accept the same addresses and clean them alike |
| AccountValidation.PasswordChangeValidate | accounts/serializers.py:183-199 | The new_password_confirm error "New passwords do not match." iff the two differ; clean iff they agree and the strength check passes |
| AccountValidation.ResetConfirmValidate | accounts/serializers.py:236-252 | The new_password_confirm error "Passwords do not match." iff the two differ; clean iff they agree and the strength check passes |
| AccountValidation.SerializerStricterThanForm | accounts/serializers.py:236-252 | Compares the two cross-field methods only: every pair `clean()` of the reset form rejects, the serializer's `validate()` rejects too; an empty first password with a non-empty second passes `clean()` but not `validate()` (the required-field checks that run before both refuse "" anyway) |
| AccountValidation.ResetRequestEmail | accounts/serializers.py:210-216 | Never refuses: returns the address lowercased, same length, equal ignoring case |
| PageForms.ApplyMarksField | accounts/static/accounts/js/accounts.js:115-126 | A field shows an error iff it had one or some mark names it; the message shown is that of the last mark naming it; a field no mark names keeps its message |
| PageForms.ApplyMarksAppend | accounts/static/accounts/js/accounts.js:182-233 | Making two runs of marks one after the other is making their concatenation |
| PageForms.ApplyWhen | accounts/static/accounts/js/accounts.js:118-126 | A guarded mark sets the field's message when its condition holds and changes nothing otherwise |
| PageForms.RequiredMarks | accounts/static/accounts/js/accounts.js:199-205 | Every required-field mark carries "This field is required" and names a listed field that is present and blank after trimming |
| PageForms.RequiredMarksComplete | accounts/static/accounts/js/accounts.js:199-205 | No required-field mark is made iff every listed, present field is non-blank; every listed, present, blank field is marked |
| PageForms.FormView.constructor | accounts/static/accounts/js/accounts.js:105-109 | A fresh form shows no field errors and no notices |
| PageForms.FormView.ClearFormErrors | accounts/static/accounts/js/accounts.js:114 | Assumed behaviour: `MedApp.clearFormErrors` is called here but defined nowhere in the scripts; the model takes it to remove all field errors and keep the notices |
| PageForms.FormView.ShowFieldError | accounts/static/accounts/js/accounts.js:119 | Assumed behaviour: `MedApp.showFieldError` is called here but defined nowhere in the scripts; the model takes it to replace that field's message and change no other field |
| PageForms.FormView.ShowToast | accounts/static/accounts/js/accounts.js:231 | Assumed behaviour: `MedApp.showToast` is called here but defined nowhere in the scripts; the model takes it to append the notice after the earlier ones |
| PageForms.FormView.CheckRequired | accounts/static/accounts/js/accounts.js:199-205 | The loop leaves the errors the required-field marks describe; it reports valid iff it made no mark |
| PageForms.FormView.ShowMarks | accounts/static/accounts/js/accounts.js:182-233 | The loop leaves the errors the given marks describe, in order |
| AccountPages.CheckPasswordStrength | accounts/static/accounts/js/accounts.js:39-54 | The score counts the four checks (a `length` of at least 8 UTF-16 units, a code point above U+FFFF counting two; an ASCII letter, a digit, a listed special character) and is at most 4; weak iff it is at most 1, fair iff 2, good iff 3, strong iff 4 |
| AccountPages.Utf16Length | accounts/static/accounts/js/accounts.js:41 | JavaScript's `length`: between the number of characters and twice it, and equal to it iff no character lies above U+FFFF |
| AccountPages.EmojiCountsTwo | accounts/static/accounts/js/accounts.js:39-54 | Six letters and one emoji, seven characters, pass the length check and score 2 ("fair"), so the weak-password gates let them through |
| AccountPages.ScoreExtremes | accounts/static/accounts/js/accounts.js:39-54 | The score is 0 iff all four checks fail and 4 iff all four hold |
| AccountPages.AdviceSuffices | accounts/static/accounts/js/accounts.js:217 | A password of at least 8 UTF-16 units with a letter and a digit, as the weak-password advice says, scores at least 3 (good or strong) |
| AccountPages.ShortLettersWeak | accounts/static/accounts/js/accounts.js:39-54 | A password of fewer than 8 letters only is weak |
| AccountPages.UpdateRequirements | accounts/static/accounts/js/accounts.js:66-94 | The length marker (8 UTF-16 units, as `.length` counts), the letter marker and the number marker agree with the strength checks; the match marker exists iff the confirmation field does and is on iff the two are equal and non-empty |
| AccountPages.LoginBlockedIff | accounts/static/accounts/js/accounts.js:109-132 | Login is let through iff the trimmed username and the password are non-empty; each missing one is marked with its own message |
| AccountPages.RegistrationBlockedIff | accounts/static/accounts/js/accounts.js:182-233 | Registration is let through iff every present required field is filled, a given email is valid, a given password scores at least 2 with its length in UTF-16 units, the two passwords agree and the terms box is not unchecked |
| AccountPages.ProfileBlockedIff | accounts/static/accounts/js/accounts.js:267-296 | A profile edit is let through iff the present name and email fields are filled and a given email is valid |
| AccountPages.PasswordChangeErrors | accounts/static/accounts/js/accounts.js:304-350 | The confirmation is marked iff it is empty (with "confirm") or differs (with "do not match"); the current password is marked iff empty; an unchanged new password is marked as the same as the old |
| AccountPages.SubmitLogin | accounts/static/accounts/js/accounts.js:109-132 | The errors shown are exactly the login marks and the submission proceeds iff there are none; only the errors change |
| AccountPages.SubmitRegistration | accounts/static/accounts/js/accounts.js:182-245 | The errors shown are exactly the registration marks, whose strength gate counts the length in UTF-16 units; an unchecked terms box adds the terms notice; it proceeds iff no mark and no notice was made |
| AccountPages.SubmitProfileEdit | accounts/static/accounts/js/accounts.js:267-296 | The errors shown are exactly the profile marks, it proceeds iff there are none, and only the errors change |
| AccountPages.SubmitPasswordChange | accounts/static/accounts/js/accounts.js:304-350 | The errors shown are exactly the password-change marks, whose strength gate counts the length in UTF-16 units; it proceeds iff there are none, and only the errors change |
| AdminPages.AjaxOptions | adminpanel/static/adminpanel/js/admin.js:8-25 | The request carries the given verb, the JSON content type and the XMLHttpRequest marker, the CSRF header iff a token is on the page (with that token) and no other header; a body iff data is given and the verb is not GET |
| AdminPages.AjaxHeadersIndependent | adminpanel/static/adminpanel/js/admin.js:8-25 | A GET never carries a body, and the headers do not depend on the verb or the data |
| AdminPages.DataTable.constructor | adminpanel/static/adminpanel/js/admin.js:255-265 | Every row of a fresh table is shown |
| AdminPages.DataTable.FilterTable | adminpanel/static/adminpanel/js/admin.js:268-276 | A row is shown iff its lower-cased text contains the lower-cased search term |
| AdminPages.SearchNarrows | adminpanel/static/adminpanel/js/admin.js:268-276 | The empty term shows every row, and lengthening the term never shows a row the shorter term hid |
| AdminPages.CategoryShown | adminpanel/static/adminpanel/js/admin.js:373-383 | An element is shown iff the category is 'all' or the element's own category is the one chosen |
| AdminPages.TabsHiddenAsWritten | adminpanel/static/adminpanel/js/admin.js:355-383 | With the tabs matched by the same selector, choosing a category other than 'all' hides every tab of another category and keeps the clicked one |
| AdminPages.AllTabLostAsWritten | adminpanel/static/adminpanel/js/admin.js:355-383 | With tabs 'all' and 'A', a click on 'A' hides the 'all' tab |
| AdminPages.CategoryPage.constructor | adminpanel/static/adminpanel/js/admin.js:355-358 | A fresh page shows every tab and every item |
| AdminPages.CategoryPage.ClickTabAsWritten | adminpanel/static/adminpanel/js/admin.js:359-370 | Only the clicked tab is active, and tabs and items alike are filtered by its category |
| AdminPages.CategoryPage.ClickTab | adminpanel/static/adminpanel/js/admin.js:359-383 | Only the clicked tab is active, the tabs stay as they were, and an item is shown iff the category is 'all' or the item's |
| AdminPages.OneActiveTab | adminpanel/static/adminpanel/js/admin.js:361-365 | After a click exactly the clicked tab is active |
| AdminPages.AdminForm.constructor | adminpanel/static/adminpanel/js/admin.js:503-508 | The form holds the required fields' values |
| AdminPages.AdminForm.ValidateForm | adminpanel/static/adminpanel/js/admin.js:503-521 | Without a form it answers false and changes nothing; otherwise a field is marked as an error iff it is blank after trimming, and it answers true iff none is |
| AdminPages.ExportTable | adminpanel/static/adminpanel/js/admin.js:434-450 | There is CSV text iff the table exists; each row's cells are joined by commas and the rows by newlines |
| AdminPages.CsvAppendRow | adminpanel/static/adminpanel/js/admin.js:441-448 | A further row adds a newline and its comma-joined cells |
| AdminPages.CsvNotQuoted | adminpanel/static/adminpanel/js/admin.js:441-448 | Cells are not quoted: a cell holding a comma reads as two cells |
| AdminPages.BackupButton.constructor | adminpanel/static/adminpanel/js/admin.js:222-227 | The button starts enabled with its "Create Backup" caption, no notices and no reload |
| AdminPages.BackupButton.InitiateBackup | adminpanel/static/adminpanel/js/admin.js:308-327 | On success the button stays disabled with "Creating backup...", the success notice is added and a reload is scheduled; on failure the button is re-enabled with "Create Backup" and the failure notice is added |
| AdminPermissions.AdminAccessTable | adminpanel/permissions.py:8-39 | Admin-or-read-only lets a safe method through iff the requester is signed in and any other iff they are staff; strict admin access needs staff and active; super-admin needs superuser; the anonymous requester passes neither strict check |
| AdminPermissions.StaffAloneIsNotSuper | adminpanel/permissions.py:22-39 | An active staff member who is not a superuser passes strict admin access but not the superuser check |
| AdminRecords.StripLeft | adminpanel/models.py:104 | The result is a suffix of the text and does not start with white space |
| AdminRecords.StripRight | adminpanel/models.py:104 | The result is a prefix of the text and does not end with white space |
| AdminRecords.ParseInt | adminpanel/models.py:104 | Every failure is a ValueError, and text that is empty after stripping fails |
| AdminRecords.StripKeeps | adminpanel/models.py:104 | Text with no white space at either end is unchanged by stripping |
| AdminRecords.ParseIntRoundTrip | adminpanel/models.py:104 | Reading the decimal text of any integer gives that integer back |
| AdminRecords.TypedValueOf | adminpanel/models.py:101-112 | INTEGER fails with ValueError iff its text is not an integer, otherwise giving that integer; FLOAT fails with ValueError and JSON with JSONDecodeError iff `float()` or `json.loads` rejects the text; BOOLEAN is true iff the lower-cased text is true, 1 or yes and never fails; any other type gives the text itself |
| AdminRecords.BooleanIgnoresCase | adminpanel/models.py:107-108 | "TRUE" reads as true |
| AdminRecords.IntegerRoundTrip | adminpanel/models.py:103-104 | An INTEGER configuration holding the text of a number reads back as that number |
| AdminRecords.IntegerRejectsWord | adminpanel/models.py:103-104 | An INTEGER configuration holding "ten" raises ValueError |
| AdminRecords.Duration | adminpanel/models.py:207-211 | No duration iff the backup has not completed; otherwise the start plus the duration is the completion time |
| AdminSerializers.ValidateKey | adminpanel/serializers.py:55-60 | A key is refused, with "Configuration key already exists.", iff a configuration is being created and the key is already stored; otherwise it is kept as given |
| AdminSerializers.ProfileComplete | adminpanel/serializers.py:253-255 | A profile is complete iff first name, last name and email are all non-empty |
| AdminSerializers.LastLoginDisplay | adminpanel/serializers.py:257-262 | "Never" iff the user has never logged in; otherwise the elapsed-time text followed by " ago" |
| AdminSerializers.ValidateConfirm | adminpanel/serializers.py:331-335 | A restore is accepted iff it is confirmed; a refusal says "You must confirm the restore operation." |
| AdminSerializers.ValidateContactNumber | adminpanel/serializers.py:359-365 | A contact number is accepted iff it is non-empty and all ASCII digits, and then kept as given |
| AdminSerializers.EmptyContactNumberRejected | adminpanel/serializers.py:359-365 | The empty contact number is refused |
| AdminSerializers.ValidateAppointment | adminpanel/serializers.py:394-404 | An appointment is refused iff both parties are given and are the same record |
| AdminSerializers.DifferentModelsPass | adminpanel/serializers.py:394-404 | A patient and a doctor that are records of different models never clash, whatever their keys |
| AdminSerializers.ValidatePrescription | adminpanel/serializers.py:428-438 | A prescription is refused iff the patient or the doctor is missing |
| AdminSerializers.ValidatorsDiffer | adminpanel/serializers.py:394-438 | With neither party the appointment check passes and the prescription check fails; with the same record for both it is the other way round |
| AdminServices.CompletedRecord | adminpanel/services.py:37-48 | A completed backup has the path, the size and the metadata given (empty when none), completes now, and keeps every other field |
| AdminServices.FailedRecord | adminpanel/services.py:50-59 | A failed backup has the error message given, completes now, and keeps every other field |
| AdminServices.NoStatusGuard | adminpanel/services.py:37-59 | Neither step checks the current status: a failed backup can be completed (its error message stays) and a completed one can be failed (its file stays), each with a duration up to the later call |
| AdminServices.FindBackup | adminpanel/services.py:41 | The lookup finds a backup with the identifier, or answers none iff no backup has it |
| AdminServices.ConfigLeTotal | adminpanel/models.py:92 | The (category, key) ordering of configurations is total |
| AdminServices.ConfigLeTrans | adminpanel/models.py:92 | The (category, key) ordering of configurations is transitive |
| AdminServices.ConfigByKey | adminpanel/repositories.py:29-33 | The configuration found has the key ignoring case and comes first in (category, key) order among those that do; none is found iff no key matches ignoring case |
| AdminServices.LastIsLeast | adminpanel/repositories.py:29-33 | When the last matching row precedes the best earlier one, it comes first among all the matches |
| AdminServices.TallyCounts | adminpanel/services.py:120-128 | The summary's keys are exactly the actions present, and each maps to the number of logs with that action |
| AdminServices.ActionsDistinct | adminpanel/services.py:120-128 | The actions listed in order of first appearance are distinct |
| AdminServices.SumOverOther | adminpanel/services.py:126-127 | Changing the count of an unlisted action leaves the total over the listed ones unchanged |
| AdminServices.SumOverBump | adminpanel/services.py:126-127 | Bumping the count of a listed action adds one to the total |
| AdminServices.SumOverNew | adminpanel/services.py:126-127 | Adding a new action with count one adds one to the total |
| AdminServices.TallyTotal | adminpanel/services.py:120-128 | The counts of the summary add up to the number of logs |
| AdminServices.ActionsAreKeys | adminpanel/services.py:120-128 | An action is a key of the summary iff it is among the actions present |
| AdminServices.TallyLoop | adminpanel/services.py:125-128 | The loop over the logs builds the summary as defined |
| AdminServices.AdminStore.constructor | adminpanel/services.py:1-19 | A store starts with the configurations given and no backups or logs |
| AdminServices.AdminStore.InitiateBackup | adminpanel/services.py:24-35 | A new in-progress backup with the next identifier, the type and user given, started now, with no file and no completion, is appended |
| AdminServices.AdminStore.CompleteBackup | adminpanel/services.py:37-48 | An unknown identifier raises DoesNotExist and changes nothing; otherwise that backup, and no other, is replaced by its completed record |
| AdminServices.AdminStore.FailBackup | adminpanel/services.py:50-59 | An unknown identifier raises DoesNotExist and changes nothing; otherwise that backup, and no other, is replaced by its failed record |
| AdminServices.AdminStore.LogSystemEvent | adminpanel/services.py:87-99 | A log entry with the next identifier and the fields given (empty metadata when none) is appended |
| AdminServices.AdminStore.UpdateConfigurationValue | adminpanel/services.py:64-82 | A key that matches nothing, ignoring case, raises "Configuration key '<key>' not found." and changes nothing; otherwise the first match gets the new value and time and one INFO SYSTEM entry "Configuration '<key>' updated to '<value>'" is logged |
| AdminServices.AdminStore.RecordAuditLog | adminpanel/services.py:104-118 | An audit entry with the next identifier, the object identifier as text and empty changes when none is appended |
| AdminServices.AdminStore.GetModelAuditSummary | adminpanel/services.py:120-128 | Over the model's logs, the summary holds exactly the actions present, each with its count, and the counts add up to the number of logs |
| Appointments.StatusValue | appointments/models.py:6-10 | Every status is stored as a non-empty value |
| Appointments.StatusValuesDistinct | appointments/models.py:6-10 | Two statuses are stored as the same value iff they are the same status |
| Appointments.Find | appointments/repositories.py:14-19 | The lookup finds a row with the identifier, or answers None iff no row has it |
| Appointments.FindUnique | appointments/repositories.py:14-19 | With strictly growing identifiers the row found is the only one with that identifier |
| Appointments.NoClashWithSelf | appointments/models.py:22 | In a table without double bookings no other row holds a row's doctor and time |
| Appointments.RescheduleKeepsTable | appointments/models.py:20-22 | Moving a row to a time its doctor has free keeps the identifiers and the no-double-booking rule |
| Appointments.AppendKeepsTable | appointments/models.py:20-22 | Appending a row with the next identifier at a free time keeps the identifiers and the no-double-booking rule |
| Appointments.UpcomingAppointments | appointments/services.py:19-21 | The list holds exactly the user's appointments as patient at or after now, each as often as stored, earliest first |
| Appointments.AppointmentBook.constructor | appointments/models.py:12-22 | The book starts empty and consistent |
| Appointments.AppointmentBook.CreateAppointment | appointments/services.py:6-8 | A doctor already booked at that time raises IntegrityError and changes nothing; otherwise a pending appointment with the next identifier and the data given is appended |
| Appointments.AppointmentBook.CancelAppointment | appointments/services.py:10-17 | When the appointment exists and the user is its patient or doctor, it alone becomes cancelled (whatever its status) and is returned; otherwise None and nothing changes |
| Appointments.AppointmentBook.RescheduleAppointment | appointments/services.py:23-30 | A missing or non-pending appointment gives None and changes nothing; a time its doctor already holds raises IntegrityError and changes nothing; otherwise only its time changes |
| Departments.DepartmentByName | departments/repositories.py:21-22 | The department found belongs to the hospital and has the name; none is found iff no row does |
| Departments.FindId | departments/repositories.py:14-16 | The lookup finds a row with the identifier, or answers none iff no row has it |
| Departments.SortedByNameCons | departments/models.py:16 | A name-sorted list stays sorted behind a department whose name comes first |
| Departments.SortedByNameHead | departments/models.py:16 | The head of a name-sorted list has the least name and the rest is sorted |
| Departments.InsertByName | departments/repositories.py:18-19 | Inserting into a name-sorted list keeps it sorted and adds exactly the new department |
| Departments.SortByName | departments/repositories.py:18-19 | Ordering by name gives a name-sorted permutation |
| Departments.ListDepartments | departments/services.py:21-22 | The hospital's departments, each as often as stored, and no other, ordered by name |
| Departments.ListAfterAdd | departments/services.py:21-22 | A department added to a hospital appears once more in its list |
| Departments.Without | departments/repositories.py:11-12 | The rows left are exactly those not of that hospital and name |
| Departments.WithoutPresent | departments/repositories.py:11-12 | With unique (hospital, name) pairs, removing a present name deletes exactly one row |
| Departments.AddThenRemove | departments/services.py:7-16 | Adding a new department and then removing it by name gives back the table as it was |
| Departments.WithoutKeepsTable | departments/repositories.py:11-12 | Removal keeps the identifiers ordered and the (hospital, name) pairs unique |
| Departments.Apply | departments/repositories.py:14-16 | The update sets exactly the fields given and keeps the identifier, the creation time and every field not given |
| Departments.ApplyLaws | departments/repositories.py:14-16 | An update with no fields changes nothing, and applying the same update twice is applying it once |
| Departments.ReplaceKeepsTable | departments/models.py:15 | Replacing a row by one whose (hospital, name) no other row holds keeps the table consistent |
| Departments.AppendKeepsTable | departments/models.py:15 | Appending a row with the next identifier and an unused (hospital, name) keeps the table consistent |
| Departments.DepartmentTable.constructor | departments/models.py:7-16 | The table starts empty and consistent |
| Departments.DepartmentTable.CreateDepartment | departments/repositories.py:3-9 | A (hospital, name) already held raises IntegrityError and changes nothing; otherwise a row with the next identifier and the data given is appended |
| Departments.DepartmentTable.RemoveDepartment | departments/repositories.py:11-12 | The rows of that hospital and name are deleted and their number is returned |
| Departments.DepartmentTable.UpdateDepartment | departments/repositories.py:14-16 | An unknown identifier raises DoesNotExist; an update onto a (hospital, name) another row holds raises IntegrityError; both change nothing; otherwise that row alone is updated and returned |
| Departments.DepartmentTable.AddDepartment | departments/services.py:7-11 | A name the hospital already has raises "Department already exists." and changes nothing; otherwise the new department is appended |
| Departments.DepartmentTable.DeleteDepartment | departments/services.py:13-16 | A name the hospital does not have raises "Department not found." and changes nothing; otherwise its one row is deleted |
| Departments.DepartmentTable.EditDepartment | departments/services.py:18-19 | The service passes straight through to the repository: an unknown identifier raises DoesNotExist; a patch onto a (hospital, name) another row holds raises IntegrityError; both change nothing; otherwise that row alone is updated and returned |
| Patients.UploadCheck | patients/services.py:28-30 | A file passes iff it is at most 10 MiB (10485760 bytes); otherwise it fails with "File too large (max 10MB)" |
| Patients.UploadBoundary | patients/services.py:29 | 10485760 bytes pass and one byte more fails |
| Patients.ProfileOf | patients/repositories.py:4-6 | The lookup finds the user's profile, or answers none iff the user has none |
| Patients.SavedIndex | patients/repositories.py:14-16 | The lookup finds a saved row of that patient and doctor, or answers none iff there is none |
| Patients.Unsaved | patients/repositories.py:18-19 | The rows left are exactly those not of that patient and doctor |
| Patients.SavedDoctorsOf | patients/repositories.py:11-12 | A doctor is among the patient's saved doctors iff some row links the two |
| Patients.SavedSetLaws | patients/repositories.py:14-19 | Saving adds the doctor to that patient's set only; removing takes the doctor out of it |
| Patients.SavedAdd | patients/repositories.py:14-16 | Appending a saved-doctor row adds its doctor to its own profile's set and to no other |
| Patients.SavedRemove | patients/repositories.py:18-19 | Removing a pair takes exactly that doctor out of the profile's set |
| Patients.RecordsOf | patients/repositories.py:24-25 | The profile's records, each as often as stored, and no other, newest first |
| Patients.UnsavedUnique | patients/models.py:25-26 | Removal keeps the (patient, doctor) pairs unique |
| Patients.SavedUniqueCons | patients/models.py:25-26 | A row whose pair no row of a unique table has keeps the table unique when put in front |
| Patients.SavedUniqueTail | patients/models.py:25-26 | The rows after the first are still unique |
| Patients.HeadKeyAbsent | patients/models.py:25-26 | With unique pairs, no later row has the first row's pair |
| Patients.ProfileLookupStable | patients/repositories.py:4-6 | Creating the profile of a user without one keeps one profile per user and is then the one found |
| Patients.SavedIndexMember | patients/repositories.py:11-16 | The doctor of any saved row is among its patient's saved doctors |
| Patients.SavedAppendUnique | patients/repositories.py:14-16 | Appending a pair not yet saved keeps the pairs unique |
| Patients.PatientStore.constructor | patients/models.py:9-37 | The store starts with no profiles, saved doctors or records |
| Patients.PatientStore.EnsureProfile | patients/services.py:9-14 | The user's existing profile is returned and nothing changes; otherwise a profile with the next identifier is created and returned |
| Patients.PatientStore.AddFavoriteDoctor | patients/services.py:17-20 | The doctor is saved for the user's profile; created is true iff the pair was not saved, in which case one row is appended, and otherwise the existing row is returned and nothing else changes; either way the doctor is then among the saved ones. The user's profile is created with the next profile identifier when the user has none, and the profile table is otherwise untouched |
| Patients.PatientStore.DeleteFavoriteDoctor | patients/services.py:22-25 | The rows of the user's profile and the doctor are deleted, the doctor is no longer saved, and the answer is always true. The user's profile is created with the next profile identifier when the user has none, and the profile table is otherwise untouched |
| Patients.PatientStore.UploadMedicalRecord | patients/services.py:28-32 | A file over 10 MiB is refused before any profile is created and nothing changes; otherwise one record for the user's profile is appended. The user's profile is created with the next profile identifier when the user has none, and the profile table is otherwise untouched |
| Patients.PatientStore.GetRecords | patients/services.py:34-36 | The records of the user's profile, newest first. The user's profile is created with the next profile identifier when the user has none, and the profile table is otherwise untouched |
| Urgency.PredictUrgency | patients/ml_integration.py:2-12 | The answer is high (score 0.95) iff "chest pain" or "breathing difficulty" occurs in the lower-cased text, and low (score 0.2) otherwise |
| Urgency.KeywordAnywhere | patients/ml_integration.py:9-11 | A keyword in any letter case anywhere in the text makes the answer high |
| Urgency.ShortTextLow | patients/ml_integration.py:9-12 | A text shorter than either keyword is low |
| Prescriptions.StatusValue | prescriptions/models.py:10-18 | Every status is stored as draft, final or revoked |
| Prescriptions.StatusLabel | prescriptions/models.py:14-18 | Every status is shown as Draft, Finalized or Revoked |
| Prescriptions.StatusValuesDistinct | prescriptions/models.py:10-18 | Two statuses share a stored value, or a label, iff they are the same status |
| Prescriptions.FromSpec | prescriptions/models.py:44-51 | The row stored from a medication dict keeps its name, blanks the text fields not given, and has quantity 1 when none is given |
| Prescriptions.QuantityError | prescriptions/models.py:51 | The quantity validator passes iff the quantity is at least 1 |
| Prescriptions.DefaultQuantityValid | prescriptions/models.py:51 | The default quantity passes the validator |
| Prescriptions.Join2 | prescriptions/services.py:35 | Joining two parts puts the separator between them |
| Prescriptions.Join3 | prescriptions/services.py:35 | Joining three parts puts the separator between each two |
| Prescriptions.Join4 | prescriptions/services.py:35 | Joining four parts puts the separator between each two |
| Prescriptions.PartsCases | prescriptions/services.py:28-34 | A line's parts are the name, the dosage and the frequency when non-empty, in that order, then the quantity |
| Prescriptions.LineShape | prescriptions/services.py:28-35 | A line is the name, then " \| " and the dosage or frequency for each that is non-empty, then " \| x" and the quantity |
| Prescriptions.SummaryGrows | prescriptions/services.py:26-36 | No medications give the empty summary; a further medication adds a newline and its line |
| Prescriptions.LineEnds | prescriptions/services.py:28-35 | A line starts with the name and ends with the quantity part |
| Prescriptions.SummaryEnds | prescriptions/services.py:26-36 | A summary starts with the first medication's name and ends with the last one's quantity part |
| Prescriptions.BuildSummary | prescriptions/services.py:26-36 | The loop builds the summary text as defined |
| Prescriptions.MedsOf | prescriptions/models.py:45 | Every medication listed for a prescription belongs to it |
| Prescriptions.MedsOfAppend | prescriptions/models.py:45 | Listing the medications of a table in two parts lists those of each part in order |
| Prescriptions.MedsOfUniform | prescriptions/models.py:45 | Rows that all belong to the prescription are all listed; rows none of which belongs to it list nothing |
| Prescriptions.WithoutMedsOf | prescriptions/serializers.py:41 | No row left after the deletion belongs to the prescription |
| Prescriptions.WithoutMedsOfKeeps | prescriptions/serializers.py:41 | Deleting one prescription's medications leaves every other prescription's list as it was |
| Prescriptions.Created | prescriptions/serializers.py:28-29 | One row per dict, each for the prescription, with consecutive identifiers from the next one |
| Prescriptions.OwnRows | prescriptions/serializers.py:28-29 | Rows added for a prescription after rows not its own are exactly its list |
| Prescriptions.IdsBelowSnoc | prescriptions/models.py:9-27 | A new prescription with the next identifier keeps identifiers below the counter |
| Prescriptions.IdsBelowSet | prescriptions/models.py:9-27 | Rewriting a prescription under its own identifier keeps identifiers below the counter |
| Prescriptions.WithoutMedsBelow | prescriptions/serializers.py:41 | Deleting medications keeps every row attached to an issued prescription with an issued identifier |
| Prescriptions.CreatedForNew | prescriptions/serializers.py:25-33 | Rows created for a new prescription keep the counters consistent and are exactly its list |
| Prescriptions.CreatedReplace | prescriptions/serializers.py:40-43 | Replacing one prescription's rows keeps the counters consistent, gives it exactly the new rows and leaves every other prescription's list as it was |
| Prescriptions.Patch | prescriptions/serializers.py:37-39 | Each given attribute is assigned and every other field, the identifier, the times and the summary included, is kept |
| Prescriptions.PatchLaws | prescriptions/serializers.py:37-39 | An update giving no attribute changes nothing, and the same update twice is the update once |
| Prescriptions.Finalized | prescriptions/models.py:35-37 | Finalising sets the status to final and stamps the update time, and keeps every other field |
| Prescriptions.RevokedAt | prescriptions/models.py:39-41 | Revoking sets the status to revoked and stamps the update time, and keeps every other field |
| Prescriptions.NoTransitionGuard | prescriptions/models.py:35-41 | Neither transition looks at the prior status: a revoked prescription can be finalised, a final one revoked, and finalising twice is finalising once |
| Prescriptions.DoctorOrOwnerTable | prescriptions/permissions.py:12-18 | Staff always pass; anyone else passes iff they have an identifier and are the patient or the doctor; with no doctor only the patient passes; the anonymous user never |
| Prescriptions.PrescriptionStore.constructor | prescriptions/models.py:9-51 | The store starts with no prescriptions and no medications |
| Prescriptions.PrescriptionStore.AddMedications | prescriptions/services.py:19-21 | One medication row per dict is appended for the prescription, with consecutive identifiers |
| Prescriptions.PrescriptionStore.AddRow | prescriptions/services.py:18 | The prescription is appended under the next identifier |
| Prescriptions.PrescriptionStore.Insert | prescriptions/services.py:15-24 | A prescription with the next identifier is appended, its medication rows after the stored ones, and its summary is built from those rows |
| Prescriptions.PrescriptionStore.CreatePrescription | prescriptions/services.py:14-24 | One draft prescription is appended with the patient, doctor and notes given, the file only when it has a name, created and updated now, and the summary of exactly its new medication rows |
| Prescriptions.PrescriptionStore.SerializerCreate | prescriptions/serializers.py:25-33 | One prescription is appended with the fields given over the model defaults, and the summary of exactly its new medication rows |
| Prescriptions.PrescriptionStore.ReplaceMedications | prescriptions/serializers.py:40-43 | The prescription's rows are replaced by new ones appended at the end; every other prescription's list is unchanged |
| Prescriptions.PrescriptionStore.SerializerUpdate | prescriptions/serializers.py:35-47 | The given attributes are assigned and the update time stamped; given medications replace the prescription's rows, otherwise the rows stay; the summary is rebuilt from its rows; no other prescription's list changes |
| Prescriptions.PrescriptionStore.Finalize | prescriptions/models.py:35-37 | Only that prescription changes, to its finalised record |
| Prescriptions.PrescriptionStore.Revoke | prescriptions/models.py:39-41 | Only that prescription changes, to its revoked record |
| PrescriptionPages.ReplaceFirstAbsent | prescriptions/static/prescriptions/js/prescriptions.js:55 | A name that does not contain "[]" is left as it is |
| PrescriptionPages.NoEarlierInTail | prescriptions/static/prescriptions/js/prescriptions.js:55 | No earlier occurrence in a text means none earlier in its tail |
| PrescriptionPages.ReplaceFirstAt | prescriptions/static/prescriptions/js/prescriptions.js:55 | Only the first occurrence of the pattern is replaced; the text before and after it is kept |
| PrescriptionPages.Suffixed | prescriptions/static/prescriptions/js/prescriptions.js:58-70 | A non-empty id or `for` attribute gets "_" and the counter appended; an absent or empty one is left as it is |
| PrescriptionPages.Clone | prescriptions/static/prescriptions/js/prescriptions.js:38-72 | The clone carries the counter as its index, one control and one label per template control and label, and the number counter + 1 when the template shows a number |
| PrescriptionPages.CloneAttributes | prescriptions/static/prescriptions/js/prescriptions.js:51-71 | In a clone the first "[]" of each name becomes "[n]" and a name without "[]" is kept; each non-empty id gets "_n"; a label that pointed at a control's id points at the control's new id |
| PrescriptionPages.FindItem | prescriptions/static/prescriptions/js/prescriptions.js:92-93 | The lookup finds an item with the data-index, or answers none iff no item has it |
| PrescriptionPages.RemovedAt | prescriptions/static/prescriptions/js/prescriptions.js:97 | Removing one item keeps all other items in order |
| PrescriptionPages.ShowButtons | prescriptions/static/prescriptions/js/prescriptions.js:106-117 | Every remove button is shown iff more than one item exists, and nothing else about the items changes |
| PrescriptionPages.AddedIndexFresh | prescriptions/static/prescriptions/js/prescriptions.js:41-82 | A new item's index is above every existing index and the counter stays above them all |
| PrescriptionPages.RemovalKeepsOthers | prescriptions/static/prescriptions/js/prescriptions.js:96-100 | After a removal the indices stay below the counter and the displayed numbers are not renumbered |
| PrescriptionPages.FindOwnIndex | prescriptions/static/prescriptions/js/prescriptions.js:92-93 | Each item's own index finds that item |
| PrescriptionPages.LiveCounterFindsNothing | prescriptions/static/prescriptions/js/prescriptions.js:74-82 | The counter's current value, which every remove button passes, names no existing item |
| PrescriptionPages.MedicationEditor.constructor | prescriptions/static/prescriptions/js/prescriptions.js:18 | The counter starts at 1 with the page's initial items |
| PrescriptionPages.MedicationEditor.UpdateRemoveButtons | prescriptions/static/prescriptions/js/prescriptions.js:106-117 | The loop sets each remove button's visibility as defined |
| PrescriptionPages.MedicationEditor.AddMedicationField | prescriptions/static/prescriptions/js/prescriptions.js:31-89 | Without the container or the template nothing changes; otherwise the clone under the current counter is appended, the counter goes up by one, the buttons are updated and "Medication field added" is shown |
| PrescriptionPages.MedicationEditor.RemoveMedication | prescriptions/static/prescriptions/js/prescriptions.js:91-101 | No item with that index, or a declined confirmation, changes nothing; otherwise that item alone is removed, the buttons are updated and "Medication removed" is shown |
| PrescriptionPages.MedicationEditor.ClickRemoveAsWritten | prescriptions/static/prescriptions/js/prescriptions.js:74-93 | A click on any item's remove button, confirmed or not, changes nothing |
| PrescriptionPages.MedicationEditor.ClickRemove | prescriptions/static/prescriptions/js/prescriptions.js:74-101 | With the button bound to its own item's index, a confirmed click removes exactly that item and shows the notice; a declined one changes nothing |
| PrescriptionPages.Matches | prescriptions/static/prescriptions/js/prescriptions.js:195-205 | A card matches iff its lower-cased text contains the lower-cased query |
| PrescriptionPages.EmptyQueryShowsAll | prescriptions/static/prescriptions/js/prescriptions.js:195-205 | The empty query matches every card |
| PrescriptionPages.SearchView.PerformSearch | prescriptions/static/prescriptions/js/prescriptions.js:181-227 | The empty query shows every card and leaves the message as it was; otherwise a card is shown iff it matches, and, with the grid present, the no-results message is there iff no card matches |
| PrescriptionPages.ItemMarks | prescriptions/static/prescriptions/js/prescriptions.js:282-306 | A medication item gets no mark iff its name, dosage and duration are non-blank after trimming and its frequency is chosen |
| PrescriptionPages.AllItemMarksEmpty | prescriptions/static/prescriptions/js/prescriptions.js:282-306 | No item mark is made iff every item passes |
| PrescriptionPages.CreateBlockedIff | prescriptions/static/prescriptions/js/prescriptions.js:261-310 | The create form is let through iff a patient is chosen, there is at least one item and every item passes |
| PrescriptionPages.CheckItem | prescriptions/static/prescriptions/js/prescriptions.js:282-306 | The item's checks leave the errors its marks describe and pass iff the item passes |
| PrescriptionPages.SubmitCreateForm | prescriptions/static/prescriptions/js/prescriptions.js:261-310 | The errors shown are exactly the form's marks; no items adds the "at least one medication" notice; it proceeds iff there is no mark and at least one item |
| PrescriptionPages.MarksStep | prescriptions/static/prescriptions/js/prescriptions.js:282-306 | Checking one more item appends that item's marks |
| PrescriptionPages.DraftOfEntries | prescriptions/static/prescriptions/js/prescriptions.js:365-370 | A key is in the draft iff some form entry has it, and it holds the value of the last such entry |
| PrescriptionPages.Restored | prescriptions/static/prescriptions/js/prescriptions.js:389-395 | Restoring keeps the form's fields, writes the stored value into each field the draft names and skips names with no field |
| PrescriptionPages.SaveThenRestore | prescriptions/static/prescriptions/js/prescriptions.js:365-395 | Restoring a draft saved from the form's own entries gives the form back unchanged |
| PrescriptionPages.DraftLast | prescriptions/static/prescriptions/js/prescriptions.js:365-370 | Every draft value comes from a form entry under that key |
| PrescriptionPages.DraftForm.SaveDraft | prescriptions/static/prescriptions/js/prescriptions.js:365-373 | The storage holds the draft built from the form's entries |
| PrescriptionPages.DraftForm.LoadDraft | prescriptions/static/prescriptions/js/prescriptions.js:377-404 | Without a form or a readable draft nothing changes; accepting restores the draft into the form and shows "Draft loaded"; declining removes the stored draft |
| ReportRecords.PreSave | reports/signals.py:12-24 | A save fails, with "Published time must be after generation time", iff both times are set and publication comes strictly first; a published report with no publication time gets now; anything else is saved unchanged |
| ReportRecords.PreSaveBoundary | reports/signals.py:19-24 | Publication in the same instant as generation is accepted; a status other than published keeps its publication time; a report never generated always passes |
| ReportRecords.PreSaveIdempotent | reports/signals.py:12-24 | Saving again a report that passed, with the clock not before its generation time, passes and leaves it as it is |
| ReportRecords.CategoryResave | reports/signals.py:42-52 | With names distinct ignoring case, re-saving a stored category under its own name in any case passes, while a new category with that name is refused |
| ReportForms.CleanCategoryName | reports/forms.py:18-25 | A category name is refused, with "A category with this name already exists.", iff a stored category has it ignoring case; otherwise it is kept |
| ReportForms.CleanTemplateName | reports/forms.py:81-88 | A template name is refused iff a stored template has it ignoring case; otherwise it is kept |
| ReportForms.ResubmitRefused | reports/forms.py:22-24 | The category being edited is not set apart: submitting its own name, or a change of case only, is refused |
| ReportForms.CleanReport | reports/forms.py:54-65 | The form is refused, with "Doctor and patient cannot be the same", iff both are chosen and compare equal; otherwise the data comes back unchanged |
| ReportForms.MissingPartyPasses | reports/forms.py:62 | Leaving out the doctor or the patient always passes |
| ReportForms.ChoicesAlwaysPass | reports/forms.py:59-63 | A Doctor row and a Patient row never compare equal, so the check never refuses data from the choice fields |
| ReportPermissions.ReportAccessTable | reports/permissions.py:15-25 | A non-staff requester reaches a report iff they are signed in and generated it or are the user behind its doctor or patient; a report with none of these is reachable by staff only; the anonymous requester never |
| ReportPermissions.OwnerCannotWrite | reports/permissions.py:7-25 | A non-staff owner passes the object check but not the view check of an unsafe method |
| ReportPermissions.GenerateImpliesView | reports/permissions.py:46-56 | Whoever may generate reports may view them; the anonymous requester may do neither |
| ReportServices.FindReport | reports/services.py:29 | The lookup finds a report with the identifier, or answers none iff no report has it |
| ReportServices.FindCategory | reports/signals.py:87-90 | The lookup finds a category with exactly that name, or answers none iff no category has it |
| ReportServices.Overlay | reports/services.py:33-35 | The template's keys are laid over the content: the template's value wins, other content keys are kept, and no other key appears |
| ReportServices.OverlayLaws | reports/services.py:33-35 | Laying the same template twice is laying it once, and an empty structure changes nothing |
| ReportServices.GeneratedRecord | reports/services.py:29-41 | The status becomes generated and the publication time now, whatever the status was; the content is overlaid by the template when one is given and kept otherwise; no other field changes |
| ReportServices.ExportReport | reports/services.py:43-51 | Only the json format is accepted and gives the report's file name; any other raises "Unsupported export format: <format>" |
| ReportServices.FromSeedsWider | reports/signals.py:85-90 | A row made from one of the first k seeds is made from one of the first k' seeds for k' >= k |
| ReportServices.SeedStep | reports/signals.py:86-90 | One get-or-create step keeps the earlier rows, makes any new row from the seed, and leaves the seed's name stored |
| ReportServices.AppendCategoryKeeps | reports/signals.py:42-52 | Appending a category whose name clashes with none keeps the identifiers and the case-insensitive name uniqueness |
| ReportServices.ReplaceReportKeeps | reports/services.py:39 | Replacing a report under its own identifier keeps the identifiers below the counter |
| ReportServices.ReportStore.constructor | reports/services.py:6-9 | The store starts with no reports and no categories |
| ReportServices.ReportStore.CreateReport | reports/services.py:10-25 | One draft report of medium priority is appended with the next identifier, the data given, empty content when none is given, generated now and not published |
| ReportServices.ReportStore.GenerateReport | reports/services.py:27-41 | The report is replaced by its generated record, unless the clock is before its generation time, when the pre-save check raises and the table is as it was |
| ReportServices.ReportStore.CreateCategory | reports/services.py:82-93 | A name another category has ignoring case raises and changes nothing; otherwise one category with the next identifier is appended |
| ReportServices.ReportStore.GetOrCreateCategory | reports/signals.py:87-90 | A category with exactly that name is returned unchanged with created false; otherwise one is created from the seed, unless its name clashes ignoring case, which raises and changes nothing |
| ReportServices.ReportStore.SeedCategories | reports/signals.py:85-90 | The earlier rows are kept and every new row comes from a seed; on success every seed name is stored; a failure is the category-name error, and inside a transaction nothing is kept; when every seed name is already stored nothing changes |
| ReportServices.ReportStore.PopulateReportCategories | reports/signals.py:57-90 | The four default categories are ensured in one transaction: afterwards all are present, or the name error is raised and nothing changes; a second run changes nothing |
| ReportServices.ReportStore.ValidateReportConfigurations | reports/utils.py:39-66 | The three default categories are ensured one by one without a transaction: afterwards all are present, or the name error is raised with the earlier steps kept; a second run changes nothing |
| ReportUtils.NatToStringDigits | reports/utils.py:11 | The decimal text of a number is all digits |
| ReportUtils.PadShape | reports/utils.py:11 | A number below 10^width, zero-filled to the width, has exactly that many digits |
| ReportUtils.DigitsAppend | reports/utils.py:11 | Digit strings stay digit strings when joined |
| ReportUtils.DatePartShape | reports/utils.py:11 | The %Y%m%d part of a calendar moment is 8 digits |
| ReportUtils.TimePartShape | reports/utils.py:11 | The %H%M%S part of a calendar moment is 6 digits |
| ReportUtils.StampShape | reports/utils.py:11 | The timestamp is 15 characters with "_" between the date and the time |
| ReportUtils.SafeTitle | reports/utils.py:12 | The safe title has the title's length; each letter or digit is kept in place and every other character becomes "_" |
| ReportUtils.SafeTitleIdempotent | reports/utils.py:12 | Making a safe title safe again changes nothing, and a title of letters and digits only is already safe |
| ReportUtils.Pieces | reports/utils.py:13 | The pieces of the f-string sit at fixed offsets |
| ReportUtils.FilenameShape | reports/utils.py:7-13 | The file name is the safe title, "_", the 15-character timestamp and ".json", in that order, and is 21 characters longer than the title |
| SchedulePermissions.ScheduleAccessTable | schedules/permissions.py:7-16 | staff pass the object check for every schedule; anyone else passes iff their id is the user of the schedule's doctor or of its patient; an anonymous requester never passes (the reminder check at 49-58 is the same test on the reminder's schedule) |
| SchedulePermissions.PartyCannotWrite | schedules/permissions.py:22-28 | a requester who is not staff is refused every unsafe method by the view-level check, whatever their relation to the schedule |
| SchedulePermissions.ManageImpliesView | schedules/permissions.py:60-70 | whoever may manage schedules (staff and active) may also view them, given staff accounts are authenticated |
| ScheduleQueries.CurrentDuties | schedules/repositories.py:56-65 | exactly the doctor's active duties that started on or before today and have no end date or end today or later |
| ScheduleQueries.ShiftsForDate | schedules/repositories.py:128-141 | exactly the active shifts on the date's weekday whose duty is the doctor's, active, started on or before the date and not ended before it |
| ScheduleQueries.DateTimeKeyOrder | schedules/repositories.py:198-205 | the sort key used for `order_by('date', 'start_time')` orders slots by date, then by start time |
| ScheduleQueries.AvailableSlots | schedules/repositories.py:188-195 | exactly the doctor's available slots on the date with the requested booked flag, in start-time order |
| ScheduleQueries.SlotsInRange | schedules/repositories.py:198-205 | exactly the doctor's slots dated within the closed range, ordered by date and then start time |
| ScheduleQueries.DeleteFutureSlots | schedules/repositories.py:235-241 | the surviving table holds exactly the slots that are not unbooked slots of the shift dated on or after the date; the returned count is the number of deleted slots and the two add up to the old table size |
| ScheduleQueries.ActiveLeaves | schedules/repositories.py:278-286 | exactly the doctor's approved leaves whose closed date range contains today |
| ScheduleQueries.LeaveOverlap | schedules/repositories.py:300-313 | true iff some pending or approved leave of the doctor, other than the excluded id (an id of 0 or none excludes nothing), shares a day with the closed range |
| ScheduleQueries.SharedDayOverlaps | schedules/repositories.py:300-313 | ranges are closed: a request starting on a leave's last day overlaps it, one starting the day after does not conflict with it |
| ScheduleQueries.OverrideFor | schedules/repositories.py:366-371 | an override is returned iff the doctor has one for the date, and it is one of the doctor's overrides for that date |
| ScheduleQueries.OverrideLookup | schedules/repositories.py:366-371 | the `.get` raises MultipleObjectsReturned iff two overrides of the doctor share the date; otherwise it gives None iff there is none, and the one override there is when there is one |
| ScheduleRecords.Weekday | schedules/repositories.py:130 | the weekday of a date is between 0 (Monday) and 6 (Sunday) |
| ScheduleRecords.DutyPatchExact | schedules/repositories.py:68-73 | an update sets exactly the given fields, keeps the id and every other field, is idempotent, and the empty update changes nothing |
| ScheduleRecords.ShiftPatchExact | schedules/repositories.py:144-149 | an update sets exactly the given fields, keeps the id and the duty, is idempotent, and the empty update changes nothing |
| ScheduleRecords.OverridePatchExact | schedules/repositories.py:382-387 | an update sets exactly the given fields, keeps the id, doctor and creator, is idempotent, and the empty update changes nothing |
| ScheduleRecords.ApproveLeaveRecord | schedules/repositories.py:315-321 | the leave becomes approved by the approver with the notes; every other field is kept |
| ScheduleRecords.RejectLeaveRecord | schedules/repositories.py:324-330 | the leave becomes rejected, the rejecting user is stored as its approver with the notes; every other field is kept |
| ScheduleRecords.CancelLeaveRecord | schedules/repositories.py:333-337 | the leave becomes cancelled; every other field is kept |
| ScheduleServices.MarkUnavailable | schedules/services.py:416-419 | the sweep keeps the table's length; a selected slot that is not booked becomes unavailable, and every booked or unselected slot is left exactly as it was |
| ScheduleServices.SweepSlots | schedules/services.py:416-419 | the slot-by-slot loop yields exactly the swept table |
| ScheduleServices.LeaveSweepEffect | schedules/services.py:410-419 | sweeping for a leave never touches a booked slot, makes every unbooked slot of the doctor within the leave unavailable, and leaves every slot outside it unchanged |
| ScheduleServices.TallySnoc | schedules/services.py:288-301 | one more slot updates the counts of its own date by the three increments of the loop body and leaves other dates' counts alone |
| ScheduleServices.TallyPositive | schedules/services.py:290-297 | a date's total is positive iff the slot list holds a slot on that date |
| ScheduleServices.ByDateTally | schedules/services.py:287-303 | the availability dictionary has a key exactly for each date that has slots, and each key holds that date's counts |
| ScheduleServices.CountByDate | schedules/services.py:287-303 | the counting loop builds exactly that dictionary |
| ScheduleServices.TallyConsistent | schedules/services.py:297-301 | for every date, available plus booked slots never exceed the total |
| ScheduleServices.ToSlots | schedules/repositories.py:229-232 | one saved slot per draft, in order, with consecutive fresh ids, the shift and doctor, the draft's date and times, available, unbooked and with no patient |
| ScheduleServices.OverrideAppendUnique | schedules/services.py:443-454 | adding an override for a doctor and date that have none keeps at most one override per doctor and date |
| ScheduleServices.PatchedDateClash | schedules/services.py:468-475 | `update_override` checks no date: moving one of a doctor's overrides onto the date of another makes every later lookup for that date raise MultipleObjectsReturned |
| ScheduleServices.JoinedRestamp | schedules/services.py:60-67 | when a duty names a new doctor, restamping the slots of its shifts with that doctor keeps every slot's doctor equal to the one the `shift__duty__doctor` join reaches |
| ScheduleServices.JoinedShiftsAppend | schedules/services.py:107-137 | appending shifts keeps the join of every existing slot |
| ScheduleServices.JoinedShiftReplace | schedules/services.py:151-158 | rewriting a shift under its own id and duty keeps the join |
| ScheduleServices.JoinedDutyReplace | schedules/services.py:71-81 | rewriting a duty under its own id and doctor keeps the join |
| ScheduleServices.JoinedAppend | schedules/repositories.py:229-232 | slots saved for a shift under the doctor its duty names keep the join |
| ScheduleServices.JoinedSwept | schedules/services.py:416-419 | the availability sweep keeps the join |
| ScheduleServices.JoinedUpdate | schedules/services.py:307-331 | rewriting one slot without changing its shift or doctor keeps the join |
| ScheduleServices.SweptIdsBelow | schedules/services.py:416-419 | the sweep keeps every slot id |
| ScheduleServices.HasDutyKept | schedules/repositories.py:68-73 | rewriting a duty row under the same id keeps every duty id present |
| ScheduleServices.ScheduleStore.constructor | schedules/services.py:19-492 | an empty store is consistent (ids below the counter, every shift's duty present, every slot's doctor the one its shift's duty names) and holds no rows |
| ScheduleServices.ScheduleStore.UpdateDuty | schedules/services.py:60-67 | an unknown id returns "Duty not found" and changes nothing; otherwise the first duty with that id is replaced by its patched copy, returned with "Duty updated successfully", and the slots of its shifts carry the duty's (possibly new) doctor, so every slot's doctor stays the one the `shift__duty__doctor` join reaches |
| ScheduleServices.ScheduleStore.EndDuty | schedules/services.py:71-81 | an unknown id returns "Duty not found" and changes nothing; otherwise exactly that duty gets the end date and becomes inactive |
| ScheduleServices.ScheduleStore.DeactivateDuty | schedules/repositories.py:76-80 | exactly that duty becomes inactive |
| ScheduleServices.ScheduleStore.CreateMultipleShifts | schedules/services.py:107-137 | an unknown duty returns "Duty not found" and creates nothing; otherwise one shift per listed day, in order, with the shared times and fields and fresh ids, is appended, and the message gives their number |
| ScheduleServices.ScheduleStore.UpdateShift | schedules/services.py:151-158 | an unknown id returns "Shift not found" and changes nothing; otherwise the shift is replaced by its patched copy |
| ScheduleServices.ScheduleStore.GenerateSlotsForShift | schedules/services.py:181-268 | an unknown shift returns "Shift not found" with count 0 and creates nothing; a date of the shift's weekday with two overrides of the doctor raises MultipleObjectsReturned and the atomic call saves nothing; otherwise the drafts of the whole range, cut with the corrected unwrapped slot end, are appended as new slots under the duty's doctor and the count is their number |
| ScheduleServices.ScheduleStore.SaveSlots | schedules/repositories.py:229-232 | the drafts are appended as slots with consecutive fresh ids and the counter moves past them, keeping the store consistent |
| ScheduleServices.ScheduleStore.DoctorAvailability | schedules/services.py:276-303 | returns the per-date counts of the doctor's slots within the closed range, where the slots counted are exactly those dated in the range whose shift's duty names the doctor (`shift__duty__doctor`) |
| ScheduleServices.ScheduleStore.BookSlot | schedules/services.py:307-317 | an unknown slot and a slot that is unavailable or booked each get their own refusal and change nothing; otherwise exactly that slot becomes booked by the patient |
| ScheduleServices.ScheduleStore.CancelSlotBooking | schedules/services.py:321-331 | an unknown slot and an unbooked slot each get their own refusal and change nothing; otherwise exactly that slot becomes unbooked with no patient |
| ScheduleServices.ScheduleStore.DeleteFutureSlots | schedules/repositories.py:235-241 | the slot table and the returned count are those `ScheduleQueries.DeleteFutureSlots` gives for the old table |
| ScheduleServices.ScheduleStore.RequestLeave | schedules/services.py:339-365 | an overlapping request is refused and stores nothing; otherwise a new PENDING leave with a fresh id is appended and returned |
| ScheduleServices.ScheduleStore.ApproveLeave | schedules/services.py:369-383 | an unknown leave and a leave that is not pending each get their own refusal and change nothing; otherwise the leave is approved and the doctor's unbooked slots within it become unavailable |
| ScheduleServices.ScheduleStore.ApproveLeaveAsWritten | schedules/services.py:369-383 | as written: the same refusals, but a pending leave raises AttributeError at the sweep call and the atomic block leaves every table unchanged |
| ScheduleServices.ScheduleStore.RejectLeave | schedules/services.py:387-397 | an unknown leave and a leave that is not pending each get their own refusal and change nothing; otherwise exactly that leave becomes rejected |
| ScheduleServices.ScheduleStore.CancelLeave | schedules/repositories.py:333-337 | exactly that leave becomes cancelled |
| ScheduleServices.ScheduleStore.CreateOverride | schedules/services.py:427-464 | the `.get` existence check raises MultipleObjectsReturned when the doctor already has two overrides for the date, and the atomic call changes nothing; an existing override for the doctor and date is refused and changes nothing; otherwise the override is appended, an unavailable one makes that date's open unbooked slots of the doctor unavailable, and a table with at most one override per doctor and date keeps that property |
| ScheduleServices.ScheduleStore.UpdateOverride | schedules/services.py:468-475 | an unknown id returns "Override not found" and changes nothing; otherwise the override is replaced by its patched copy; the new date is not checked, so a patch can leave a doctor two overrides for one date (`PatchedDateClash`) |
| ScheduleServices.OverrideSweepEffect | schedules/services.py:457-462 | an unavailable override leaves none of the doctor's unbooked slots on that date available, never touches a booked slot, and leaves other dates and doctors alone |
| ScheduleValidation.ValidateDuty | schedules/serializers.py:39-49 | accepted iff there is no end date or the start is not after it, so a same-day duty passes; a start after the end is an end_date error; an end date without a start raises |
| ScheduleValidation.ValidateShift | schedules/serializers.py:75-99 | accepted iff start is before end (when both given) and, with both break bounds, the break is non-empty and within the shift; a bad order is an end_time error |
| ScheduleValidation.ValidateShiftCreate | schedules/serializers.py:107-128 | accepted iff every day is 0..6, max_appointments (10 when absent) is at least 1, and start is before end |
| ScheduleValidation.ValidateLeave | schedules/serializers.py:209-224 | accepted iff the dates are in order and the start is not before today; dates out of order are an end_date error |
| ScheduleValidation.ValidateOverride | schedules/serializers.py:257-269 | refused iff the override is available, both custom times are given, and the start is not before the end |
| ScheduleValidation.ValidateAvailabilityQuery | schedules/serializers.py:281-292 | accepted iff start is not after end and the range spans at most 30 days |
| ScheduleValidation.ValidateSlotGeneration | schedules/serializers.py:312-325 | accepted iff the duration (30 when absent) is within 15..120 and the range is ordered and spans at most 60 days; an accepted duration is positive |
| ScheduleValidation.ValidateSlotId | schedules/serializers.py:168-176 | a missing slot is "Slot does not exist"; an existing one is accepted iff it is available and not booked; every refusal is on slot_id |
| ScheduleValidation.CheckSchedule | schedules/serializers.py:390-411 | passes iff the times (when both given) are ordered and not in the past and the doctor and patient (when both given) differ; the time checks come first (also schedules/forms.py:70-89) |
| ScheduleValidation.ScheduleTimesDecide | schedules/forms.py:86-87 | a doctor row and a patient row never compare equal, so the doctor and patient check never fires and the result is that of the time checks alone |
| ScheduleValidation.CheckReminder | schedules/serializers.py:434-446 | refused iff both times are given and the send time is not strictly before the schedule start (also schedules/forms.py:107-119) |
| ScheduleValidation.CleanCategoryName | schedules/forms.py:33-41 | refused iff the name is non-empty, the table exists and some stored name matches it ignoring case |
| ScheduleValidation.ValidateCategoryName | schedules/serializers.py:343-349 | refused iff some stored name matches ignoring case |
| ScheduleValidation.SlotIdMatchesBooking | schedules/serializers.py:168-176 | the serializer accepts a slot id iff the first slot with that id is available and unbooked, which is exactly when `book_slot` books it |
| ScheduleValidation.AcceptedShiftBreakInside | schedules/serializers.py:87-97 | an accepted shift with a break has start ≤ break start < break end ≤ end |
| ScheduleValidation.CategoryChecksAgree | schedules/forms.py:38-40 | once the table exists the form refuses exactly the non-empty names the serializer refuses; before that it refuses none |
| ScheduleValidation.CategoryNameCaseBlind | schedules/serializers.py:347 | a name differing only in letter case from a stored one is refused, and so is its lower-case form |
| SlotGeneration.AnyLeaveCovers | schedules/services.py:218-221 | true iff some of the leaves covers the date |
| SlotGeneration.CutDay | schedules/services.py:228-261 | the inner loop, with the slot end computed unwrapped as t + d, yields exactly the date's drafts from the shift start |
| SlotGeneration.DraftSlots | schedules/services.py:200-263 | the nested loop, with the corrected unwrapped slot end, raises MultipleObjectsReturned iff some date of the range on the shift's weekday has two overrides of the doctor, and otherwise yields exactly the drafts of the whole range |
| SlotGeneration.DraftDay | schedules/services.py:204-261 | one date: the lookup raises iff the date is the shift's weekday and has two overrides of the doctor; otherwise the date's drafts, cut with the corrected unwrapped slot end, when it is open, none when it is not |
| SlotGeneration.RangeClashIff | schedules/services.py:203-210 | the range raises iff some date in it is the shift's weekday and has two overrides of the doctor |
| SlotGeneration.DayDraftShape | schedules/services.py:231-261 | every draft of a date lies on that date, on the grid from the shift start, with length d, ends by the shift end and is clear of the break |
| SlotGeneration.DayDraftComplete | schedules/services.py:243-249 | every grid point whose slot ends by the shift end and is clear of the break is a draft: a skipped candidate still advances by d |
| SlotGeneration.DaySlotIff | schedules/services.py:231-261 | a draft [x, e] is produced for a date iff x is on the grid from the shift start, e = x + d, e is not after the shift end and the slot is clear of the break |
| SlotGeneration.DayDraftsOrdered | schedules/services.py:231-261 | the drafts of one date are in increasing order and pairwise disjoint |
| SlotGeneration.RangeDraftIff | schedules/services.py:203-225 | a draft is produced iff its date is in the closed range, the date is open, and the draft is one of that date's drafts |
| SlotGeneration.ConcatOrdered | schedules/services.py:203-263 | one date's ordered drafts followed by the later dates' ordered drafts stay in chronological order and disjoint |
| SlotGeneration.RangeDraftsOrdered | schedules/services.py:203-263 | all drafts of a range are in chronological order and pairwise disjoint |
| SlotGeneration.GeneratedSlotFacts | schedules/services.py:203-261 | each generated slot lies in the range on the shift's weekday, on a date no unavailable override or active leave blocks, within the shift, of length d, on the grid and clear of the break |
| SlotGeneration.LateShiftClimbs | schedules/services.py:233-236 | from midnight the wrapped walk of the 23:00 to 23:50 shift climbs back to 23:30 |
| SlotGeneration.WrappedLoopNeverEnds | schedules/services.py:231-261 | as written, a 30-minute slot from 23:30 wraps to 00:00, passes the end check, and 48 iterations later the loop is back at 23:30 |
| SlotGeneration.WrappedAgreesBeforeMidnight | schedules/services.py:228-261 | for a shift ending more than d minutes before midnight, the inner loop as written, with its wrapping `.time()` end, stops and stores exactly the corrected drafts |
| SlotGeneration.EveningTail | schedules/services.py:231-261 | from 00:50 the as-written walk of the 21:00 to 23:00 shift with 115-minute slots stores the 115-minute slots from 00:50 up to the one from 20:00 to 21:55, then stops |
| SlotGeneration.EveningShiftAsWritten | schedules/services.py:228-261 | as written, the 21:00 to 23:00 shift with 115-minute slots stops after 14 iterations with 13 slots: 21:00 to 22:55, one from 22:55 ending at 00:50, and eleven starting before the shift; the corrected loop gives only 21:00 to 22:55 |
| SlotGeneration.LateShiftCorrected | schedules/services.py:231-261 | with the end compared unwrapped, the same shift yields exactly the one slot 23:00 to 23:30 |
| Pagination.Keys | static/js/components/pagination.js:31-35 | the names of a pair list, one per pair, in order |
| Pagination.Lookup | static/js/components/pagination.js:61 | `searchParams.get` finds nothing iff no pair has that name |
| Pagination.MapSet | static/js/components/pagination.js:34 | `Map.set` keeps the key order when the key is present and appends the pair when it is new |
| Pagination.MapSetLookup | static/js/components/pagination.js:34 | after a set, the key reads the new value and every other key reads what it read before |
| Pagination.MapSetDistinct | static/js/components/pagination.js:34 | a set keeps the map's names distinct |
| Pagination.ToMapLookup | static/js/components/pagination.js:31-35 | the parsed Map holds each name once, with the last value the location gave it (the same code at staticfiles/js/components/pagination.js:27-32) |
| Pagination.Drop | static/js/components/pagination.js:49 | removing the pairs of a name leaves none of that name |
| Pagination.SearchSetAppends | static/js/components/pagination.js:49 | `set` on a list without the name appends the pair at the end |
| Pagination.FilterNoPage | static/js/components/pagination.js:46-48 | the kept pairs hold no page pair |
| Pagination.WithPageShape | static/js/components/pagination.js:44-51 | the rebuilt pairs are every non-page pair in order followed by the target page, and hold exactly one page pair (the same code at staticfiles/js/components/pagination.js:35-44) |
| Pagination.HexDigit | static/js/components/pagination.js:50 | a hexadecimal digit of the serialiser is alphanumeric |
| Pagination.PercentByte | static/js/components/pagination.js:50 | an escaped byte is '%' and two emitted characters |
| Pagination.Utf8 | static/js/components/pagination.js:50 | a code point is one to four bytes |
| Pagination.PercentBytes | static/js/components/pagination.js:50 | escaping bytes yields three emitted characters per byte, starting with '%' |
| Pagination.EncodeChar | static/js/components/pagination.js:50 | a character is written as itself iff it is unreserved; otherwise as a non-empty run of emitted characters |
| Pagination.Encode | static/js/components/pagination.js:50 | the serialiser emits only unreserved characters, '+' and '%' escapes |
| Pagination.EncodePlain | static/js/components/pagination.js:50 | text of unreserved characters is written unchanged |
| Pagination.EncodeReflects | static/js/components/pagination.js:50 | text whose encoding is all unreserved is its own encoding |
| Pagination.EncodeNotPage | static/js/components/pagination.js:47 | a name other than "page" is never written as "page" |
| Pagination.EncodePairs | static/js/components/pagination.js:50 | one serialised piece per pair, in order |
| Pagination.PairName | static/js/components/pagination.js:50 | a serialised pair holds no '&' and its text before the first '=' is its encoded name |
| Pagination.SerializePieces | static/js/components/pagination.js:50 | the '&'-separated pieces of a serialised list are its serialised pairs |
| Pagination.PagePiece | static/js/components/pagination.js:49-50 | the target page is serialised as "page=" and its decimal text |
| Pagination.KeptPiece | static/js/components/pagination.js:47 | a kept pair is not named "page" once serialised |
| Pagination.BuildQueryShape | static/js/components/pagination.js:44-51 | the query starts with '?'; its pieces are the non-page pairs in order, none named page, and then exactly one "page=<target>", last (the same code at staticfiles/js/components/pagination.js:35-44) |
| Pagination.TrimStart | static/js/components/pagination.js:62 | `parseInt` skips a prefix of white space and stops at the first other character |
| Pagination.DigitRun | static/js/components/pagination.js:62 | the longest prefix of decimal digits |
| Pagination.ParseInt | static/js/components/pagination.js:62 | blank text parses to NaN |
| Pagination.ParseIntRoundTrip | static/js/components/pagination.js:49-62 | parsing the decimal text of any integer gives it back |
| Pagination.ParseIntIgnoresTail | static/js/components/pagination.js:62 | text after the digits is ignored |
| Pagination.DigitRunPrefix | static/js/components/pagination.js:62 | the digit run of digits followed by a non-digit is those digits |
| Pagination.GetPageFromHref | static/js/components/pagination.js:58-66 | null iff the URL fails to parse or its page parameter is absent or empty (the same code at staticfiles/js/components/pagination.js:47-56) |
| Pagination.PageRoundTrip | static/js/components/pagination.js:44-66 | reading the page back from a rebuilt query gives the target page |
| Pagination.LookupAppend | static/js/components/pagination.js:49-61 | a pair appended under a new name is found by that name |
| Pagination.DecideLaws | static/js/components/pagination.js:96-146 | disabled, active and stray items are only prevented; a falsy page falls back to the browser; while navigating every usable click is swallowed; otherwise one navigation starts, by the loader iff one is installed, for the parsed page (the same code at staticfiles/js/components/pagination.js:85-145) |
| Pagination.AtMostOneNavigation | static/js/components/pagination.js:109-139 | in any series of clicks at most one navigation starts, and none while one is in flight (the same code at staticfiles/js/components/pagination.js:103-105, 131-135) |
| Pagination.CountCons | static/js/components/pagination.js:109-111 | the navigations of a series are those of its first click plus those of the rest |
| Pagination.ParamsObject | static/js/components/pagination.js:114-117 | the loader's parameters never hold "page" |
| Pagination.DistinctInit | static/js/components/pagination.js:114-117 | dropping the last pair of a distinct list keeps it distinct, and the last name is not among the others |
| Pagination.ParamsObjectLookup | static/js/components/pagination.js:114-117 | the loader sees exactly the parameters other than page, each with the map's value |
| Pagination.LookupSnoc | static/js/components/pagination.js:61 | looking up in a list with one more pair finds the earlier pair first, else the new one |
| Pagination.Paginator.constructor | static/js/components/pagination.js:83-88 | page load: the parsed parameters, no navigation in flight, no container busy, nothing visited |
| Pagination.Paginator.Click | static/js/components/pagination.js:96-146 | the decision's effect: the AJAX branch marks its container busy and hands the loader the page and the non-page parameters; the default branch marks it busy, scrolls and assigns the rebuilt query; any other click changes nothing but the prevented flag (the same code at staticfiles/js/components/pagination.js:85-145) |
| Pagination.Paginator.Begin | static/js/components/pagination.js:107-146 | a usable click with no navigation in flight takes the flag and marks its container busy, then either hands the loader the page and the non-page parameters or scrolls once and assigns the rebuilt query |
| Pagination.Paginator.Settle | static/js/components/pagination.js:119-129 | the loader finishes: the flag is cleared, its container is no longer busy, the page scrolls, and a failed loader falls back to assigning the rebuilt query (the same code at staticfiles/js/components/pagination.js:114-125) |
| Filters.ChipValue | static/js/components/filters.js:29-30 | a non-empty data-filter is the value; otherwise the href text after the first '=' up to the next one, undefined when the href has no '=', and a TypeError when there is no href |
| Filters.SecondPiece | static/js/components/filters.js:30 | the second '='-separated piece of a text is the part between its first and second '=' |
| Filters.ChipValueBetween | static/js/components/filters.js:29-30 | without a data-filter, the value is the href text between the first '=' and the next one or the end |
| Filters.TargetRoundTrip | static/js/components/filters.js:30-41 | a chip whose href is the navigation target of a value without '=' reads that value back; a value holding '=' is cut there |
| Filters.ChipGroup.constructor | static/js/components/filters.js:12-21 | the chips of the container, or none bound when the container is missing |
| Filters.ChipGroup.Click | static/js/components/filters.js:14-44 | a missing container binds nothing; a TypeError leaves everything as it was; otherwise exactly the clicked chip is active and the value goes to the callback, or the page navigates to `?filter=<value>` |

## Left out

Schedules:
- The `Duty`, `Shift`, `AvailabilitySlot`, `DoctorLeave` and `ScheduleOverride` models are imported by schedules/services.py but not defined in schedules/models.py. Their records here carry only the fields the services and repositories read or write.
- `AvailabilitySlot.mark_as_booked` and `mark_as_available` are not part of this model. Booking is modelled as setting the booked flag and the patient, and freeing a slot as clearing both. The appointment link is not kept.
- Each schedule service method runs as one atomic step. Concurrent requests are not modelled.
- `bulk_create(..., ignore_conflicts=True)` is modelled as appending every row. Rows a database constraint would silently drop are not modelled. The reported count is the length of the list in both cases.
- The store does not keep overrides unique per doctor and date, because `update_override` accepts any new date. The `.get` lookup that raises on two overrides is `ScheduleQueries.OverrideLookup`. `create_override` and `generate_slots_for_shift` use it and raise MultipleObjectsReturned. A table the model creates only via `create_override` has at most one override per doctor and date (`OverrideAppendUnique`).
- These are plain ORM reads and writes with no rule beyond the query, and are not modelled: `create_duty`, `create_shift`, `delete_shift`, `delete_override`, `get_by_id`, `get_doctor_duties`, `get_hospital_duties`, `get_doctor_shifts`, `get_booked_slots`, `get_doctor_leaves`, `get_pending_leaves` and `get_doctor_overrides`.
- `ScheduleAnalyticsService`, schedules/tasks.py and the views are reporting and HTTP glue over the same tables, and are not modelled.
- The `Schedule` and `ScheduleReminder` tables exist only as the values their validators read.
- staticfiles/js/components/filters.js binds a click handler with an empty body, so there is nothing to model.

Numbers and text:
- Floating point is not modelled:
  - AdminRecords.TypedValueOf: whether `float()` and `json.loads` accept the stored text is a parameter (`TextReaders`). A rejected value fails with ValueError or JSONDecodeError, and an accepted one is kept uninterpreted;
  - `get_file_size_mb` rounds a float;
  - the urgency score is kept in hundredths.
- Python's `int()` also accepts underscores and non-ASCII digits; these are not modelled. `str.isdigit`, `str.isalnum` and `str.lower` are modelled on ASCII only.
- AdminRecords.StripLeft, AdminRecords.StripRight and AdminRecords.ParseInt strip ASCII white space only. Python's `str.strip()` also removes \x1c-\x1f, \x85, \xa0 and the other Unicode spaces.
- AdminPages.DataTable.FilterTable, PrescriptionPages.Matches, PrescriptionPages.SearchView.PerformSearch, AdminPages.AdminForm.ValidateForm, PageForms.Blank and the submit checks of AccountPages and PrescriptionPages model JavaScript's `trim()` and `toLowerCase()` on ASCII only. In a browser "É" also matches "é", and a field holding only U+00A0 or U+3000 counts as blank.
- AdminServices.ConfigByKey, ReportForms.CleanCategoryName, ReportForms.CleanTemplateName, ScheduleValidation.CleanCategoryName and ScheduleValidation.ValidateCategoryName model the database's `iexact` as ASCII case folding. A database may also fold non-ASCII letters.
- Only the white space that `parseInt` skips in the ASCII range is modelled. The precision `parseInt` loses above 2^53 is not modelled.
- ReportUtils.Stamp: `%Y` is modelled as a year zero-padded to four digits. Some C libraries write years before 1000 with fewer digits; that is not modelled.

Outside calls:
- The browser's URL parsing is a parameter: a link's decoded query pairs, or none when `new URL` throws.
- Django's `timesince` is a parameter.
- The messages of `validate_password` are a parameter.
- `MedApp.isValidEmail` and `isValidPhone` are parameters.
- Mail delivery is a parameter. `send_mail(..., fail_silently=False)` either succeeds or raises. `register_user` then rolls back the new user and token. `create_password_reset_token` keeps the new token and reports the error. The mail's content is not modelled.
- `check_password` is a comparison of the stored text. Password hashing is not modelled.
- The file write in `export_report_to_json` is not modelled. `JSON.stringify` and `json.dumps` produce text that is kept abstract.
- The clock, `uuid`/`secrets` values and the random phone code are parameters.

Databases:
- A database sequence is not rolled back by a failed atomic block. The model's `nextId` is, so ids can differ from a real database after an IntegrityError.
- The category lookup by exact name uses the database collation. The model compares text exactly.
- Departments.ListDepartments and AdminServices.ConfigLe compare text by code point: department names, and configuration categories and keys. `order_by` follows the database collation, which can order case and accents differently.
- Prescriptions.MedsOf and Prescriptions.BuildSummary list a prescription's medications in insertion (primary-key) order. Medication declares no `Meta.ordering`, so `prescription.medications.all()` has no order the database promises.
- Model-instance equality is (model name, primary key). `Doctor` and `Patient` are taken as two distinct models; adminpanel/models.py does not define them.
- ORM mechanics are not modelled: lazy querysets, `select_related`, signals other than the report pre-save checks, and migrations.

Members:
- SlotGeneration.DraftDay, SlotGeneration.CutDay, SlotGeneration.DraftSlots and ScheduleServices.ScheduleStore.GenerateSlotsForShift compute the corrected slot end, t + d on the same date, not the source's wrapping `.time()` end. For a shift ending more than d minutes before midnight the two agree (SlotGeneration.WrappedAgreesBeforeMidnight). On a later shift the source either never stops (SlotGeneration.WrappedLoopNeverEnds) or stores slots these members do not (SlotGeneration.EveningShiftAsWritten). The members promise the corrected slots there.
- AccountServices.SetField and AccountServices.ApplyFields assign only first_name, last_name, email, phone, username and role, and ignore any other keyword. `update_user` passes every keyword to `setattr` (accounts/repositories.py:130-132). Its callers (accounts/views.py:185 and :495) pass the validated fields of `UserUpdateSerializer` or `UserProfileUpdateForm`, which are first_name, last_name, email and phone. AccountServices.ApplyFieldsKeeps holds only because of this restriction.
- ScheduleServices.ScheduleStore.GenerateSlotsForShift: requires a positive slot length. With a length of 0 the source's inner loop never advances and never ends; the serializer's minimum of 15 minutes and the default of 30 keep that input out.
- ReportServices.ReportStore.GenerateReport: requires a stored report, because `generate_report` receives a report instance rather than looking it up.
- AdminPages.BackupButton.InitiateBackup: the page reload after a successful backup is a flag. The timer is not modelled.
- AdminPages.CategoryPage.ClickTab: a tab without a `data-category` is not modelled. Every tab carries a category.
- Pagination.Paginator.Click: the `aria-live` attribute and the `console.error` call are not modelled. `scrollToTop` is a counter.
- Pagination.ParamsObject: the key order of the JavaScript object is not modelled. The loader receives a map. A `__proto__` name is an ordinary key in the model, although assigning it to a JavaScript object sets nothing.
- PageForms.FormView.ClearFormErrors, PageForms.FormView.ShowFieldError and PageForms.FormView.ShowToast: the scripts call `MedApp.clearFormErrors`, `showFieldError` and `showToast`, but no script defines them (static/js/base.js only creates the empty `MedApp` object). The model assumes their behaviour: the first clears every field's message, the second replaces that field's message, and the third appends one notice.

Scripts:
- The remaining script code is presentation and timing, and is not modelled: `filterPrescriptions`, `downloadPrescription`, the print and keyboard handlers, the charts, dashboards, toasts' timing, debounce and the auto-refresh timers.
- The machine-learning modules are not modelled beyond the keyword triage of `predict_urgency`.

Reports:
- `generate_periodic_reports`, `create_template`, `get_template_by_category` and `get_categories_by_type` are not modelled. They are ORM reads and writes with no rule of their own.

## Findings

| source | as written | input that shows it | evidently intended | confidence | as-written member | corrected member |
|---|---|---|---|---|---|---|
| schedules/services.py:231-261 | the slot end is `(combine(date, t) + d).time()`, which wraps past midnight, and the loop stops only when that end is after the shift end | a 23:00 to 23:50 shift with 30-minute slots: from 23:30 the end wraps to 00:00, which is not after 23:50, so the loop goes on from midnight and never ends | a slot ends at t + d on the same day, and the walk stops once t + d passes the shift end | high (not executed) | SlotGeneration.WrappedLoopNeverEnds | SlotGeneration.LateShiftCorrected |
| schedules/services.py:228-261 | the same wrapping end, on a shift where the walk does stop | a 21:00 to 23:00 shift with 115-minute slots: from 22:55 the end wraps to 00:50, which is not after 23:00, so a slot 22:55 to 00:50 is stored, the walk goes on from 00:50 storing eleven slots that start before the shift, and it stops at 21:55 after 13 slots | the one slot 21:00 to 22:55, each slot ending after it starts and by the shift end | high (not executed) | SlotGeneration.EveningShiftAsWritten | SlotGeneration.DayDraftShape |
| schedules/services.py:381 | `approve_leave` calls `AvailabilitySlotService._handle_leave_slots`, which is defined on `DoctorLeaveService` (line 410) | approving any pending leave raises AttributeError after the status change, and the atomic block rolls the approval back | approve the leave and make the doctor's unbooked slots within it unavailable | high (not executed) | ScheduleServices.ScheduleStore.ApproveLeaveAsWritten | ScheduleServices.ScheduleStore.ApproveLeave |
| prescriptions/static/prescriptions/js/prescriptions.js:76-78 | the remove button of a cloned item calls `removeMedication(medicationCount)`, reading the counter when clicked, after it has moved past every item | add one medication (item 1, counter 2), then click its remove: `removeMedication(2)` finds no item and nothing is removed | the button removes its own item, the one whose index it was created with | high (not executed) | PrescriptionPages.MedicationEditor.ClickRemoveAsWritten | PrescriptionPages.MedicationEditor.ClickRemove |
| adminpanel/static/adminpanel/js/admin.js:373-383 | `filterByCategory` selects every `[data-category]` element, and the tabs carry `data-category` too | tabs 'all' and 'A': clicking 'A' hides the 'all' tab, so the list can never be shown in full again | only the items are filtered; the tabs stay visible | medium (not executed) | AdminPages.AllTabLostAsWritten | AdminPages.CategoryPage.ClickTab |
