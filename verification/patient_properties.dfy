/** Properties of the patient registry: the uniqueness of emails, phone
    numbers and patient ids across the table, what a registration and an
    update leave in the table, and what a validated request can still fail
    on. */
module PatientProperties {
  import opened Wrappers
  import opened Text
  import opened PatientRequest
  import opened PatientService

  // ---------------------------------------------------------------------
  // Registration
  // ---------------------------------------------------------------------

  /** Appending a row whose key no existing row has keeps the key unique. */
  lemma {:induction false} AppendKeepsUnique<K>(rows: seq<Patient>, p: Patient, key: Patient -> K)
    requires UniqueBy(rows, key)
    requires forall i :: 0 <= i < |rows| ==> key(rows[i]) != key(p)
    ensures UniqueBy(rows + [p], key)
  {
    var after := rows + [p];
    forall i, j | 0 <= i < j < |after|
      ensures key(after[i]) != key(after[j])
    {
      assert after[i] == rows[i];
      if j < |rows| {
        assert after[j] == rows[j];
      }
    }
  }

  /** A successful registration keeps emails unique: the email check
      refuses an email some row already has, a missing one included. */
  lemma RegistrationKeepsEmailsUnique(rows: seq<Patient>, req: RegistrationRequest, uuid: UuidText,
                                      genders: set<string>, encode: string -> string)
    requires UniqueBy(rows, EmailKey())
    requires RegisterPatient(rows, req, uuid, genders, encode).Success?
    ensures UniqueBy(RegisterPatient(rows, req, uuid, genders, encode).value.rows, EmailKey())
  {
    var saved := RegisterPatient(rows, req, uuid, genders, encode).value;
    assert forall i :: 0 <= i < |rows| ==> EmailKey()(rows[i]) != EmailKey()(saved.patient);
    AppendKeepsUnique(rows, saved.patient, EmailKey());
  }

  /** A successful registration keeps phone numbers unique. */
  lemma RegistrationKeepsPhonesUnique(rows: seq<Patient>, req: RegistrationRequest, uuid: UuidText,
                                      genders: set<string>, encode: string -> string)
    requires UniqueBy(rows, PhoneKey())
    requires RegisterPatient(rows, req, uuid, genders, encode).Success?
    ensures UniqueBy(RegisterPatient(rows, req, uuid, genders, encode).value.rows, PhoneKey())
  {
    var saved := RegisterPatient(rows, req, uuid, genders, encode).value;
    assert forall i :: 0 <= i < |rows| ==> PhoneKey()(rows[i]) != PhoneKey()(saved.patient);
    AppendKeepsUnique(rows, saved.patient, PhoneKey());
  }

  /** A successful registration keeps patient ids unique when the generated
      id is not yet taken; the service itself does not check this. */
  lemma RegistrationKeepsPatientIdsUnique(rows: seq<Patient>, req: RegistrationRequest, uuid: UuidText,
                                          genders: set<string>, encode: string -> string)
    requires UniqueBy(rows, PatientIdKey())
    requires forall i :: 0 <= i < |rows| ==> rows[i].patientId != NewPatientId(uuid)
    requires RegisterPatient(rows, req, uuid, genders, encode).Success?
    ensures UniqueBy(RegisterPatient(rows, req, uuid, genders, encode).value.rows, PatientIdKey())
  {
    var saved := RegisterPatient(rows, req, uuid, genders, encode).value;
    assert forall i :: 0 <= i < |rows| ==> PatientIdKey()(rows[i]) != PatientIdKey()(saved.patient);
    AppendKeepsUnique(rows, saved.patient, PatientIdKey());
  }

  /** A registered patient carries the request's fields unchanged, the
      generated id, the upper-cased gender, the encoded password and the
      `ACTIVE` status. */
  lemma RegistrationCopiesRequest(rows: seq<Patient>, req: RegistrationRequest, uuid: UuidText,
                                  genders: set<string>, encode: string -> string)
    requires RegisterPatient(rows, req, uuid, genders, encode).Success?
    ensures var p := RegisterPatient(rows, req, uuid, genders, encode).value.patient;
      && p.patientId == NewPatientId(uuid)
      && p.firstName == req.firstName && p.lastName == req.lastName
      && p.dateOfBirth == req.dateOfBirth
      && p.phoneNumber == req.phoneNumber && p.email == req.email
      && p.address == req.address
      && p.bloodGroup == req.bloodGroup && p.medicalHistory == req.medicalHistory
      && p.allergies == req.allergies
  {
  }

  /** A lower-case hexadecimal digit, as `UUID.toString()` writes them. */
  predicate IsLowerHex(c: char) { IsDigit(c) || 'a' <= c <= 'f' }

  /** An upper-case hexadecimal digit. */
  predicate IsUpperHex(c: char) { IsDigit(c) || 'A' <= c <= 'F' }

  /** When the UUID text starts with eight lower-case hexadecimal digits,
      as `UUID.toString()` guarantees, the patient id is "PT" followed by
      eight upper-case hexadecimal digits spelling the same number. */
  lemma PatientIdIsUpperHex(uuid: UuidText)
    requires forall i :: 0 <= i < 8 ==> IsLowerHex(uuid[i])
    ensures var id := NewPatientId(uuid);
      && |id| == 10 && id[0] == 'P' && id[1] == 'T'
      && (forall i :: 2 <= i < 10 ==> IsUpperHex(id[i]))
      && (forall i :: 2 <= i < 10 ==> id[i] == uuid[i - 2] || LowerChar(id[i]) == uuid[i - 2])
  {
    var id := NewPatientId(uuid);
    assert id[0] == id[..2][0];
    assert id[1] == id[..2][1];
  }

  /** Looking a freshly registered patient up by its generated id finds the
      saved row, provided no earlier row had that id. */
  lemma RegisteredPatientIsFound(rows: seq<Patient>, req: RegistrationRequest, uuid: UuidText,
                                 genders: set<string>, encode: string -> string)
    requires forall i :: 0 <= i < |rows| ==> rows[i].patientId != NewPatientId(uuid)
    requires RegisterPatient(rows, req, uuid, genders, encode).Success?
    ensures var saved := RegisterPatient(rows, req, uuid, genders, encode).value;
      GetPatientById(saved.rows, saved.patient.patientId) == Success(saved.patient)
  {
    var saved := RegisterPatient(rows, req, uuid, genders, encode).value;
    var k := IndexOfPatientId(saved.rows, saved.patient.patientId);
    assert saved.rows[|rows|] == saved.patient;
    assert forall i :: 0 <= i < |rows| ==> saved.rows[i] == rows[i];
    assert k == Some(|rows|);
  }

  /** A well-formed request reaches `registerPatient` with a gender and a
      password, so registration can fail only on a taken email, a taken
      phone number, or a gender that names no enum constant. */
  lemma ValidRegistrationFailures(rows: seq<Patient>, req: RegistrationRequest, today: Date,
                                  isEmail: string -> bool, uuid: UuidText, genders: set<string>,
                                  encode: string -> string)
    requires WellFormed(req, today, isEmail)
    ensures var r := SubmitRegistration(rows, req, today, isEmail, uuid, genders, encode);
      r.Failure? ==> r.error in {EmailAlreadyRegistered, PhoneAlreadyRegistered, GenderUnknown}
  {
  }

  // ---------------------------------------------------------------------
  // Update
  // ---------------------------------------------------------------------

  /** An update rewrites only the first row with the given id, and in it only
      the five detail fields, which take the request's values; the ids,
      date of birth, gender, contact data, password, address and status
      stay as they were. */
  lemma UpdateChangesOnlyDetails(rows: seq<Patient>, patientId: string, req: RegistrationRequest)
    requires UpdatePatient(rows, patientId, req).Success?
    ensures var saved := UpdatePatient(rows, patientId, req).value;
      exists k :: 0 <= k < |rows| && rows[k].patientId == patientId
        && (forall i :: 0 <= i < k ==> rows[i].patientId != patientId)
        && (forall i :: 0 <= i < |rows| && i != k ==> saved.rows[i] == rows[i])
        && saved.rows[k] == saved.patient
        && saved.patient.patientId == rows[k].patientId
        && saved.patient.dateOfBirth == rows[k].dateOfBirth
        && saved.patient.gender == rows[k].gender
        && saved.patient.phoneNumber == rows[k].phoneNumber
        && saved.patient.email == rows[k].email
        && saved.patient.password == rows[k].password
        && saved.patient.address == rows[k].address
        && saved.patient.status == rows[k].status
        && saved.patient.firstName == req.firstName
        && saved.patient.lastName == req.lastName
        && saved.patient.bloodGroup == req.bloodGroup
        && saved.patient.medicalHistory == req.medicalHistory
        && saved.patient.allergies == req.allergies
  {
    var k := IndexOfPatientId(rows, patientId).value;
    var saved := UpdatePatient(rows, patientId, req).value;
    assert saved.rows == rows[k := saved.patient];
  }

  /** Rewriting one row without changing its key keeps the key unique. */
  lemma {:induction false} ReplaceKeepsUnique<K>(rows: seq<Patient>, k: nat, p: Patient, key: Patient -> K)
    requires UniqueBy(rows, key)
    requires k < |rows| && key(p) == key(rows[k])
    ensures UniqueBy(rows[k := p], key)
  {
    var after := rows[k := p];
    forall i, j | 0 <= i < j < |after|
      ensures key(after[i]) != key(after[j])
    {
      assert key(after[i]) == key(rows[i]);
      assert key(after[j]) == key(rows[j]);
    }
  }

  /** An update keeps emails, phone numbers and patient ids unique, since it
      leaves all three untouched. */
  lemma UpdateKeepsUnique(rows: seq<Patient>, patientId: string, req: RegistrationRequest)
    requires UniqueBy(rows, EmailKey()) && UniqueBy(rows, PhoneKey()) && UniqueBy(rows, PatientIdKey())
    requires UpdatePatient(rows, patientId, req).Success?
    ensures var after := UpdatePatient(rows, patientId, req).value.rows;
      UniqueBy(after, EmailKey()) && UniqueBy(after, PhoneKey()) && UniqueBy(after, PatientIdKey())
  {
    var k := IndexOfPatientId(rows, patientId).value;
    var p := UpdatePatient(rows, patientId, req).value.patient;
    ReplaceKeepsUnique(rows, k, p, EmailKey());
    ReplaceKeepsUnique(rows, k, p, PhoneKey());
    ReplaceKeepsUnique(rows, k, p, PatientIdKey());
  }

  /** Looking the patient up after an update finds the updated row. */
  lemma UpdatedPatientIsFound(rows: seq<Patient>, patientId: string, req: RegistrationRequest)
    requires UpdatePatient(rows, patientId, req).Success?
    ensures var saved := UpdatePatient(rows, patientId, req).value;
      GetPatientById(saved.rows, patientId) == Success(saved.patient)
  {
    var k := IndexOfPatientId(rows, patientId).value;
    var saved := UpdatePatient(rows, patientId, req).value;
    assert saved.rows == rows[k := saved.patient];
    assert saved.rows[k].patientId == patientId;
    assert forall i :: 0 <= i < k ==> saved.rows[i].patientId != patientId;
    var m := IndexOfPatientId(saved.rows, patientId);
    assert m.Some? && m.value <= k;
    assert m == Some(k);
  }
}
