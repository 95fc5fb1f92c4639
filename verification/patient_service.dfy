/** The patient registry (`PatientService` over `PatientRepository`): the
    patient table is a sequence of rows in table order. Registration adds a
    row, update rewrites one in place, and lookups by the business key
    `patientId` take the first matching row. */
module PatientService {
  import opened Wrappers
  import opened Text
  import opened PatientRequest

  /** `Patient.PatientStatus`: registration only ever assigns `ACTIVE`; the
      enum's other constants are names this model does not interpret. */
  datatype PatientStatus = Active | OtherStatus(name: string)

  /** A row of the patient table. `gender` is the name of the `Gender` enum
      constant; `password` is the encoder's output. */
  datatype Patient = Patient(
    patientId: string,
    firstName: Option<string>,
    lastName: Option<string>,
    dateOfBirth: Option<Date>,
    gender: string,
    phoneNumber: Option<string>,
    email: Option<string>,
    password: string,
    address: Option<Address>,
    bloodGroup: Option<string>,
    medicalHistory: Option<string>,
    allergies: Option<string>,
    status: PatientStatus)

  /** The thrown exceptions: the two `PatientAlreadyExistsException`s, the
      failures of `Gender.valueOf(gender.toUpperCase())` on a null gender
      and on an unknown name, the encoder's refusal of a null password, and
      `PatientNotFoundException`. */
  datatype PatientError =
    | EmailAlreadyRegistered
    | PhoneAlreadyRegistered
    | GenderMissing
    | GenderUnknown
    | PasswordMissing
    | PatientNotFound
    | Invalid(violations: set<Violation>)

  /** The text form of a random UUID: 36 characters with a hyphen after the
      first eight. */
  type UuidText = s: string | |s| == 36 && s[8] == '-' witness "00000000-0000-0000-0000-000000000000"

  /** The outcome of a successful registration or update: the table after
      the save, and the saved row. */
  datatype Saved = Saved(rows: seq<Patient>, patient: Patient)

  // ---------------------------------------------------------------------
  // Repository queries
  // ---------------------------------------------------------------------

  /** `existsByEmail`: a derived query, so a null email matches a row whose
      email is null. */
  predicate ExistsByEmail(rows: seq<Patient>, email: Option<string>)
  {
    exists i :: 0 <= i < |rows| && rows[i].email == email
  }

  /** `existsByPhoneNumber`, with the same null semantics. */
  predicate ExistsByPhoneNumber(rows: seq<Patient>, phoneNumber: Option<string>)
  {
    exists i :: 0 <= i < |rows| && rows[i].phoneNumber == phoneNumber
  }

  /** The index of the first row with the given `patientId`, if any. */
  function IndexOfPatientId(rows: seq<Patient>, patientId: string): (r: Option<nat>)
    ensures r.None? <==> forall i :: 0 <= i < |rows| ==> rows[i].patientId != patientId
    ensures r.Some? ==> r.value < |rows| && rows[r.value].patientId == patientId
    ensures r.Some? ==> forall i :: 0 <= i < r.value ==> rows[i].patientId != patientId
  {
    if |rows| == 0 then None
    else if rows[0].patientId == patientId then Some(0)
    else match IndexOfPatientId(rows[1..], patientId)
      case None => None
      case Some(k) => Some(k + 1)
  }

  /** No two rows share a value of `key`. */
  ghost predicate UniqueBy<K>(rows: seq<Patient>, key: Patient -> K)
  {
    forall i, j :: 0 <= i < j < |rows| ==> key(rows[i]) != key(rows[j])
  }

  function EmailKey(): Patient -> Option<string> { (p: Patient) => p.email }
  function PhoneKey(): Patient -> Option<string> { (p: Patient) => p.phoneNumber }
  function PatientIdKey(): Patient -> string { (p: Patient) => p.patientId }

  // ---------------------------------------------------------------------
  // Operations
  // ---------------------------------------------------------------------

  /** The generated business key: "PT" and the first eight characters of
      the UUID text, upper-cased. */
  function NewPatientId(uuid: UuidText): (id: string)
    ensures |id| == 10 && id[..2] == "PT"
    ensures forall i :: 2 <= i < 10 ==> id[i] == UpperChar(uuid[i - 2])
  {
    "PT" + Upper(uuid[..8])
  }

  /** The row `registerPatient` builds from a request that passed its
      checks. */
  function NewPatient(req: RegistrationRequest, uuid: UuidText, gender: string, password: string): Patient
  {
    Patient(NewPatientId(uuid), req.firstName, req.lastName, req.dateOfBirth, gender,
            req.phoneNumber, req.email, password, req.address,
            req.bloodGroup, req.medicalHistory, req.allergies, Active)
  }

  /** `registerPatient`. The email is checked before the phone number;
      then the gender is resolved against the enum's constant names
      `genders`, and the password is encoded by `encode`. The row is
      appended to the table. */
  function RegisterPatient(rows: seq<Patient>, req: RegistrationRequest, uuid: UuidText,
                           genders: set<string>, encode: string -> string): (r: Result<Saved, PatientError>)
    ensures r == Failure(EmailAlreadyRegistered) <==> ExistsByEmail(rows, req.email)
    ensures r == Failure(PhoneAlreadyRegistered) <==>
      !ExistsByEmail(rows, req.email) && ExistsByPhoneNumber(rows, req.phoneNumber)
    ensures r == Failure(GenderMissing) <==>
      !ExistsByEmail(rows, req.email) && !ExistsByPhoneNumber(rows, req.phoneNumber) && req.gender.None?
    ensures r == Failure(GenderUnknown) <==>
      !ExistsByEmail(rows, req.email) && !ExistsByPhoneNumber(rows, req.phoneNumber)
      && req.gender.Some? && Upper(req.gender.value) !in genders
    ensures r == Failure(PasswordMissing) <==>
      !ExistsByEmail(rows, req.email) && !ExistsByPhoneNumber(rows, req.phoneNumber)
      && req.gender.Some? && Upper(req.gender.value) in genders && req.password.None?
    ensures r.Failure? ==> r.error != PatientNotFound && !r.error.Invalid?
    ensures r.Success? ==>
      && r.value.rows == rows + [r.value.patient]
      && r.value.patient.status == Active
      && r.value.patient.gender in genders
      && r.value.patient.gender == Upper(req.gender.value)
      && r.value.patient.password == encode(req.password.value)
      && (r.value.patient.address.Some? <==> req.address.Some?)
  {
    if ExistsByEmail(rows, req.email) then Failure(EmailAlreadyRegistered)
    else if ExistsByPhoneNumber(rows, req.phoneNumber) then Failure(PhoneAlreadyRegistered)
    else if req.gender.None? then Failure(GenderMissing)
    else if Upper(req.gender.value) !in genders then Failure(GenderUnknown)
    else if req.password.None? then Failure(PasswordMissing)
    else
      var p := NewPatient(req, uuid, Upper(req.gender.value), encode(req.password.value));
      Success(Saved(rows + [p], p))
  }

  /** `getPatientById`: the first row with the given key. */
  function GetPatientById(rows: seq<Patient>, patientId: string): (r: Result<Patient, PatientError>)
    ensures r == Failure(PatientNotFound) <==> forall i :: 0 <= i < |rows| ==> rows[i].patientId != patientId
    ensures r.Failure? ==> r.error == PatientNotFound
    ensures r.Success? ==> r.value in rows && r.value.patientId == patientId
    ensures UniqueBy(rows, PatientIdKey()) ==>
      forall i :: 0 <= i < |rows| && rows[i].patientId == patientId ==> r == Success(rows[i])
  {
    match IndexOfPatientId(rows, patientId)
    case None => Failure(PatientNotFound)
    case Some(k) =>
      assert UniqueBy(rows, PatientIdKey()) ==>
        forall i :: 0 <= i < |rows| && rows[i].patientId == patientId ==> i == k by {
        if UniqueBy(rows, PatientIdKey()) {
          forall i | 0 <= i < |rows| && rows[i].patientId == patientId
            ensures i == k
          {
            assert i >= k;
            assert PatientIdKey()(rows[i]) == PatientIdKey()(rows[k]);
          }
        }
      }
      Success(rows[k])
  }

  /** The five fields `updatePatient` copies from the request onto a row. */
  function WithDetails(p: Patient, req: RegistrationRequest): Patient
  {
    p.(firstName := req.firstName, lastName := req.lastName, bloodGroup := req.bloodGroup,
       medicalHistory := req.medicalHistory, allergies := req.allergies)
  }

  /** `updatePatient`: overwrites the five detail fields of the first row
      with the given key and saves it where it stands. */
  function UpdatePatient(rows: seq<Patient>, patientId: string, req: RegistrationRequest): (r: Result<Saved, PatientError>)
    ensures r == Failure(PatientNotFound) <==> forall i :: 0 <= i < |rows| ==> rows[i].patientId != patientId
    ensures r.Failure? ==> r.error == PatientNotFound
    ensures r.Success? ==>
      && |r.value.rows| == |rows|
      && GetPatientById(rows, patientId).Success?
      && r.value.patient == WithDetails(GetPatientById(rows, patientId).value, req)
  {
    match IndexOfPatientId(rows, patientId)
    case None => Failure(PatientNotFound)
    case Some(k) =>
      var p := WithDetails(rows[k], req);
      Success(Saved(rows[k := p], p))
  }

  /** The request path of registration: Bean Validation of the request
      (`@Valid`) runs first and reports every violation; only a valid
      request reaches `registerPatient`. */
  function SubmitRegistration(rows: seq<Patient>, req: RegistrationRequest, today: Date, isEmail: string -> bool,
                              uuid: UuidText, genders: set<string>, encode: string -> string): (r: Result<Saved, PatientError>)
    ensures r.Failure? && r.error.Invalid? <==> !WellFormed(req, today, isEmail)
    ensures r.Failure? && r.error.Invalid? ==> r.error.violations == Violations(req, today, isEmail)
    ensures WellFormed(req, today, isEmail) ==> r == RegisterPatient(rows, req, uuid, genders, encode)
  {
    NoViolationsIffWellFormed(req, today, isEmail);
    var vs := Violations(req, today, isEmail);
    if vs != {} then Failure(Invalid(vs)) else RegisterPatient(rows, req, uuid, genders, encode)
  }

  /** The request path of an update: Bean Validation first, then
      `updatePatient`. */
  function SubmitUpdate(rows: seq<Patient>, patientId: string, req: RegistrationRequest, today: Date,
                        isEmail: string -> bool): (r: Result<Saved, PatientError>)
    ensures r.Failure? && r.error.Invalid? <==> !WellFormed(req, today, isEmail)
    ensures WellFormed(req, today, isEmail) ==> r == UpdatePatient(rows, patientId, req)
  {
    NoViolationsIffWellFormed(req, today, isEmail);
    var vs := Violations(req, today, isEmail);
    if vs != {} then Failure(Invalid(vs)) else UpdatePatient(rows, patientId, req)
  }
}
