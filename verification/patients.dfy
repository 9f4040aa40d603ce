/**
 * The patient record: `BasePatient` with its field validators, and the two
 * records built from it, `NewPatient` (whose `patient_id` defaults to 0) and
 * `ExistingPatient` (whose `patient_id` must be given). A validator runs on
 * a field only when the caller supplies that field (possibly as `None`); an
 * omitted field keeps its default. Every failing field is reported, in the
 * order the fields are declared.
 */
module Patients {
  import opened Wrappers
  import opened Text
  import opened PatientFields
  import opened DateOfBirth

  /** A field as the caller passes it: left out, or given (possibly as `None`). */
  datatype Supplied = Omitted | Given(value: Option<string>)

  datatype PatientInput = PatientInput(
    patientId: Option<int>,
    nameFirst: Supplied, nameLast: Supplied, nameMiddle: Supplied,
    nameSuffix: Supplied, namePreferred: Supplied,
    email: Supplied, dob: Supplied, ssn: Supplied,
    phoneHome: Supplied, phoneMobile: Supplied, phoneFax: Supplied)

  datatype Patient = Patient(
    patientId: int,
    nameFirst: Option<string>, nameLast: Option<string>, nameMiddle: Option<string>,
    nameSuffix: Option<string>, namePreferred: Option<string>,
    email: Option<string>, dob: Option<string>, ssn: Option<string>,
    phoneHome: Option<string>, phoneMobile: Option<string>, phoneFax: Option<string>)

  datatype FieldError = FieldError(field: string, message: string)

  const MissingFieldMessage: string := "Field required"

  /** `patient_id` of a new patient when none is given: "Always 0 for new patients". */
  const NewPatientId: int := 0

  /** A name field holds what was given, and `""` when it was left out. */
  predicate StoresName(s: Supplied, stored: Option<string>) {
    if s.Omitted? then stored == Some("") else stored == s.value
  }

  /**
   * A validated field holds its validator's result on what was given, and
   * `None` (its default, not validated) when it was left out.
   */
  predicate StoresValidated(s: Supplied, stored: Option<string>, validate: Option<string> -> Result<string, string>) {
    if s.Omitted? then stored == None
    else validate(s.value).Success? && stored == Some(validate(s.value).value)
  }

  /** A name field: no validator; an omitted one is `""`. */
  function NameField(s: Supplied): (stored: Option<string>)
    ensures StoresName(s, stored)
  {
    match s
    case Omitted => Some("")
    case Given(v) => v
  }

  /** A validated field: an omitted one stays `None` without running its validator. */
  function Checked(s: Supplied, validate: Option<string> -> Result<string, string>): (r: Result<Option<string>, string>)
    ensures r.Success? ==> StoresValidated(s, r.value, validate)
    ensures r.Failure? <==> s.Given? && validate(s.value).Failure?
  {
    match s
    case Omitted => Success(None)
    case Given(v) =>
      match validate(v)
      case Success(x) => Success(Some(x))
      case Failure(e) => Failure(e)
  }

  function ErrorsOf<T>(field: string, r: Result<T, string>): (errors: seq<FieldError>)
    ensures forall e :: e in errors ==> e.field == field
  {
    if r.Failure? then [FieldError(field, r.error)] else []
  }

  /** Every field of a record built from `input` is what its declaration and validator make of it. */
  predicate StoresFields(input: PatientInput, p: Patient) {
    && StoresName(input.nameFirst, p.nameFirst) && StoresName(input.nameLast, p.nameLast)
    && StoresName(input.nameMiddle, p.nameMiddle) && StoresName(input.nameSuffix, p.nameSuffix)
    && StoresName(input.namePreferred, p.namePreferred)
    && StoresValidated(input.email, p.email, ValidateEmail)
    && StoresValidated(input.dob, p.dob, ValidateDateFormat)
    && StoresValidated(input.ssn, p.ssn, FormatSsn)
    && StoresValidated(input.phoneHome, p.phoneHome, FormatPhone)
    && StoresValidated(input.phoneMobile, p.phoneMobile, FormatPhone)
    && StoresValidated(input.phoneFax, p.phoneFax, FormatPhone)
  }

  /** The errors of the validated fields, in declaration order. */
  function ValidatedFieldErrors(input: PatientInput): (errors: seq<FieldError>)
    ensures forall e :: e in errors ==> e.field != "patient_id"
  {
    ErrorsOf("email", Checked(input.email, ValidateEmail))
    + ErrorsOf("dob", Checked(input.dob, ValidateDateFormat))
    + ErrorsOf("ssn", Checked(input.ssn, FormatSsn))
    + ErrorsOf("phone_home", Checked(input.phoneHome, FormatPhone))
    + ErrorsOf("phone_mobile", Checked(input.phoneMobile, FormatPhone))
    + ErrorsOf("phone_fax", Checked(input.phoneFax, FormatPhone))
  }

  /**
   * Builds a record from its input. `defaultId` is the default of
   * `patient_id`: `Some(0)` for `NewPatient`, none for `ExistingPatient`.
   */
  function ValidatePatient(input: PatientInput, defaultId: Option<int>): (r: Result<Patient, seq<FieldError>>)
    ensures r.Success? && input.patientId.Some? ==> r.value.patientId == input.patientId.value
    ensures r.Success? && input.patientId.None? ==> defaultId == Some(r.value.patientId)
    ensures input.patientId.None? && defaultId.None? ==>
      r.Failure? && |r.error| > 0 && r.error[0] == FieldError("patient_id", MissingFieldMessage)
    ensures r.Failure? && (input.patientId.Some? || defaultId.Some?) ==>
      forall e :: e in r.error ==> e.field != "patient_id"
    ensures r.Success? ==> StoresFields(input, r.value)
  {
    var id: Result<int, string> :=
      if input.patientId.Some? then Success(input.patientId.value)
      else if defaultId.Some? then Success(defaultId.value)
      else Failure(MissingFieldMessage);
    var email := Checked(input.email, ValidateEmail);
    var dob := Checked(input.dob, ValidateDateFormat);
    var ssn := Checked(input.ssn, FormatSsn);
    var home := Checked(input.phoneHome, FormatPhone);
    var mobile := Checked(input.phoneMobile, FormatPhone);
    var fax := Checked(input.phoneFax, FormatPhone);
    var errors := ErrorsOf("patient_id", id) + ValidatedFieldErrors(input);
    if errors != [] then Failure(errors)
    else
      Success(Patient(
        id.value,
        NameField(input.nameFirst), NameField(input.nameLast), NameField(input.nameMiddle),
        NameField(input.nameSuffix), NameField(input.namePreferred),
        email.value, dob.value, ssn.value, home.value, mobile.value, fax.value))
  }

  /** `NewPatient(...)`: the id defaults to 0, so it is never reported missing. */
  function NewPatient(input: PatientInput): (r: Result<Patient, seq<FieldError>>)
    ensures r.Success? ==> r.value.patientId == (if input.patientId.Some? then input.patientId.value else NewPatientId)
    ensures r.Failure? ==> forall e :: e in r.error ==> e.field != "patient_id"
  {
    ValidatePatient(input, Some(NewPatientId))
  }

  /** `ExistingPatient(...)`: the id must be given. */
  function ExistingPatient(input: PatientInput): (r: Result<Patient, seq<FieldError>>)
    ensures r.Success? ==> input.patientId.Some? && r.value.patientId == input.patientId.value
    ensures input.patientId.None? ==> r.Failure? && |r.error| > 0 && r.error[0] == FieldError("patient_id", MissingFieldMessage)
  {
    ValidatePatient(input, None)
  }

  /** The phone fields of a record hold `None`, the placeholder or a formatted number. */
  predicate IsPhoneValue(v: Option<string>) {
    v.None? || v.value == PhoneMask || IsPhoneShape(v.value)
  }

  /** Every validated field of a record is in its normal form. */
  ghost predicate IsNormalised(p: Patient) {
    && IsPhoneValue(p.phoneHome) && IsPhoneValue(p.phoneMobile) && IsPhoneValue(p.phoneFax)
    && (p.ssn.None? || p.ssn.value == SsnMask || IsSsnShape(p.ssn.value))
    && (p.email.None? || p.email.value == "" || EmailPatternMatches(p.email.value))
    && (p.dob.None? || p.dob.value == "" || StrptimeAccepts(p.dob.value))
  }

  lemma PhoneResultShape(v: Option<string>)
    requires FormatPhone(v).Success?
    ensures FormatPhone(v).value == PhoneMask || IsPhoneShape(FormatPhone(v).value)
  {
    if !(IsBlank(v) || v.value == PhoneMask) {
      FormatPhoneKeepsDigits(v.value);
    }
  }

  lemma CheckedPhone(s: Supplied)
    requires Checked(s, FormatPhone).Success?
    ensures IsPhoneValue(Checked(s, FormatPhone).value)
  {
    if s.Given? {
      PhoneResultShape(s.value);
    }
  }

  /** A record that validates holds each validated field in its normal form. */
  lemma ValidatedPatientIsNormalised(input: PatientInput, defaultId: Option<int>)
    requires ValidatePatient(input, defaultId).Success?
    ensures IsNormalised(ValidatePatient(input, defaultId).value)
  {
    var p := ValidatePatient(input, defaultId).value;
    CheckedPhone(input.phoneHome);
    CheckedPhone(input.phoneMobile);
    CheckedPhone(input.phoneFax);
    if input.ssn.Given? {
      var v := input.ssn.value;
      if !(IsBlank(v) || v.value == SsnMask) {
        FormatSsnKeepsDigits(v.value);
      }
    }
    if p.email.Some? && p.email.value != "" {
      EmailPrefixMatchesIff(p.email.value);
    }
    if p.dob.Some? && p.dob.value != "" {
      ValidateDateFormatAccepts(p.dob.value);
    }
  }

  /** How a stored field value is passed back in: `None` as an omitted field. */
  function Resupplied(v: Option<string>): (s: Supplied) {
    if v.None? then Omitted else Given(v)
  }

  /** The input that passes a record's fields back in, validated fields left out when `None`. */
  function Resupply(p: Patient): (input: PatientInput) {
    PatientInput(
      Some(p.patientId),
      Given(p.nameFirst), Given(p.nameLast), Given(p.nameMiddle), Given(p.nameSuffix), Given(p.namePreferred),
      Resupplied(p.email), Resupplied(p.dob), Resupplied(p.ssn),
      Resupplied(p.phoneHome), Resupplied(p.phoneMobile), Resupplied(p.phoneFax))
  }

  ghost predicate Idempotent(validate: Option<string> -> Result<string, string>) {
    forall v :: validate(v).Success? ==> validate(Some(validate(v).value)) == validate(v)
  }

  lemma CheckedIdempotent(s: Supplied, validate: Option<string> -> Result<string, string>)
    requires Idempotent(validate)
    requires Checked(s, validate).Success?
    ensures Checked(Resupplied(Checked(s, validate).value), validate) == Checked(s, validate)
  {
  }

  lemma ValidatorsIdempotent()
    ensures Idempotent(FormatPhone) && Idempotent(FormatSsn)
    ensures Idempotent(ValidateEmail) && Idempotent(ValidateDateFormat)
  {
    forall v | FormatPhone(v).Success?
      ensures FormatPhone(Some(FormatPhone(v).value)) == FormatPhone(v)
    {
      FormatPhoneIdempotent(v);
    }
    forall v | FormatSsn(v).Success?
      ensures FormatSsn(Some(FormatSsn(v).value)) == FormatSsn(v)
    {
      FormatSsnIdempotent(v);
    }
    forall v | ValidateDateFormat(v).Success?
      ensures ValidateDateFormat(Some(ValidateDateFormat(v).value)) == ValidateDateFormat(v)
    {
      ValidateDateFormatIdempotent(v);
    }
  }

  /**
   * Validating a validated record again gives the same record, when its
   * fields are passed back in with the `None` validated fields left out.
   */
  lemma ValidatePatientIdempotent(input: PatientInput, defaultId: Option<int>)
    requires ValidatePatient(input, defaultId).Success?
    ensures ValidatePatient(Resupply(ValidatePatient(input, defaultId).value), defaultId)
         == ValidatePatient(input, defaultId)
  {
    ValidatorsIdempotent();
    CheckedIdempotent(input.email, ValidateEmail);
    CheckedIdempotent(input.dob, ValidateDateFormat);
    CheckedIdempotent(input.ssn, FormatSsn);
    CheckedIdempotent(input.phoneHome, FormatPhone);
    CheckedIdempotent(input.phoneMobile, FormatPhone);
    CheckedIdempotent(input.phoneFax, FormatPhone);
  }

  /** The input that passes every field of a record back in explicitly, `None` included (as `model_dump()` does). */
  function ResupplyAll(p: Patient): (input: PatientInput)
    ensures input.patientId == Some(p.patientId)
    ensures input.email.Given? && input.dob.Given? && input.ssn.Given?
    ensures input.phoneHome.Given? && input.phoneMobile.Given? && input.phoneFax.Given?
  {
    PatientInput(
      Some(p.patientId),
      Given(p.nameFirst), Given(p.nameLast), Given(p.nameMiddle), Given(p.nameSuffix), Given(p.namePreferred),
      Given(p.email), Given(p.dob), Given(p.ssn),
      Given(p.phoneHome), Given(p.phoneMobile), Given(p.phoneFax))
  }

  function FillNone(v: Option<string>, fill: string): (filled: Option<string>) {
    if v.None? then Some(fill) else v
  }

  /** A record with its `None` validated fields replaced by what their validators make of `None`. */
  function Filled(p: Patient): (q: Patient) {
    p.(email := FillNone(p.email, ""), dob := FillNone(p.dob, ""), ssn := FillNone(p.ssn, SsnMask),
       phoneHome := FillNone(p.phoneHome, PhoneMask), phoneMobile := FillNone(p.phoneMobile, PhoneMask),
       phoneFax := FillNone(p.phoneFax, PhoneMask))
  }

  lemma CheckedExplicit(s: Supplied, validate: Option<string> -> Result<string, string>, fill: string)
    requires Idempotent(validate)
    requires validate(None) == Success(fill)
    requires Checked(s, validate).Success?
    ensures Checked(Given(Checked(s, validate).value), validate) == Success(FillNone(Checked(s, validate).value, fill))
  {
  }

  /**
   * Validating a record again with every field passed back explicitly turns
   * each `None` validated field into its validator's value for `None` (the
   * placeholder masks, or `""`) and keeps every other field; the result is
   * then stable under a further round.
   */
  lemma ValidatePatientExplicitNone(input: PatientInput, defaultId: Option<int>)
    requires ValidatePatient(input, defaultId).Success?
    ensures var p := ValidatePatient(input, defaultId).value;
      && ValidatePatient(ResupplyAll(p), defaultId) == Success(Filled(p))
      && ValidatePatient(ResupplyAll(Filled(p)), defaultId) == Success(Filled(p))
  {
    ValidatorsIdempotent();
    CheckedExplicit(input.email, ValidateEmail, "");
    CheckedExplicit(input.dob, ValidateDateFormat, "");
    CheckedExplicit(input.ssn, FormatSsn, SsnMask);
    CheckedExplicit(input.phoneHome, FormatPhone, PhoneMask);
    CheckedExplicit(input.phoneMobile, FormatPhone, PhoneMask);
    CheckedExplicit(input.phoneFax, FormatPhone, PhoneMask);
    var p := ValidatePatient(input, defaultId).value;
    var q := Filled(p);
    CheckedExplicit(Given(q.email), ValidateEmail, "");
    CheckedExplicit(Given(q.dob), ValidateDateFormat, "");
    CheckedExplicit(Given(q.ssn), FormatSsn, SsnMask);
    CheckedExplicit(Given(q.phoneHome), FormatPhone, PhoneMask);
    CheckedExplicit(Given(q.phoneMobile), FormatPhone, PhoneMask);
    CheckedExplicit(Given(q.phoneFax), FormatPhone, PhoneMask);
  }

  /** A record fails to validate exactly when its id is missing or some supplied field is rejected. */
  lemma ValidatePatientFailsIff(input: PatientInput, defaultId: Option<int>)
    ensures ValidatePatient(input, defaultId).Failure? <==>
      || (input.patientId.None? && defaultId.None?)
      || Checked(input.email, ValidateEmail).Failure?
      || Checked(input.dob, ValidateDateFormat).Failure?
      || Checked(input.ssn, FormatSsn).Failure?
      || Checked(input.phoneHome, FormatPhone).Failure?
      || Checked(input.phoneMobile, FormatPhone).Failure?
      || Checked(input.phoneFax, FormatPhone).Failure?
  {
  }

  /** A new patient given no id is created with id 0; an existing patient given none is rejected. */
  lemma NewPatientIdDefault(input: PatientInput)
    requires input.patientId.None?
    ensures NewPatient(input).Success? ==> NewPatient(input).value.patientId == 0
    ensures ExistingPatient(input).Failure?
  {
  }
}
