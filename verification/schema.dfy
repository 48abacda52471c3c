/**
 * The patient record schema: the loosely typed values the clinical data
 * API sends, the per-field normalising transforms, the canonical patient
 * record they produce, and the shapes of a risk score and of a scored
 * patient.
 */
module Schema {
  import opened Wrappers
  import opened JsString
  import opened JsNumber

  /** A JSON field value as it arrives: a number, a string, `null`, or absent. */
  datatype RawValue = Num(n: real) | Str(s: string) | Null | Undefined

  /** A field whose type the schema does not admit, e.g. `null` where a string is required. */
  datatype Issue = InvalidType

  /** A field of the patient record that the schema can reject. */
  datatype Field = PatientIdField | NameField | GenderField | BloodPressureField
                 | VisitDateField | DiagnosisField | MedicationsField

  /** One record of the upstream API, before validation. */
  datatype RawPatient = RawPatient(
    patientId: RawValue, name: RawValue, age: RawValue, gender: RawValue,
    bloodPressure: RawValue, temperature: RawValue,
    visitDate: RawValue, diagnosis: RawValue, medications: RawValue)

  /** The canonical record: `None` marks a missing or unusable measurement. */
  datatype Patient = Patient(
    patientId: string, name: string, age: Option<real>, gender: string,
    bloodPressure: Option<string>, temperature: Option<real>,
    visitDate: string, diagnosis: string, medications: string)

  /** The three sub-scores and their sum. */
  datatype RiskScore = RiskScore(bloodPressure: int, temperature: int, age: int, total: int)

  /** A canonical record with its score and its three alert flags. */
  datatype PatientWithRisk = PatientWithRisk(
    patient: Patient, riskScore: RiskScore,
    hasDataQualityIssues: bool, hasFever: bool, isHighRisk: bool)

  /** The patient ids submitted for assessment, one list per alert category. */
  datatype AssessmentResults = AssessmentResults(
    highRiskPatients: seq<string>, feverPatients: seq<string>, dataQualityIssues: seq<string>)

  /** The bounds the risk score schema puts on each of its four numbers. */
  predicate ValidRiskScore(r: RiskScore): (b: bool)
    // when the total is the sum of the parts, the bound on the total follows from the other three
    ensures r.total == r.bloodPressure + r.temperature + r.age
            ==> (b <==> 0 <= r.bloodPressure <= 4 && 0 <= r.temperature <= 2 && 0 <= r.age <= 2)
  {
    && 0 <= r.bloodPressure <= 4
    && 0 <= r.temperature <= 2
    && 0 <= r.age <= 2
    && 0 <= r.total <= 8
  }

  /** The default the schema gives an absent text field. */
  const Unknown: string := "Unknown"

  /** A value the transforms treat as "no value": `null`, absent, or the empty string. */
  predicate IsBlank(v: RawValue) {
    v.Null? || v.Undefined? || v == Str("")
  }

  /** The `age` transform: numbers pass through, strings are `parseFloat`ed, blanks and `NaN` become `null`. */
  function NormalizeAge(v: RawValue): (r: Option<real>)
    ensures IsBlank(v) ==> r.None?
    ensures v.Num? ==> r == Some(v.n)
    ensures v.Str? ==> r == ParseFloat(v.s)
  {
    match v
    case Null => None
    case Undefined => None
    case Num(n) => Some(n)
    case Str(s) => if s == "" then None else ParseFloat(s)
  }

  /** The `blood_pressure` field admits a string, `null` or nothing; blanks become `null`, any other string is kept as it is. */
  function NormalizeBloodPressure(v: RawValue): (r: Result<Option<string>, Issue>)
    ensures r.Failure? <==> v.Num?
    ensures IsBlank(v) ==> r == Success(None)
    ensures v.Str? && v.s != "" ==> r == Success(Some(v.s))
  {
    match v
    case Num(_) => Failure(InvalidType)
    case Str(s) => if s == "" then Success(None) else Success(Some(s))
    case Null => Success(None)
    case Undefined => Success(None)
  }

  /** A temperature string that holds one of the upstream error markers, in any letter case. */
  predicate HasErrorMarker(s: string) {
    var lower := ToLower(s);
    Includes(lower, "error") || Includes(lower, "invalid") || Includes(lower, "n/a")
  }

  /**
   * The `temperature` transform: numbers pass through; strings holding an
   * error marker become `null` before any parsing; other strings are
   * `parseFloat`ed, with `NaN` becoming `null`.
   */
  function NormalizeTemperature(v: RawValue): (r: Option<real>)
    ensures IsBlank(v) ==> r.None?
    ensures v.Num? ==> r == Some(v.n)
    ensures v.Str? && HasErrorMarker(v.s) ==> r.None?
    ensures v.Str? && !HasErrorMarker(v.s) ==> r == ParseFloat(v.s)
  {
    match v
    case Null => None
    case Undefined => None
    case Num(n) => Some(n)
    case Str(s) =>
      if s == "" then None
      else if HasErrorMarker(s) then None
      else ParseFloat(s)
  }

  /** A required text field (`patient_id`, `name`): only a string is admitted. */
  function RequireText(v: RawValue): (r: Result<string, Issue>)
    ensures r.Success? <==> v.Str?
    ensures v.Str? ==> r.value == v.s
  {
    match v
    case Str(s) => Success(s)
    case _ => Failure(InvalidType)
  }

  /** A text field with a default (`gender`, `visit_date`, ...): absent becomes "Unknown", a string is kept. */
  function DefaultText(v: RawValue): (r: Result<string, Issue>)
    ensures r.Success? <==> v.Str? || v.Undefined?
    ensures v.Undefined? ==> r == Success(Unknown)
    ensures v.Str? ==> r == Success(v.s)
  {
    match v
    case Undefined => Success(Unknown)
    case Str(s) => Success(s)
    case _ => Failure(InvalidType)
  }

  /** The checked fields, in declaration order. */
  const AllFields: seq<Field> :=
    [PatientIdField, NameField, GenderField, BloodPressureField, VisitDateField, DiagnosisField, MedicationsField]

  /** The schema admits the value of field `f` of `raw`. */
  predicate Admitted(raw: RawPatient, f: Field) {
    match f
    case PatientIdField => RequireText(raw.patientId).Success?
    case NameField => RequireText(raw.name).Success?
    case GenderField => DefaultText(raw.gender).Success?
    case BloodPressureField => NormalizeBloodPressure(raw.bloodPressure).Success?
    case VisitDateField => DefaultText(raw.visitDate).Success?
    case DiagnosisField => DefaultText(raw.diagnosis).Success?
    case MedicationsField => DefaultText(raw.medications).Success?
  }

  /** The fields, in declaration order, whose values the schema does not admit. */
  function RejectedFields(raw: RawPatient): (fields: seq<Field>)
    ensures forall f :: f in fields <==> !Admitted(raw, f)
    ensures |fields| <= |AllFields|
  {
    EveryFieldChecked();
    Rejected(raw, AllFields)
  }

  /** Every field of the record is among the checked fields. */
  lemma EveryFieldChecked()
    ensures forall f: Field :: f in AllFields
  {
    forall f: Field ensures f in AllFields {
      match f
      case PatientIdField => assert AllFields[0] == f;
      case NameField => assert AllFields[1] == f;
      case GenderField => assert AllFields[2] == f;
      case BloodPressureField => assert AllFields[3] == f;
      case VisitDateField => assert AllFields[4] == f;
      case DiagnosisField => assert AllFields[5] == f;
      case MedicationsField => assert AllFields[6] == f;
    }
  }

  /** No field is rejected exactly when each field has a type the schema admits. */
  lemma {:induction false} NothingRejected(raw: RawPatient)
    ensures RejectedFields(raw) == [] <==>
      && raw.patientId.Str? && raw.name.Str? && !raw.bloodPressure.Num?
      && (raw.gender.Str? || raw.gender.Undefined?)
      && (raw.visitDate.Str? || raw.visitDate.Undefined?)
      && (raw.diagnosis.Str? || raw.diagnosis.Undefined?)
      && (raw.medications.Str? || raw.medications.Undefined?)
  {
    var fields := RejectedFields(raw);
    if fields != [] {
      assert !Admitted(raw, fields[0]) by { assert fields[0] in fields; }
    } else {
      forall f: Field ensures Admitted(raw, f) {
        assert f !in fields;
      }
      assert Admitted(raw, PatientIdField) && Admitted(raw, NameField) && Admitted(raw, GenderField);
      assert Admitted(raw, BloodPressureField) && Admitted(raw, VisitDateField);
      assert Admitted(raw, DiagnosisField) && Admitted(raw, MedicationsField);
    }
  }

  /** The fields of `fs` that the schema does not admit, in the order of `fs`. */
  function Rejected(raw: RawPatient, fs: seq<Field>): (fields: seq<Field>)
    ensures forall f :: f in fields <==> f in fs && !Admitted(raw, f)
    ensures |fields| <= |fs|
  {
    if |fs| == 0 then []
    else (if Admitted(raw, fs[0]) then [] else [fs[0]]) + Rejected(raw, fs[1..])
  }

  /**
   * `patientSchema` applied to one record: either every field is admitted
   * and the record is normalised field by field, or the record is rejected
   * with the names of the fields at fault.
   */
  function NormalizePatient(raw: RawPatient): (r: Result<Patient, seq<Field>>)
    ensures r.Success? <==> raw.patientId.Str? && raw.name.Str? && !raw.bloodPressure.Num?
                            && (raw.gender.Str? || raw.gender.Undefined?)
                            && (raw.visitDate.Str? || raw.visitDate.Undefined?)
                            && (raw.diagnosis.Str? || raw.diagnosis.Undefined?)
                            && (raw.medications.Str? || raw.medications.Undefined?)
    ensures r.Failure? ==> |r.error| > 0 && r.error == RejectedFields(raw)
    ensures r.Success? ==> r.value.age == NormalizeAge(raw.age)
                           && r.value.temperature == NormalizeTemperature(raw.temperature)
                           && r.value.patientId == raw.patientId.s && r.value.name == raw.name.s
                           && r.value.bloodPressure == NormalizeBloodPressure(raw.bloodPressure).value
    ensures r.Success? ==> r.value.gender == DefaultText(raw.gender).value
                           && r.value.visitDate == DefaultText(raw.visitDate).value
                           && r.value.diagnosis == DefaultText(raw.diagnosis).value
                           && r.value.medications == DefaultText(raw.medications).value
  {
    var issues := RejectedFields(raw);
    NothingRejected(raw);
    if issues != [] then Failure(issues)
    else
      Success(Patient(
        RequireText(raw.patientId).value, RequireText(raw.name).value,
        NormalizeAge(raw.age), DefaultText(raw.gender).value,
        NormalizeBloodPressure(raw.bloodPressure).value,
        NormalizeTemperature(raw.temperature),
        DefaultText(raw.visitDate).value, DefaultText(raw.diagnosis).value,
        DefaultText(raw.medications).value))
  }

  /** A number sent as its decimal text normalises to the same age as the number itself. */
  lemma {:induction false} AgeTextAgreesWithNumber(n: nat, neg: bool)
    ensures NormalizeAge(Str(SignedRendering(n, neg)))
            == NormalizeAge(Num(if neg then -(n as real) else n as real))
  {
    ParseFloatRendering(n, neg, "");
    assert SignedRendering(n, neg) + "" == SignedRendering(n, neg);
  }

  /** Text made only of digits, signs and decimal points carries none of the error markers. */
  lemma {:induction false} NumericTextHasNoMarker(s: string)
    requires forall k :: 0 <= k < |s| ==> s[k] == '-' || s[k] == '.' || IsDecimalDigit(s[k])
    ensures !HasErrorMarker(s)
  {
    var lower := ToLower(s);
    assert forall k :: 0 <= k < |lower| ==> lower[k] == s[k];
    if Includes(lower, "error") { IncludesFirst(lower, "error"); }
    if Includes(lower, "invalid") { IncludesFirst(lower, "invalid"); }
    if Includes(lower, "n/a") { IncludesFirst(lower, "n/a"); }
  }

  /** The decimal rendering of a number carries none of the error markers. */
  lemma {:induction false} RenderingHasNoMarker(n: nat, neg: bool)
    ensures !HasErrorMarker(SignedRendering(n, neg))
  {
    var s := SignedRendering(n, neg);
    forall k | 0 <= k < |s| ensures s[k] == '-' || IsDecimalDigit(s[k]) {
      if neg {
        assert s[k] == '-' || s[k] == NatToString(n)[k - 1];
      }
    }
    NumericTextHasNoMarker(s);
  }

  /** A number sent as its decimal text normalises to the same temperature as the number itself. */
  lemma {:induction false} TemperatureTextAgreesWithNumber(n: nat, neg: bool)
    ensures NormalizeTemperature(Str(SignedRendering(n, neg)))
            == NormalizeTemperature(Num(if neg then -(n as real) else n as real))
  {
    RenderingHasNoMarker(n, neg);
    ParseFloatRendering(n, neg, "");
    assert SignedRendering(n, neg) + "" == SignedRendering(n, neg);
  }

  /** An error marker written in any letter case anywhere in the text makes the temperature `null`. */
  lemma {:induction false} MarkerInAnyCase(s: string, marker: string)
    requires ToLower(marker) in {"error", "invalid", "n/a"}
    requires Includes(s, marker)
    ensures HasErrorMarker(s)
    ensures NormalizeTemperature(Str(s)) == None
  {
    IncludesLower(s, marker);
  }

  /** An error marker after some text is still an error marker. */
  lemma {:induction false} MarkerAfterText(pre: string, s: string)
    requires HasErrorMarker(s)
    ensures HasErrorMarker(pre + s)
  {
    ToLowerAppend(pre, s);
    var lp, ls := ToLower(pre), ToLower(s);
    assert lp + ls + "" == lp + ls;
    if Includes(ls, "error") { IncludesExtend(lp, ls, "", "error"); }
    else if Includes(ls, "invalid") { IncludesExtend(lp, ls, "", "invalid"); }
    else { IncludesExtend(lp, ls, "", "n/a"); }
  }

  /**
   * The marker check runs before parsing: a number followed by a marker,
   * e.g. "101 error", is `null` although `parseFloat` reads the number.
   */
  lemma {:induction false} MarkerBeforeParsing(n: nat, rest: string)
    requires EndsNumber(rest) && HasErrorMarker(rest)
    ensures ParseFloat(NatToString(n) + rest) == Some(n as real)
    ensures NormalizeTemperature(Str(NatToString(n) + rest)) == None
  {
    ParseFloatRendering(n, false, rest);
    MarkerAfterText(NatToString(n), rest);
  }
}
