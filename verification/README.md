# Patient risk scoring — a Dafny model

The dashboard loads patient records from an external API whose field types
are unreliable. Each record goes through a schema that normalises it. A
number may arrive as text, a value may be missing, and a temperature may
carry an error marker. A scorer then grades every normalised patient on
three factors, each with its own bands:

- blood pressure: 0 to 4, from a "systolic/diastolic" reading;
- temperature: 0 to 2, in degrees Fahrenheit;
- age: 0 to 2.

The total of the three scores drives the high-risk flag (total >= 4). The
scorer also raises a fever flag and a data-quality flag. It collects the
flagged patients into three alert lists, and the dashboard submits the ids
from those lists as the assessment.

The model has seven modules:

- `Wrappers`: the `Option` and `Result` types.
- `JsString`: the JavaScript string operations the core relies on. These
  are `includes`, ASCII `toLowerCase`, the leading-whitespace skip of the
  number parsers, and `split` on one character. The module also has `Join`,
  used as the inverse of `split`.
- `JsNumber`: `parseInt` (radix 10, with the `0x` prefix switching to hex)
  and `parseFloat`. Both follow the ECMAScript grammar, and `None` stands
  for `NaN`. The module also defines the decimal rendering of a number, the
  text that both parsers read back.
- `Schema`: the patient record and its normaliser. The raw input is a tagged
  `RawValue` per field (number, text, null, absent). Normalisation returns
  `Success(patient)`, or a `Failure` that lists the rejected fields (one
  `Field` value each) when the schema rejects a field of the wrong type.
- `RiskCalculation`: the three per-factor scores, the composite score, the
  fever and data-quality flags, the scoring of a batch and the alert lists.
- `Dashboard`: the projection of the alert lists onto patient ids.
- `Scenarios`: concrete records and readings worked through end to end.

All of the core is pure computation, so the model is functions and lemmas
over values. Numbers are Dafny `real`s, and integers are unbounded.

Behaviour of the code worth noting:

- The schema does not accept every input. A wrong-typed id or name is
  rejected. So is a numeric blood pressure, or a number where text is
  expected in gender, visit date, diagnosis or medications.
  `NormalizePatient` returns those rejections as a `Failure`.
- A negative age is kept as it is and scores 1 (the "under 40" band). It is
  not treated as missing.
- The temperature bands leave gaps. A temperature strictly between 99.5 and
  99.6 scores 0, and so does one strictly between 100.9 and 101.0. A
  temperature of 100.95 therefore sets the fever flag but scores 0 for
  temperature. `TemperatureGaps` and `HasFever` state this.
- A reading with three or more '/'-separated numbers (such as "1/2/3")
  scores 0 for blood pressure. It is still not a data-quality issue, because
  that check does not ask for exactly two parts.
- A part with a minus sign still parses. "-5/70" therefore scores 1 for
  blood pressure, because -5 is below 120 and 70 is below 80.

## Model

| member | source | states |
|---|---|---|
| Schema.NormalizeAge | shared/schema.ts:7-15 | null, absent and "" give null; a number is kept; text gives its `parseFloat` value, or null when that is NaN |
| Schema.AgeTextAgreesWithNumber | shared/schema.ts:9-13 | the decimal text of a whole number (signed or not) normalises to that same number as an age |
| Schema.NormalizeBloodPressure | shared/schema.ts:17-20 | fails exactly for a number; null, absent and "" give null; any other text is kept unchanged |
| Schema.NormalizeTemperature | shared/schema.ts:21-35 | null, absent and "" give null; a number is kept; text with an error marker gives null; other text gives its `parseFloat` value or null |
| Schema.MarkerInAnyCase | shared/schema.ts:26-32 | text containing "error", "invalid" or "n/a" in any letter case is recognised as marked and normalises to null |
| Schema.MarkerAfterText | shared/schema.ts:26-28 | a marker after any prefix still marks the text |
| Schema.MarkerBeforeParsing | shared/schema.ts:26-32 | the marker check comes before parsing: text that `parseFloat` reads as the number n is still null when a marker follows the number |
| Schema.NumericTextHasNoMarker | shared/schema.ts:26-28 | text made only of digits, minus signs and points carries no marker |
| Schema.RenderingHasNoMarker | shared/schema.ts:26-28 | the decimal text of a whole number carries no marker |
| Schema.TemperatureTextAgreesWithNumber | shared/schema.ts:23-32 | the decimal text of a whole number normalises to that number as a temperature, the same as the number itself |
| Schema.RequireText | shared/schema.ts:5-6 | a required text field is admitted exactly when it is text, and is kept unchanged |
| Schema.DefaultText | shared/schema.ts:36-38 | an absent text field becomes "Unknown"; text is kept; null or a number is rejected |
| Schema.ValidRiskScore | shared/schema.ts:61-66 | for a score whose total is the sum of its parts, the bounds hold exactly when blood pressure is 0 to 4, temperature 0 to 2 and age 0 to 2; the total's own bound then adds nothing |
| Schema.RejectedFields | shared/schema.ts:4-39 | a field is listed exactly when the schema does not admit it, and at most all seven fields are listed |
| Schema.Rejected | shared/schema.ts:4-39 | a field is kept exactly when it is among the fields checked and is not admitted |
| Schema.EveryFieldChecked | shared/schema.ts:4-39 | the seven fields checked are every field the schema can reject (age and temperature are never rejected) |
| Schema.NothingRejected | shared/schema.ts:4-39 | no field is rejected exactly when id and name are text, the blood pressure is not a number, and gender, visit date, diagnosis and medications are text or absent |
| Schema.NormalizePatient | shared/schema.ts:4-39 | succeeds exactly when no field is rejected; a failure lists exactly the rejected fields, at least one; on success each of the nine fields is its own field's normalisation (id, name, age, gender, reading, temperature, visit date, diagnosis, medications) |
| RiskCalculation.BloodPressureStage | client/src/utils/riskCalculation.ts:25-45 | the staging cascade always gives a stage from 1 to 4; its fallback 0 is unreachable |
| RiskCalculation.StageIsWorseCategory | client/src/utils/riskCalculation.ts:25-45 | the cascade equals the worse of the systolic category and the diastolic category |
| RiskCalculation.StageMonotone | client/src/utils/riskCalculation.ts:25-45 | raising either value never lowers the stage |
| RiskCalculation.IsMissingReading | client/src/utils/riskCalculation.ts:4-6 | a reading counts as missing exactly when it is null, "", "N/A" or contains "INVALID" |
| RiskCalculation.BloodPressureRisk | client/src/utils/riskCalculation.ts:3-46 | the score is 0 to 4; it is 0 for a missing or "INVALID" reading and for text that does not split into two parts; a positive score means both parts parse; when a reading that is not missing (not null, "", "N/A", and without "INVALID") splits into two parts that both parse, the score is the stage of the two parsed integers, negative ones included |
| RiskCalculation.EmptyPartIsNaN | client/src/utils/riskCalculation.ts:13-23 | `parseInt("")` is NaN, so the empty-part check never changes the score |
| RiskCalculation.NumericReadingScore | client/src/utils/riskCalculation.ts:3-46 | two integers (negative ones included) joined by '/' score the stage of that reading; three or more integers score 0 |
| RiskCalculation.NumericReadingIsWellFormed | client/src/utils/riskCalculation.ts:106-114 | integers joined by '/' never raise the blood-pressure data-quality flag |
| RiskCalculation.ReadingOfNumbers | client/src/utils/riskCalculation.ts:8-23 | a reading that is not missing (not null, "", "N/A", and without "INVALID"), contains a '/', and whose '/'-separated parts all parse to integers, negative ones included, is well formed, and scores the stage of those integers exactly when there are two parts (0 otherwise) |
| RiskCalculation.JoinedReading | client/src/utils/riskCalculation.ts:8-14 | integers joined by '/' split back into their texts, each part parses back to its integer, and the text has a '/' and no missing marker |
| RiskCalculation.RenderingHasNoSlash | client/src/utils/riskCalculation.ts:8 | an integer's text holds no '/', so it stays one part under `split` |
| RiskCalculation.JoinedNumbersNotMissing | client/src/utils/riskCalculation.ts:4-6 | integers joined by '/' are not blank, not "N/A" and do not contain "INVALID" |
| RiskCalculation.JoinedNumberChars | client/src/utils/riskCalculation.ts:4 | every character of integers joined by '/' is a digit, a minus sign or '/' |
| RiskCalculation.TemperatureRisk | client/src/utils/riskCalculation.ts:48-69 | the score is 0 to 2; it is 2 exactly at or above 101.0 and 1 exactly from 99.6 to 100.9 |
| RiskCalculation.TemperatureGaps | client/src/utils/riskCalculation.ts:58-68 | values strictly between 99.5 and 99.6, or strictly between 100.9 and 101.0, fall through to 0 |
| RiskCalculation.AgeRisk | client/src/utils/riskCalculation.ts:71-91 | the score is 0 to 2; it is 0 exactly for a missing age and 2 exactly above 65, so every other age (negative included) scores 1 |
| RiskCalculation.CalculateRiskScore | client/src/utils/riskCalculation.ts:93-104 | each part is the score of its factor, each is within its bounds, and the total is their sum, from 0 to 8 |
| RiskCalculation.HasFever | client/src/utils/riskCalculation.ts:133-138 | fever holds exactly when the temperature scores at least 1, or lies strictly between 100.9 and 101.0 where it scores 0 |
| RiskCalculation.IsMalformedReading | client/src/utils/riskCalculation.ts:106-114 | a missing reading, and a reading without any '/', is malformed |
| RiskCalculation.HasDataQualityIssues | client/src/utils/riskCalculation.ts:106-131 | a record without a reading, a temperature or an age, or with a missing reading, is flagged; an unflagged record has a temperature and an age scoring at least 1 |
| RiskCalculation.ScoredReadingIsWellFormed | client/src/utils/riskCalculation.ts:106-114 | a reading that scores above 0 never raises the blood-pressure data-quality flag |
| RiskCalculation.CleanRecordScores | client/src/utils/riskCalculation.ts:106-131 | a record with no data-quality issue has a temperature, scores at least 1 for age, and has a reading of two or more parts that scores 0 only when it has three or more |
| RiskCalculation.TwoPartsThatParse | client/src/utils/riskCalculation.ts:106-114 | a reading that is not missing and splits into two parts that both parse passes the blood-pressure quality check |
| RiskCalculation.CountPositive | client/src/utils/riskCalculation.ts:111-112 | a character that occurs in the text is counted at least once |
| RiskCalculation.ScorePatient | client/src/utils/riskCalculation.ts:141-150 | the scored record keeps the patient, carries a valid score, and is high-risk exactly when the total is at least 4 |
| RiskCalculation.CalculateRiskScores | client/src/utils/riskCalculation.ts:140-152 | the batch keeps its length and order; entry i scores patient i |
| RiskCalculation.Filter | client/src/utils/riskCalculation.ts:154-160 | the result is no longer than the input and every entry in it carries the flag |
| RiskCalculation.FilterIsFlaggedSubsequence | client/src/utils/riskCalculation.ts:154-160 | the filtered list is a subsequence of the input with one entry per flagged record, and a record is in it exactly when it is in the input and flagged |
| RiskCalculation.FilterAppend | client/src/utils/riskCalculation.ts:154-160 | filtering distributes over concatenation of batches |
| RiskCalculation.GenerateAlertLists | client/src/utils/riskCalculation.ts:154-160 | each list holds exactly the batch's records with its flag, in the batch's order (a subsequence of it), with one entry per flagged record |
| Dashboard.AssessmentOf | client/src/pages/dashboard.tsx:62-66 | each of the three submitted lists has one id per alert of its list, in order: entry i is the id of the i-th alerted record |
| Dashboard.PatientIds | client/src/pages/dashboard.tsx:62-66 | the projection keeps length and order; entry i is the id of record i |
| Dashboard.IdInProjection | client/src/pages/dashboard.tsx:63-65 | an id is in the projection exactly when some record of the list has it |
| Dashboard.SubmittedIds | client/src/pages/dashboard.tsx:62-66 | an id is submitted in each list exactly when some record of the batch with that id carries that list's flag |
| JsNumber.ParseInt | client/src/utils/riskCalculation.ts:13-14 | a result needs a decimal digit after whitespace and sign; such text without a hex prefix always parses; the sign of the result follows the sign in the text |
| JsNumber.ParseIntRendering | client/src/utils/riskCalculation.ts:13-14 | `parseInt` reads the signed decimal text of a whole number back as that number when the text after it cannot continue a number (no digit, '.', 'e', 'E', 'x' or 'X' follows) |
| JsNumber.IntToString | client/src/utils/riskCalculation.ts:13-14 | the text of an integer is non-empty and made of digits and a minus sign |
| JsNumber.ParseIntOfIntToString | client/src/utils/riskCalculation.ts:13-14 | `parseInt` reads every integer back from its text |
| JsNumber.ParseFloat | shared/schema.ts:11-12 | a result needs a digit or '.' after whitespace and sign; a leading digit always parses; the sign of the result follows the sign in the text |
| JsNumber.ParseFloatRendering | shared/schema.ts:31-32 | `parseFloat` reads the signed decimal text of a whole number back as that number when the text after it cannot continue a number (no digit, '.', 'e', 'E', 'x' or 'X' follows) |
| JsNumber.ParseFloatDecimal | shared/schema.ts:31-32 | text of the form digits '.' digits followed by a non-number character parses to the integer part plus the fraction |
| JsNumber.NotANumber | shared/schema.ts:11-12 | text starting with anything but white space, a sign, a point or a digit (such as "N/A") is NaN for both of the model's parsers (see "## Left out" on "Infinity") |
| JsNumber.NatToString | client/src/utils/riskCalculation.ts:13-14 | the rendering of n is a non-empty run of decimal digits whose value is n |
| JsNumber.DigitRunAt | client/src/utils/riskCalculation.ts:13-14 | the digit run ends at the first non-digit |
| JsString.IncludesIff | client/src/utils/riskCalculation.ts:4 | `includes` holds exactly when the substring occurs at some position |
| JsString.IncludesChar | client/src/utils/riskCalculation.ts:111 | `includes` of a one-character string means that character occurs |
| JsString.IncludesLower | shared/schema.ts:26-28 | lowering both texts keeps an occurrence |
| JsString.IncludesExtend | shared/schema.ts:26-28 | an occurrence survives text added before or after |
| JsString.ToLower | shared/schema.ts:26-28 | lowering keeps length and lowers each character |
| JsString.TrimStart | shared/schema.ts:11 | the leading whitespace skipped is whitespace, and what remains starts with a non-whitespace character |
| JsString.Split | client/src/utils/riskCalculation.ts:8 | `split` always yields at least one part |
| JsString.JoinSplit | client/src/utils/riskCalculation.ts:8 | joining the parts with the separator gives the text back |
| JsString.SplitJoin | client/src/utils/riskCalculation.ts:8 | splitting parts joined by a separator they do not contain gives the parts back |
| JsString.SplitParts | client/src/utils/riskCalculation.ts:8-9 | no part holds the separator, and there is one more part than separators |
| JsString.CountedOccurs | client/src/utils/riskCalculation.ts:111 | a character counted at least once occurs in the text |
| JsString.SplitAround | client/src/utils/riskCalculation.ts:8 | the first separator ends the first part |
| Scenarios.TempErrorIsNull | shared/schema.ts:26-29 | "TEMP_ERROR" normalises to a null temperature |
| Scenarios.AgeNotAvailableIsNull | shared/schema.ts:10-12 | "N/A" normalises to a null age |
| Scenarios.HighFeverText | shared/schema.ts:31-32 | "102.3" normalises to the temperature 102.3 |
| Scenarios.StageTwoReading | client/src/utils/riskCalculation.ts:25-28 | "145/95" scores 4 |
| Scenarios.NegativeSystolicReading | client/src/utils/riskCalculation.ts:13-45 | "-5/70" parses to -5 and 70 and scores 1, the normal band |
| Scenarios.ThreePartReading | client/src/utils/riskCalculation.ts:9-11 | "1/2/3" scores 0 and still passes the blood-pressure quality check |
| Scenarios.UnusableRecord | client/src/utils/riskCalculation.ts:93-150 | a record with no reading, temperature "TEMP_ERROR" and age "N/A" scores 0 everywhere, is a data-quality issue and carries no other flag |
| Scenarios.HighestRiskRecord | client/src/utils/riskCalculation.ts:93-150 | a record with a stage-2 reading, a high fever and an age over 65 scores 4, 2, 2 and 8, and is high-risk and feverish without a quality issue |

## Left out

- The HTTP layer is not part of this model: paging through the API, retries on rate limits and server errors, the proxy routes, storage and the client API wrappers.
- The React dashboard is not part of this model, apart from the id projection done when an assessment is submitted.
- The pagination, metadata and assessment-submission schemas are not part of this model; the assessment result is a plain record of three id lists.
- Schema.NormalizePatient: a rejection lists only the offending fields, not the validation library's full error report.
- server/routes.ts is not part of this model. Its handlers (server/routes.ts:53 and :80) validate a whole page of records with one `parse` that throws when any record is rejected, so one bad record fails the whole page and nothing on it is scored. The model normalises and scores one record at a time, and a rejection is a per-record `Failure`.
- Numbers are exact reals: IEEE double rounding, infinities, `-0` and `NaN` as a numeric input are not modelled. JSON cannot carry `NaN`, so the `isNaN` checks on numbers already normalised never fire in the model.
- JsNumber.ParseFloat: the text "Infinity" (signed or not) gives `None` rather than an infinite value, because the model has no infinities.
- JsNumber.ParseInt: precision loss above 2^53 is not modelled; values are exact integers.
- JsString.ToLower: lowers ASCII letters only. The three markers are ASCII, so whether a text contains one in any case does not depend on lowering other characters.
- RiskCalculation.HasDataQualityIssues: the `typeof ... === 'string'` tests are left out, because after normalisation temperature and age are never text.
- Idempotence of normalisation is not stated: the output type (numbers, text and nulls) differs from the raw input type, and no operation normalises twice.
