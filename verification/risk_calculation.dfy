/**
 * The risk scorer: three per-factor classifiers, the composite score, the
 * fever and data-quality flags, the scoring of a batch and the alert lists.
 */
module RiskCalculation {
  import opened Wrappers
  import opened JsString
  import opened JsNumber
  import opened Schema

  /** The blood pressure text is missing, blank, "N/A", or carries the "INVALID" marker. */
  predicate IsMissingReading(bp: Option<string>): (r: bool)
    // the separate test for exactly "INVALID" is subsumed by the `includes` test
    ensures r <==> bp.None? || bp.value == "" || bp.value == "N/A" || Includes(bp.value, "INVALID")
  {
    OccursIncludes("INVALID", "INVALID", 0);
    bp.None? || bp.value == "" || bp.value == "N/A" || bp.value == "INVALID" || Includes(bp.value, "INVALID")
  }

  /**
   * The staging cascade for a parsed reading, first match wins:
   * stage 2 hypertension 4, stage 1 hypertension 3, elevated 2, normal 1,
   * and 0 as the fallback.
   */
  function BloodPressureStage(systolic: int, diastolic: int): (r: int)
    ensures 1 <= r <= 4
  {
    if systolic >= 140 || diastolic >= 90 then 4
    else if (130 <= systolic <= 139) || (80 <= diastolic <= 89) then 3
    else if 120 <= systolic <= 129 && diastolic < 80 then 2
    else if systolic < 120 && diastolic < 80 then 1
    else 0
  }

  /** The category of the systolic value alone. */
  function SystolicCategory(systolic: int): int {
    if systolic >= 140 then 4 else if systolic >= 130 then 3 else if systolic >= 120 then 2 else 1
  }

  /** The category of the diastolic value alone (there is no "elevated" diastolic band). */
  function DiastolicCategory(diastolic: int): int {
    if diastolic >= 90 then 4 else if diastolic >= 80 then 3 else 1
  }

  function Max(a: int, b: int): int {
    if a >= b then a else b
  }

  /** The cascade equals the worse of the two separate categories. */
  lemma StageIsWorseCategory(systolic: int, diastolic: int)
    ensures BloodPressureStage(systolic, diastolic) == Max(SystolicCategory(systolic), DiastolicCategory(diastolic))
  {
  }

  /** A higher reading never lowers the stage. */
  lemma {:induction false} StageMonotone(s1: int, d1: int, s2: int, d2: int)
    requires s1 <= s2 && d1 <= d2
    ensures BloodPressureStage(s1, d1) <= BloodPressureStage(s2, d2)
  {
    StageIsWorseCategory(s1, d1);
    StageIsWorseCategory(s2, d2);
  }

  /**
   * `calculateBloodPressureRisk`: 0 for a missing or marked reading, for text
   * that does not split into exactly two parts on '/', or for a part that
   * does not parse as an integer; otherwise the stage of the reading.
   */
  function BloodPressureRisk(bp: Option<string>): (r: int)
    ensures 0 <= r <= 4
    ensures IsMissingReading(bp) ==> r == 0
    ensures !IsMissingReading(bp) && |Split(bp.value, '/')| != 2 ==> r == 0
    ensures r > 0 ==> bp.Some? && |Split(bp.value, '/')| == 2
                      && ParseInt(Split(bp.value, '/')[0]).Some? && ParseInt(Split(bp.value, '/')[1]).Some?
    ensures && !IsMissingReading(bp) && |Split(bp.value, '/')| == 2
            && ParseInt(Split(bp.value, '/')[0]).Some? && ParseInt(Split(bp.value, '/')[1]).Some?
            ==> r == BloodPressureStage(ParseInt(Split(bp.value, '/')[0]).value, ParseInt(Split(bp.value, '/')[1]).value)
  {
    EmptyPartIsNaN();
    if IsMissingReading(bp) then 0
    else
      var parts := Split(bp.value, '/');
      if |parts| != 2 then 0
      else
        var systolic := ParseInt(parts[0]);
        var diastolic := ParseInt(parts[1]);
        if systolic.None? || diastolic.None? then 0
        // The empty-part check is unreachable: `parseInt("")` is already NaN.
        else if parts[0] == "" || parts[1] == "" then 0
        else BloodPressureStage(systolic.value, diastolic.value)
  }

  /** `parseInt` of an empty part is `NaN`, so the check for empty parts never decides the score. */
  lemma EmptyPartIsNaN()
    ensures ParseInt("") == None
  {
    assert Unsigned("") == "";
  }

  /** The decimal texts of a list of integers. */
  function Renderings(values: seq<int>): (parts: seq<string>)
    ensures |parts| == |values|
    ensures forall k :: 0 <= k < |values| ==> parts[k] == IntToString(values[k])
    decreases |values|
  {
    if |values| == 0 then [] else [IntToString(values[0])] + Renderings(values[1..])
  }

  /**
   * Blood pressure text made of two or more integers joined by '/' scores the
   * stage of the reading when there are exactly two numbers and 0 otherwise
   * ("1/2/3" is such a case); a negative part ("-5/70") is read with its sign.
   */
  lemma {:induction false} NumericReadingScore(values: seq<int>)
    requires |values| >= 2
    ensures BloodPressureRisk(Some(Join(Renderings(values), '/')))
            == if |values| == 2 then BloodPressureStage(values[0], values[1]) else 0
  {
    JoinedReading(values);
    ReadingOfNumbers(Join(Renderings(values), '/'), Renderings(values), values);
  }

  /** Blood pressure text made of two or more integers joined by '/' passes the quality checks. */
  lemma {:induction false} NumericReadingIsWellFormed(values: seq<int>)
    requires |values| >= 2
    ensures !IsMalformedReading(Some(Join(Renderings(values), '/')))
  {
    JoinedReading(values);
    ReadingOfNumbers(Join(Renderings(values), '/'), Renderings(values), values);
  }

  /** Scoring and checking a reading whose '/'-separated parts all parse. */
  lemma {:induction false} ReadingOfNumbers(s: string, parts: seq<string>, values: seq<int>)
    requires |values| >= 2 && Split(s, '/') == parts && |parts| == |values|
    requires forall k :: 0 <= k < |values| ==> ParseInt(parts[k]) == Some(values[k])
    requires !IsMissingReading(Some(s)) && Includes(s, "/")
    ensures !IsMalformedReading(Some(s))
    ensures BloodPressureRisk(Some(s)) == if |values| == 2 then BloodPressureStage(values[0], values[1]) else 0
  {
    EmptyPartIsNaN();
    assert forall k :: 0 <= k < |parts| ==> !IsBadPart(parts[k]);
  }

  /** The facts about integers joined by '/' that the scorer and the quality check consult. */
  lemma {:induction false} JoinedReading(values: seq<int>)
    requires |values| >= 2
    ensures Split(Join(Renderings(values), '/'), '/') == Renderings(values)
    ensures forall k :: 0 <= k < |values| ==> ParseInt(Renderings(values)[k]) == Some(values[k])
    ensures !IsMissingReading(Some(Join(Renderings(values), '/')))
    ensures Includes(Join(Renderings(values), '/'), "/")
  {
    var parts := Renderings(values);
    var s := Join(parts, '/');
    forall k | 0 <= k < |parts| ensures '/' !in parts[k] {
      RenderingHasNoSlash(values[k]);
    }
    SplitJoin(parts, '/');
    forall k | 0 <= k < |parts| ensures ParseInt(parts[k]) == Some(values[k]) {
      ParseIntOfIntToString(values[k]);
    }
    JoinedNumbersNotMissing(parts);
    SplitParts(s, '/');
    CountedOccurs(s, '/');
    IncludesChar(s, '/');
  }

  /** An integer's text holds no '/'. */
  lemma {:induction false} RenderingHasNoSlash(v: int)
    ensures '/' !in IntToString(v)
  {
    var a := IntToString(v);
    assert forall k :: 0 <= k < |a| ==> a[k] != '/';
  }

  /** A character of an integer's text: a digit or the minus sign. */
  predicate IsNumberChar(c: char) {
    c == '-' || IsDecimalDigit(c)
  }

  /** Integers joined by '/' are neither blank, "N/A", nor marked "INVALID". */
  lemma {:induction false} JoinedNumbersNotMissing(parts: seq<string>)
    requires |parts| >= 1 && |parts[0]| >= 1
    requires forall k, j :: 0 <= k < |parts| && 0 <= j < |parts[k]| ==> IsNumberChar(parts[k][j])
    ensures !IsMissingReading(Some(Join(parts, '/')))
  {
    var s := Join(parts, '/');
    JoinedNumberChars(parts);
    assert s[0] == parts[0][0] by {
      if |parts| > 1 { assert s == parts[0] + ['/'] + Join(parts[1..], '/'); }
    }
    assert 'I' !in s;
    if Includes(s, "INVALID") { IncludesFirst(s, "INVALID"); }
  }

  /** Every character of integers joined by '/' is a digit, a minus sign or '/'. */
  lemma {:induction false} JoinedNumberChars(parts: seq<string>)
    requires forall k, j :: 0 <= k < |parts| && 0 <= j < |parts[k]| ==> IsNumberChar(parts[k][j])
    ensures forall i :: 0 <= i < |Join(parts, '/')| ==> Join(parts, '/')[i] == '/' || IsNumberChar(Join(parts, '/')[i])
    decreases |parts|
  {
    if |parts| > 1 {
      JoinedNumberChars(parts[1..]);
      var head, tail := parts[0], Join(parts[1..], '/');
      var s := Join(parts, '/');
      assert s == head + ['/'] + tail;
      forall i | 0 <= i < |s| ensures s[i] == '/' || IsNumberChar(s[i]) {
        if i < |head| { assert s[i] == head[i]; }
        else if i > |head| { assert s[i] == tail[i - |head| - 1]; }
      }
    }
  }

  /**
   * `calculateTemperatureRisk`: 0 for a missing value, 2 at or above 101.0,
   * 1 from 99.6 to 100.9, 0 at or below 99.5, and 0 as the fallback for
   * values in neither band.
   */
  function TemperatureRisk(t: Option<real>): (r: int)
    ensures 0 <= r <= 2
    ensures r == 2 <==> t.Some? && t.value >= 101.0
    ensures r == 1 <==> t.Some? && 99.6 <= t.value <= 100.9
  {
    if t.None? then 0
    else if t.value >= 101.0 then 2
    else if 99.6 <= t.value <= 100.9 then 1
    else if t.value <= 99.5 then 0
    else 0
  }

  /** The bands leave two gaps, (99.5, 99.6) and (100.9, 101.0), which score 0. */
  lemma TemperatureGaps(t: real)
    requires 99.5 < t < 99.6 || 100.9 < t < 101.0
    ensures TemperatureRisk(Some(t)) == 0
  {
  }

  /**
   * `calculateAgeRisk`: 0 for a missing age, 2 above 65, 1 from 40 to 65
   * and 1 below 40 (negative ages included); the fallback 0 is unreachable.
   */
  function AgeRisk(age: Option<real>): (r: int)
    ensures 0 <= r <= 2
    ensures r == 0 <==> age.None?
    ensures r == 2 <==> age.Some? && age.value > 65.0
  {
    if age.None? then 0
    else if age.value > 65.0 then 2
    else if 40.0 <= age.value <= 65.0 then 1
    else if age.value < 40.0 then 1
    else 0
  }

  /** `calculateRiskScore`: the three sub-scores and their sum. */
  function CalculateRiskScore(p: Patient): (r: RiskScore)
    ensures ValidRiskScore(r)
    ensures r.total == r.bloodPressure + r.temperature + r.age
    ensures r.bloodPressure == BloodPressureRisk(p.bloodPressure)
    ensures r.temperature == TemperatureRisk(p.temperature)
    ensures r.age == AgeRisk(p.age)
  {
    var bloodPressure := BloodPressureRisk(p.bloodPressure);
    var temperature := TemperatureRisk(p.temperature);
    var age := AgeRisk(p.age);
    RiskScore(bloodPressure, temperature, age, bloodPressure + temperature + age)
  }

  /**
   * `hasFever`: a present temperature of at least 99.6.  This repeats the
   * low-fever threshold on purpose instead of reading the temperature risk,
   * as the scorer does.
   */
  predicate HasFever(p: Patient): (r: bool)
    // the flag agrees with a positive temperature risk except in the gap (100.9, 101.0)
    ensures r <==> TemperatureRisk(p.temperature) >= 1
                   || (p.temperature.Some? && 100.9 < p.temperature.value < 101.0)
  {
    p.temperature.Some? && p.temperature.value >= 99.6
  }

  /** One part of a split reading that is empty or not an integer. */
  predicate IsBadPart(part: string) {
    part == "" || ParseInt(part).None?
  }

  /** The blood pressure half of `hasDataQualityIssues`. */
  predicate IsMalformedReading(bp: Option<string>): (r: bool)
    ensures IsMissingReading(bp) ==> r
    ensures bp.Some? && '/' !in bp.value ==> r
  {
    var text := if bp.Some? then bp.value else "";
    IncludesChar(text, '/');
    || bp.None? || bp.value == "" || bp.value == "N/A" || Includes(bp.value, "INVALID")
    || !Includes(bp.value, "/")
    || exists k :: 0 <= k < |Split(bp.value, '/')| && IsBadPart(Split(bp.value, '/')[k])
  }

  /**
   * `hasDataQualityIssues`: a malformed blood pressure reading, or a
   * missing temperature or age.  The reading checks repeat those of the
   * blood pressure risk on purpose, as the scorer does, but they do not
   * ask for exactly two parts.
   */
  predicate HasDataQualityIssues(p: Patient): (r: bool)
    ensures p.bloodPressure.None? || p.temperature.None? || p.age.None? ==> r
    ensures IsMissingReading(p.bloodPressure) ==> r
    ensures !r ==> p.temperature.Some? && p.age.Some? && AgeRisk(p.age) >= 1
  {
    IsMalformedReading(p.bloodPressure) || p.temperature.None? || p.age.None?
  }

  /** A reading that scores above 0 passes the blood pressure quality checks. */
  lemma {:induction false} ScoredReadingIsWellFormed(bp: Option<string>)
    ensures BloodPressureRisk(bp) > 0 ==> !IsMalformedReading(bp)
  {
    if BloodPressureRisk(bp) > 0 {
      TwoPartsThatParse(bp.value);
    }
  }

  /** A reading of two parts that both parse passes the blood pressure quality checks. */
  lemma {:induction false} TwoPartsThatParse(s: string)
    ensures && !IsMissingReading(Some(s)) && |Split(s, '/')| == 2
            && ParseInt(Split(s, '/')[0]).Some? && ParseInt(Split(s, '/')[1]).Some?
            ==> !IsMalformedReading(Some(s))
  {
    var parts := Split(s, '/');
    if !IsMissingReading(Some(s)) && |parts| == 2 && ParseInt(parts[0]).Some? && ParseInt(parts[1]).Some? {
      assert Includes(s, "/") by {
        SplitParts(s, '/');
        CountedOccurs(s, '/');
        IncludesChar(s, '/');
      }
      NoBadPart(parts);
    }
  }

  /** Two parts that both parse are not bad parts. */
  lemma {:induction false} NoBadPart(parts: seq<string>)
    requires |parts| == 2 && ParseInt(parts[0]).Some? && ParseInt(parts[1]).Some?
    ensures forall k :: 0 <= k < |parts| ==> !IsBadPart(parts[k])
  {
    assert !IsBadPart(parts[0]) && !IsBadPart(parts[1]) by {
      EmptyPartIsNaN();
    }
    forall k | 0 <= k < |parts| ensures !IsBadPart(parts[k]) {
      assert k == 0 || k == 1;
    }
  }

  /**
   * A record without data quality issues has a temperature, an age that
   * scores at least 1, and a reading that splits into at least two parts;
   * its blood pressure scores 0 only when it splits into three or more.
   */
  lemma {:induction false} CleanRecordScores(p: Patient)
    requires !HasDataQualityIssues(p)
    ensures p.temperature.Some? && AgeRisk(p.age) >= 1
    ensures p.bloodPressure.Some? && |Split(p.bloodPressure.value, '/')| >= 2
    ensures BloodPressureRisk(p.bloodPressure) == 0 ==> |Split(p.bloodPressure.value, '/')| >= 3
  {
    var s := p.bloodPressure.value;
    var parts := Split(s, '/');
    assert |parts| >= 2 by {
      IncludesChar(s, '/');
      SplitParts(s, '/');
      CountPositive(s, '/');
    }
    if |parts| == 2 {
      assert !IsBadPart(parts[0]) && !IsBadPart(parts[1]);
      assert !IsMissingReading(p.bloodPressure);
    }
  }

  /** A string that contains `c` counts it at least once. */
  lemma {:induction false} CountPositive(s: string, c: char)
    ensures c in s ==> Count(s, c) >= 1
    decreases |s|
  {
    if |s| > 0 && s[0] != c {
      CountPositive(s[1..], c);
      assert c in s ==> c in s[1..];
    }
  }

  /** The scored record: `calculateRiskScores` applied to one patient. */
  function ScorePatient(p: Patient): (r: PatientWithRisk)
    ensures r.patient == p
    ensures ValidRiskScore(r.riskScore)
    ensures r.isHighRisk <==> r.riskScore.total >= 4
    ensures r.riskScore == CalculateRiskScore(p)
    ensures r.hasFever == HasFever(p) && r.hasDataQualityIssues == HasDataQualityIssues(p)
  {
    var riskScore := CalculateRiskScore(p);
    PatientWithRisk(p, riskScore, HasDataQualityIssues(p), HasFever(p), riskScore.total >= 4)
  }

  /** `calculateRiskScores`: score every patient, keeping length, order and the patient fields. */
  function CalculateRiskScores(ps: seq<Patient>): (r: seq<PatientWithRisk>)
    ensures |r| == |ps|
    ensures forall i :: 0 <= i < |ps| ==> r[i].patient == ps[i] && ValidRiskScore(r[i].riskScore)
    ensures forall i :: 0 <= i < |ps| ==> r[i] == ScorePatient(ps[i])
    decreases |ps|
  {
    if |ps| == 0 then [] else [ScorePatient(ps[0])] + CalculateRiskScores(ps[1..])
  }

  /** The three alert categories. */
  datatype Alert = HighRisk | Fever | DataQuality

  /** The flag of a scored patient that puts it on the list of `alert`. */
  predicate Flagged(p: PatientWithRisk, alert: Alert) {
    match alert
    case HighRisk => p.isHighRisk
    case Fever => p.hasFever
    case DataQuality => p.hasDataQualityIssues
  }

  /** `patients.filter(...)` on the flag of `alert`. */
  function Filter(ps: seq<PatientWithRisk>, alert: Alert): (r: seq<PatientWithRisk>)
    ensures |r| <= |ps|
    ensures forall i :: 0 <= i < |r| ==> Flagged(r[i], alert)
    decreases |ps|
  {
    if |ps| == 0 then []
    else if Flagged(ps[0], alert) then [ps[0]] + Filter(ps[1..], alert)
    else Filter(ps[1..], alert)
  }

  /** `t` is `s` with some elements left out, the rest in their original order. */
  ghost predicate IsSubsequence<T>(t: seq<T>, s: seq<T>)
    decreases |s|
  {
    |t| == 0 || (|s| > 0 && ((t[0] == s[0] && IsSubsequence(t[1..], s[1..])) || IsSubsequence(t, s[1..])))
  }

  /** The number of patients in `ps` that carry the flag of `alert`. */
  function CountFlagged(ps: seq<PatientWithRisk>, alert: Alert): nat
    decreases |ps|
  {
    if |ps| == 0 then 0 else (if Flagged(ps[0], alert) then 1 else 0) + CountFlagged(ps[1..], alert)
  }

  /**
   * An alert list is an order-preserving subsequence of the batch, holds
   * every flagged patient and no other, and has one entry per flagged
   * patient.
   */
  lemma {:induction false} FilterIsFlaggedSubsequence(ps: seq<PatientWithRisk>, alert: Alert)
    ensures IsSubsequence(Filter(ps, alert), ps)
    ensures |Filter(ps, alert)| == CountFlagged(ps, alert)
    ensures forall p :: p in Filter(ps, alert) <==> p in ps && Flagged(p, alert)
    decreases |ps|
  {
    if |ps| > 0 {
      FilterIsFlaggedSubsequence(ps[1..], alert);
      var rest := Filter(ps[1..], alert);
      assert ps == [ps[0]] + ps[1..];
      if Flagged(ps[0], alert) {
        var r := Filter(ps, alert);
        assert r[0] == ps[0] && r[1..] == rest;
      } else {
        SubsequenceSkip(rest, ps);
      }
    }
  }

  /** A subsequence of the tail is a subsequence of the whole. */
  lemma SubsequenceSkip<T>(t: seq<T>, s: seq<T>)
    requires |s| > 0 && IsSubsequence(t, s[1..])
    ensures IsSubsequence(t, s)
  {
  }

  /** Filtering a concatenation filters each half in turn: the order of the batch is kept. */
  lemma {:induction false} FilterAppend(a: seq<PatientWithRisk>, b: seq<PatientWithRisk>, alert: Alert)
    ensures Filter(a + b, alert) == Filter(a, alert) + Filter(b, alert)
    decreases |a|
  {
    if |a| > 0 {
      FilterAppend(a[1..], b, alert);
      assert (a + b)[1..] == a[1..] + b;
      assert (a + b)[0] == a[0];
    } else {
      assert a + b == b;
    }
  }

  /** The three alert lists of a scored batch. */
  datatype AlertLists = AlertLists(
    highRisk: seq<PatientWithRisk>, fever: seq<PatientWithRisk>, dataQuality: seq<PatientWithRisk>)

  /**
   * `generateAlertLists`: one filtered view of the batch per flag.  A
   * patient may be on several lists; each list is no longer than the batch.
   */
  function GenerateAlertLists(ps: seq<PatientWithRisk>): (r: AlertLists)
    ensures |r.highRisk| <= |ps| && |r.fever| <= |ps| && |r.dataQuality| <= |ps|
    ensures forall p :: p in r.highRisk <==> p in ps && p.isHighRisk
    ensures forall p :: p in r.fever <==> p in ps && p.hasFever
    ensures forall p :: p in r.dataQuality <==> p in ps && p.hasDataQualityIssues
    // each list keeps the batch's order and holds each flagged patient once per occurrence
    ensures IsSubsequence(r.highRisk, ps) && |r.highRisk| == CountFlagged(ps, HighRisk)
    ensures IsSubsequence(r.fever, ps) && |r.fever| == CountFlagged(ps, Fever)
    ensures IsSubsequence(r.dataQuality, ps) && |r.dataQuality| == CountFlagged(ps, DataQuality)
  {
    FilterIsFlaggedSubsequence(ps, HighRisk);
    FilterIsFlaggedSubsequence(ps, Fever);
    FilterIsFlaggedSubsequence(ps, DataQuality);
    AlertLists(Filter(ps, HighRisk), Filter(ps, Fever), Filter(ps, DataQuality))
  }
}
