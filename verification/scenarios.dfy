/** Whole-pipeline scenarios: a raw record normalised, scored and flagged. */
module Scenarios {
  import opened Wrappers
  import opened JsString
  import opened JsNumber
  import opened Schema
  import opened RiskCalculation

  lemma TempErrorIsNull()
    ensures NormalizeTemperature(Str("TEMP_ERROR")) == None
  {
    var t := "TEMP_ERROR";
    assert t[5..10] == "ERROR";
    OccursIncludes(t, "ERROR", 5);
    assert ToLower("ERROR") == "error";
    MarkerInAnyCase(t, "ERROR");
  }

  lemma AgeNotAvailableIsNull()
    ensures NormalizeAge(Str("N/A")) == None
  {
    NotANumber("N/A");
  }

  /** A record whose three measurements are all unusable scores 0 everywhere and is flagged for data quality only. */
  lemma UnusableRecord()
    ensures var raw := RawPatient(Str("P2"), Str("Bob"), Str("N/A"), Undefined, Null, Str("TEMP_ERROR"),
                                  Undefined, Undefined, Undefined);
      && NormalizePatient(raw)
         == Success(Patient("P2", "Bob", None, Unknown, None, None, Unknown, Unknown, Unknown))
      && var scored := ScorePatient(NormalizePatient(raw).value);
      && scored.riskScore == RiskScore(0, 0, 0, 0)
      && scored.hasDataQualityIssues && !scored.isHighRisk && !scored.hasFever
  {
    var p := Patient("P2", "Bob", None, Unknown, None, None, Unknown, Unknown, Unknown);
    assert NormalizePatient(RawPatient(Str("P2"), Str("Bob"), Str("N/A"), Undefined, Null, Str("TEMP_ERROR"),
                                       Undefined, Undefined, Undefined)) == Success(p) by {
      TempErrorIsNull();
      AgeNotAvailableIsNull();
    }
    assert BloodPressureRisk(p.bloodPressure) == 0;
  }

  lemma HighFeverText()
    ensures NormalizeTemperature(Str("102.3")) == Some(102.3)
  {
    HighFeverParses();
    HighFeverDigits();
    NumericTextHasNoMarker("102.3");
  }

  lemma HighFeverParses()
    ensures ParseFloat("102.3") == Some(102.3)
  {
    HighFeverDigits();
    ParseFloatDecimal("102.3", 3, 1);
  }

  lemma HighFeverDigits()
    ensures DigitsValue("102.3"[..3], false) == 102 && FractionValue("102.3"[4..5]) == 0.3
    ensures forall k :: 0 <= k < 5 ==> "102.3"[k] == '.' || IsDecimalDigit("102.3"[k])
    ensures "102.3"[3] == '.' && EndsNumber("102.3"[5..])
  {
    assert "102.3"[..3] == "102" == NatToString(102);
    assert "102.3"[4..5] == "3";
  }

  lemma StageTwoReading()
    ensures BloodPressureRisk(Some("145/95")) == 4
  {
    assert Renderings([145, 95]) == ["145", "95"] by {
      assert IntToString(145) == NatToString(145) == "145";
      assert IntToString(95) == NatToString(95) == "95";
    }
    assert Join(["145", "95"], '/') == "145/95";
    NumericReadingScore([145, 95]);
  }

  /** A negative systolic part still parses, so "-5/70" is scored as a normal reading. */
  lemma NegativeSystolicReading()
    ensures BloodPressureRisk(Some("-5/70")) == 1
  {
    assert Renderings([-5, 70]) == ["-5", "70"] by {
      assert IntToString(-5) == "-" + NatToString(5) == "-5";
      assert IntToString(70) == NatToString(70) == "70";
    }
    assert Join(["-5", "70"], '/') == "-5/70";
    NumericReadingScore([-5, 70]);
  }

  /** "1/2/3" scores 0 for blood pressure, yet it is not a data quality issue. */
  lemma ThreePartReading()
    ensures BloodPressureRisk(Some("1/2/3")) == 0
    ensures !IsMalformedReading(Some("1/2/3"))
  {
    assert Renderings([1, 2, 3]) == ["1", "2", "3"] by {
      assert IntToString(1) == "1" && IntToString(2) == "2" && IntToString(3) == "3";
    }
    assert Join(["1", "2", "3"], '/') == "1/2/3";
    NumericReadingScore([1, 2, 3]);
    NumericReadingIsWellFormed([1, 2, 3]);
  }

  /** A record in stage 2 hypertension with a high fever at 70 scores the maximum 8 and raises the high-risk and fever alerts. */
  lemma HighestRiskRecord()
    ensures var raw := RawPatient(Str("P1"), Str("Ann"), Num(70.0), Undefined, Str("145/95"), Str("102.3"),
                                  Undefined, Undefined, Undefined);
      && NormalizePatient(raw)
         == Success(Patient("P1", "Ann", Some(70.0), Unknown, Some("145/95"), Some(102.3), Unknown, Unknown, Unknown))
      && var scored := ScorePatient(NormalizePatient(raw).value);
      && scored.riskScore == RiskScore(4, 2, 2, 8)
      && scored.isHighRisk && scored.hasFever && !scored.hasDataQualityIssues
  {
    var p := Patient("P1", "Ann", Some(70.0), Unknown, Some("145/95"), Some(102.3), Unknown, Unknown, Unknown);
    assert NormalizePatient(RawPatient(Str("P1"), Str("Ann"), Num(70.0), Undefined, Str("145/95"), Str("102.3"),
                                       Undefined, Undefined, Undefined)) == Success(p) by {
      HighFeverText();
    }
    StageTwoReading();
    ScoredReadingIsWellFormed(Some("145/95"));
  }
}
