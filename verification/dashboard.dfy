/**
 * What the dashboard submits for assessment: the patient ids of each alert
 * list, in list order.
 */
module Dashboard {
  import opened Wrappers
  import opened Schema
  import opened RiskCalculation

  /** `list.map(p => p.patient_id)`. */
  function PatientIds(ps: seq<PatientWithRisk>): (ids: seq<string>)
    ensures |ids| == |ps|
    ensures forall i :: 0 <= i < |ps| ==> ids[i] == ps[i].patient.patientId
    decreases |ps|
  {
    if |ps| == 0 then [] else [ps[0].patient.patientId] + PatientIds(ps[1..])
  }

  /** The assessment built from the three alert lists. */
  function AssessmentOf(alerts: AlertLists): (r: AssessmentResults)
    ensures |r.highRiskPatients| == |alerts.highRisk|
            && forall i :: 0 <= i < |alerts.highRisk| ==> r.highRiskPatients[i] == alerts.highRisk[i].patient.patientId
    ensures |r.feverPatients| == |alerts.fever|
            && forall i :: 0 <= i < |alerts.fever| ==> r.feverPatients[i] == alerts.fever[i].patient.patientId
    ensures |r.dataQualityIssues| == |alerts.dataQuality|
            && forall i :: 0 <= i < |alerts.dataQuality| ==> r.dataQualityIssues[i] == alerts.dataQuality[i].patient.patientId
  {
    AssessmentResults(PatientIds(alerts.highRisk), PatientIds(alerts.fever), PatientIds(alerts.dataQuality))
  }

  /** An id is submitted as high-risk, fever or data-quality exactly when some patient of the batch with that id carries the flag. */
  lemma {:induction false} SubmittedIds(ps: seq<PatientWithRisk>, id: string)
    ensures var results := AssessmentOf(GenerateAlertLists(ps));
      && (id in results.highRiskPatients <==> exists p :: p in ps && p.isHighRisk && p.patient.patientId == id)
      && (id in results.feverPatients <==> exists p :: p in ps && p.hasFever && p.patient.patientId == id)
      && (id in results.dataQualityIssues <==> exists p :: p in ps && p.hasDataQualityIssues && p.patient.patientId == id)
  {
    var alerts := GenerateAlertLists(ps);
    IdInProjection(alerts.highRisk, id);
    IdInProjection(alerts.fever, id);
    IdInProjection(alerts.dataQuality, id);
  }

  /** An id is in the projection exactly when some patient of the list has it. */
  lemma {:induction false} IdInProjection(ps: seq<PatientWithRisk>, id: string)
    ensures id in PatientIds(ps) <==> exists p :: p in ps && p.patient.patientId == id
  {
    var ids := PatientIds(ps);
    if id in ids {
      var i :| 0 <= i < |ids| && ids[i] == id;
      assert ps[i] in ps;
    }
    if exists p :: p in ps && p.patient.patientId == id {
      var p :| p in ps && p.patient.patientId == id;
      var i :| 0 <= i < |ps| && ps[i] == p;
      assert ids[i] == id;
    }
  }
}
