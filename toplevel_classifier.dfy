/** How the top-level MaskrcnnGradAidAg.py grades potatoes.
    Its measurement and row numbering are the ones in
    ContourFeatures; it grades on six weight buckets and adds no price. */
module TopLevelClassifier {

  import opened Outcomes
  import opened ContourFeatures
  import BackendClassifier

  const NOT_MARKETABLE: string := "Not Marketable"
  const MEDIUM: string := "Medium"
  const LARGE_1: string := "Large 1"
  const LARGE_2: string := "Large 2"
  const EXTRA_LARGE: string := "Extra Large"

  /** `assign_grade`: the first bound the weight is below picks the label;
      below 5.3 oz and from 28.2 oz up the potato is not marketable. */
  function AssignGrade(weightOz: real): (g: string)
    ensures g == NOT_MARKETABLE <==> (weightOz < 5.3 || weightOz >= 28.2)
    ensures g == MEDIUM <==> 5.3 <= weightOz < 10.6
    ensures g == LARGE_1 <==> 10.6 <= weightOz < 15.9
    ensures g == LARGE_2 <==> 15.9 <= weightOz < 21.2
    ensures g == EXTRA_LARGE <==> 21.2 <= weightOz < 28.2
  {
    if weightOz < 1.5 then NOT_MARKETABLE
    else if weightOz < 3.0 then NOT_MARKETABLE
    else if weightOz < 5.3 then NOT_MARKETABLE
    else if weightOz < 10.6 then MEDIUM
    else if weightOz < 15.9 then LARGE_1
    else if weightOz < 21.2 then LARGE_2
    else if weightOz < 28.2 then EXTRA_LARGE
    else NOT_MARKETABLE
  }

  /** The two scripts agree on what is sellable: a weight gets one of the
      four size labels here exactly when the back end calls it "Marketable",
      and "Not Marketable" in both otherwise. */
  lemma AgreesWithBackend(weightOz: real)
    ensures AssignGrade(weightOz) != NOT_MARKETABLE
            <==> BackendClassifier.AssignGrade(weightOz) == BackendClassifier.MARKETABLE
    ensures AssignGrade(weightOz) == NOT_MARKETABLE
            <==> BackendClassifier.AssignGrade(weightOz) == BackendClassifier.NOT_MARKETABLE
  {
  }

  /** No label of this script is the back end's "Marketable", so pricing or
      counting by that label finds nothing in this script's output. */
  lemma NeverMarketable(weightOz: real)
    ensures AssignGrade(weightOz) in {NOT_MARKETABLE, MEDIUM, LARGE_1, LARGE_2, EXTRA_LARGE}
    ensures AssignGrade(weightOz) != BackendClassifier.MARKETABLE
  {
  }

  /** One row of this script's `combined_analysis_with_grades.csv`. */
  datatype GradedRow = GradedRow(
    objectId: nat,
    features: FeatureRow,
    measures: Derived,
    grade: Option<string>)

  function GradedRowAt(rows: seq<FeatureRow>, k: nat, powerLaw: real -> real): GradedRow
    requires k < |rows|
  {
    var m := DeriveMeasures(rows[k].dims, powerLaw);
    GradedRow(k + 1, rows[k], m, if m.weightOz.Some? then Some(AssignGrade(m.weightOz.value)) else None)
  }

  /** `finalize_data_and_save` of this script: as in the back end, but the
      grade comes from the six buckets and there is no price column. */
  function FinalizeDataAndSave(frames: seq<FeatureColumns>, powerLaw: real -> real): (r: Option<seq<GradedRow>>)
    requires forall k :: 0 <= k < |frames| ==> WellFormed(frames[k])
    ensures r.None? <==> CombinedRows(frames) == []
    ensures r.Some? ==>
      var rows := CombinedRows(frames);
      && |r.value| == |rows|
      && forall k :: 0 <= k < |rows| ==>
           && r.value[k].objectId == k + 1
           && r.value[k].features == rows[k]
           && r.value[k].measures == DeriveMeasures(rows[k].dims, powerLaw)
           && (r.value[k].grade.None? <==> rows[k].dims.area <= 0.0)
           && (r.value[k].grade.Some? ==>
                 r.value[k].grade.value == AssignGrade(r.value[k].measures.weightOz.value))
  {
    var rows := CombinedRows(frames);
    if rows == [] then None
    else Some(seq(|rows|, k requires 0 <= k < |rows| => GradedRowAt(rows, k, powerLaw)))
  }

  /** Both scripts number, measure and keep the same rows; a row is
      "Not Marketable" in one exactly when it is in the other. */
  lemma {:induction false} SameRowsAsBackend(frames: seq<FeatureColumns>, powerLaw: real -> real)
    requires forall k :: 0 <= k < |frames| ==> WellFormed(frames[k])
    ensures var top := FinalizeDataAndSave(frames, powerLaw);
      var back := BackendClassifier.FinalizeDataAndSave(frames, powerLaw);
      && top.Some? == back.Some?
      && (top.Some? ==>
            && |top.value| == |back.value|
            && forall k :: 0 <= k < |top.value| ==>
                 && top.value[k].objectId == back.value[k].objectId
                 && top.value[k].features == back.value[k].features
                 && top.value[k].measures == back.value[k].measures
                 && (top.value[k].grade == Some(NOT_MARKETABLE)
                     <==> back.value[k].grade == Some(BackendClassifier.NOT_MARKETABLE)))
  {
    var top := FinalizeDataAndSave(frames, powerLaw);
    var back := BackendClassifier.FinalizeDataAndSave(frames, powerLaw);
    if top.Some? {
      forall k | 0 <= k < |top.value|
        ensures top.value[k].grade == Some(NOT_MARKETABLE)
                <==> back.value[k].grade == Some(BackendClassifier.NOT_MARKETABLE)
      {
        var w := top.value[k].measures.weightOz;
        if w.Some? {
          AgreesWithBackend(w.value);
        }
      }
    }
  }
}
