/** How backend/MaskrcnnGradAidAg.py grades potatoes:
    a two-way grade on weight, the
    `Price USD` column, and the final table with its 1-based `object_id`. */
module BackendClassifier {

  import opened Outcomes
  import opened ContourFeatures

  const MARKETABLE: string := "Marketable"
  const NOT_MARKETABLE: string := "Not Marketable"

  const MIN_MARKETABLE_OZ: real := 5.3
  const MAX_MARKETABLE_OZ: real := 28.2

  /** `assign_grade`: marketable inside [5.3, 28.2) ounces. */
  function AssignGrade(weightOz: real): (g: string)
    ensures g == MARKETABLE <==> MIN_MARKETABLE_OZ <= weightOz < MAX_MARKETABLE_OZ
    ensures g == MARKETABLE || g == NOT_MARKETABLE
  {
    if MIN_MARKETABLE_OZ <= weightOz < MAX_MARKETABLE_OZ then MARKETABLE else NOT_MARKETABLE
  }

  const MARKETABLE_PRICE_USD: real := 0.56
  const NOT_MARKETABLE_PRICE_USD: real := 0.008

  /** The nested `np.where` that fills `Price USD`; any other grade,
      including a missing one, gets NaN (None). */
  function PriceUsd(grade: Option<string>): (p: Option<real>)
    ensures grade == Some(MARKETABLE) ==> p == Some(MARKETABLE_PRICE_USD)
    ensures grade == Some(NOT_MARKETABLE) ==> p == Some(NOT_MARKETABLE_PRICE_USD)
    ensures p.Some? <==> grade == Some(MARKETABLE) || grade == Some(NOT_MARKETABLE)
  {
    if grade == Some(MARKETABLE) then Some(MARKETABLE_PRICE_USD)
    else if grade == Some(NOT_MARKETABLE) then Some(NOT_MARKETABLE_PRICE_USD)
    else None
  }

  /** One row of `combined_analysis_with_grades.csv`. */
  datatype GradedRow = GradedRow(
    objectId: nat,
    features: FeatureRow,
    measures: Derived,
    grade: Option<string>,
    priceUsd: Option<real>)

  /** Grade a row unless its weight is missing. */
  function GradeOf(weightOz: Option<real>): Option<string> {
    match weightOz
    case None => None
    case Some(w) => Some(AssignGrade(w))
  }

  function GradedRowAt(rows: seq<FeatureRow>, k: nat, powerLaw: real -> real): GradedRow
    requires k < |rows|
  {
    var m := DeriveMeasures(rows[k].dims, powerLaw);
    var g := GradeOf(m.weightOz);
    GradedRow(k + 1, rows[k], m, g, PriceUsd(g))
  }

  /** `finalize_data_and_save`: nothing is written when there is no row at
      all; otherwise rows are numbered from 1 under the index name
      `object_id`, graded and priced. */
  function FinalizeDataAndSave(frames: seq<FeatureColumns>, powerLaw: real -> real): (r: Option<seq<GradedRow>>)
    requires forall k :: 0 <= k < |frames| ==> WellFormed(frames[k])
    ensures r.None? <==> CombinedRows(frames) == []
    ensures r.Some? ==>
      var rows := CombinedRows(frames);
      && |r.value| == |rows|
      && forall k :: 0 <= k < |rows| ==>
           && r.value[k].objectId == k + 1
           && r.value[k].features == rows[k]
           && r.value[k].measures == DeriveMeasures(rows[k].dims, powerLaw)
           && (r.value[k].grade.None? <==> rows[k].dims.area <= 0.0)
           && (r.value[k].grade.Some? ==>
                 r.value[k].grade.value == AssignGrade(r.value[k].measures.weightOz.value))
           && r.value[k].priceUsd == PriceUsd(r.value[k].grade)
  {
    var rows := CombinedRows(frames);
    if rows == [] then None
    else Some(seq(|rows|, k requires 0 <= k < |rows| => GradedRowAt(rows, k, powerLaw)))
  }

  /** Run over images and then finalize: the CSV rows are the images' kept
      objects in order, the number drawn on each object is the `object_id`
      of its CSV row (drawn on that row's image, at that row's centre, for
      that row's mask), and since every kept object has an area of at least
      10 px, every row is graded and priced. */
  method ClassifyAll(images: seq<ImageInput>, powerLaw: real -> real)
    returns (drawnLabels: seq<DrawnLabel>, table: Option<seq<GradedRow>>)
    ensures table.None? <==> drawnLabels == []
    ensures table.Some? ==>
      && |table.value| == |drawnLabels| == |AllRows(images, |images|)|
      && forall k :: 0 <= k < |drawnLabels| ==>
           && table.value[k].features == AllRows(images, |images|)[k]
           && drawnLabels[k] == LabelFor(table.value[k].objectId, table.value[k].features)
           && table.value[k].grade.Some?
           && table.value[k].priceUsd.Some?
  {
    var run := ProcessAllImages(images);
    drawnLabels := run.drawnLabels;
    table := FinalizeDataAndSave(run.frames, powerLaw);
  }
}
