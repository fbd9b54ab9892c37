/** backend/user_analysis_service.py: the `user_analysis` table, one row per
    graded object. The rows read back have the shape the front end receives
    (UserAnalysis.AnalysisRecord). */
module AnalysisService {

  import opened Tables
  import opened Database
  import opened UserAnalysis

  /** `WHERE user_id = ?` */
  function OfUser(userId: int): Row<AnalysisFields> -> bool {
    (r: Row<AnalysisFields>) => r.value.userId == userId
  }

  /** The 19 selected columns of one row, `object_id` first. */
  function AsRecord(row: Row<AnalysisFields>): AnalysisRecord {
    var f := row.value;
    AnalysisRecord(row.id, f.imageName, f.objectIdInImage, f.areaPx2, f.topLeftX, f.topLeftY,
                   f.bottomRightX, f.bottomRightY, f.center, f.widthPx, f.lengthPx, f.volumePx3,
                   f.solidity, f.strictSolidity, f.lwRatio, f.areaIn2, f.weightOz, f.grade, f.userId)
  }

  /** A record read back carries the id and every one of the stored fields. */
  lemma AsRecordKeepsFields(row: Row<AnalysisFields>)
    ensures var a := AsRecord(row);
      && a.objectId == row.id
      && AnalysisFields(a.imageName, a.objectIdInImage, a.areaPx2, a.topLeftX, a.topLeftY,
                        a.bottomRightX, a.bottomRightY, a.center, a.widthPx, a.lengthPx, a.volumePx3,
                        a.solidity, a.strictSolidity, a.lwRatio, a.areaIn2, a.weightOz, a.grade, a.userId)
         == row.value
  {
  }

  function AsRecords(rows: seq<Row<AnalysisFields>>): (r: seq<AnalysisRecord>)
    ensures |r| == |rows| && forall k :: 0 <= k < |rows| ==> r[k] == AsRecord(rows[k])
  {
    seq(|rows|, k requires 0 <= k < |rows| => AsRecord(rows[k]))
  }

  /** Object ids strictly increasing: `ORDER BY object_id`. */
  predicate ObjectIdsIncreasing(records: seq<AnalysisRecord>) {
    forall i, j :: 0 <= i < j < |records| ==> records[i].objectId < records[j].objectId
  }

  /** `add_analysis`: one new row holding all 18 fields, with no check for
      an identical row; returns its `object_id`. */
  method AddAnalysis(analyses: Table<AnalysisFields>, fields: AnalysisFields) returns (objectId: int)
    requires analyses.Valid()
    modifies analyses
    ensures analyses.Valid()
    ensures objectId == old(analyses.lastId) + 1
    ensures forall k :: 0 <= k < |old(analyses.rows)| ==> old(analyses.rows)[k].id < objectId
    ensures analyses.rows == old(analyses.rows) + [Row(objectId, fields)]
  {
    objectId := analyses.Insert(fields);
  }

  /** `get_user_analyses`: exactly that user's rows, by ascending `object_id`. */
  function GetUserAnalyses(analyses: Table<AnalysisFields>, userId: int): (r: seq<AnalysisRecord>)
    requires analyses.Valid()
    reads analyses
    ensures ObjectIdsIncreasing(r)
    ensures |r| == |Select(analyses.rows, OfUser(userId))|
    ensures forall k :: 0 <= k < |r| ==> r[k].userId == userId
    ensures forall k :: 0 <= k < |r| ==> exists x :: x in analyses.rows && r[k] == AsRecord(x)
    ensures forall x :: x in analyses.rows ==> (x.value.userId == userId <==> AsRecord(x) in r)
  {
    var rows := Select(analyses.rows, OfUser(userId));
    SelectIncreasing(analyses.rows, OfUser(userId));
    SelectExact(analyses.rows, OfUser(userId));
    AsRecordsKeepMembers(rows);
    AsRecords(rows)
  }

  /** `get_all_analyses`: every row, by ascending `object_id`. */
  function GetAllAnalyses(analyses: Table<AnalysisFields>): (r: seq<AnalysisRecord>)
    requires analyses.Valid()
    reads analyses
    ensures |r| == |analyses.rows|
    ensures ObjectIdsIncreasing(r)
    ensures forall x :: x in analyses.rows ==> AsRecord(x) in r
  {
    AsRecordsKeepMembers(analyses.rows);
    AsRecords(analyses.rows)
  }

  /** Records keep their rows' order and identity. */
  lemma AsRecordsKeepMembers(rows: seq<Row<AnalysisFields>>)
    requires IdsIncreasing(rows)
    ensures ObjectIdsIncreasing(AsRecords(rows))
    ensures forall x :: AsRecord(x) in AsRecords(rows) <==> x in rows
  {
    forall x | AsRecord(x) in AsRecords(rows) ensures x in rows {
      var k :| 0 <= k < |rows| && AsRecords(rows)[k] == AsRecord(x);
      AsRecordKeepsFields(x);
      AsRecordKeepsFields(rows[k]);
    }
  }

  /** `delete_user_analyses`: every row of that user goes, every other row
      stays in order, and the count is how many went. */
  method DeleteUserAnalyses(analyses: Table<AnalysisFields>, userId: int) returns (rowsAffected: nat)
    requires analyses.Valid()
    modifies analyses
    ensures analyses.Valid()
    ensures analyses.rows == Select(old(analyses.rows), Not(OfUser(userId)))
    ensures forall x :: x in analyses.rows <==> x in old(analyses.rows) && x.value.userId != userId
    ensures rowsAffected == |Select(old(analyses.rows), OfUser(userId))|
  {
    SelectExact(analyses.rows, Not(OfUser(userId)));
    rowsAffected := analyses.Delete(OfUser(userId));
  }

  /** `delete_analysis`: at most the one row with that `object_id` goes. */
  method DeleteAnalysis(analyses: Table<AnalysisFields>, objectId: int) returns (rowsAffected: nat)
    requires analyses.Valid()
    modifies analyses
    ensures analyses.Valid()
    ensures forall x :: x in analyses.rows <==> x in old(analyses.rows) && x.id != objectId
    ensures rowsAffected <= 1
    ensures rowsAffected == 1 <==> exists k :: 0 <= k < |old(analyses.rows)| && old(analyses.rows)[k].id == objectId
  {
    SelectById(analyses.rows, objectId);
    SelectExact(analyses.rows, Not(HasId(objectId)));
    rowsAffected := analyses.Delete(HasId(objectId));
  }
}
