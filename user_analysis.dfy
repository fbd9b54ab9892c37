/** The front end's view of the analysis records (frontend/src/services/UserAnalysis.ts):
    the record shape, the response shapes, the +1 shift of
    `object_id_in_image` applied to every fetched list, and the error text
    thrown on a non-OK reply. The fetch itself is a parameter. */
module UserAnalysis {

  import opened Outcomes
  import Text

  /** One row of the user_analysis table as the front end receives it. */
  datatype AnalysisRecord = AnalysisRecord(
    objectId: int,
    imageName: string,
    objectIdInImage: int,
    areaPx2: real,
    topLeftX: int,
    topLeftY: int,
    bottomRightX: int,
    bottomRightY: int,
    center: string,
    widthPx: real,
    lengthPx: real,
    volumePx3: real,
    solidity: real,
    strictSolidity: real,
    lwRatio: real,
    areaIn2: real,
    weightOz: real,
    grade: string,
    userId: int)

  datatype UserAnalysesResponse =
    UserAnalysesResponse(userId: int, analyses: seq<AnalysisRecord>, count: int, status: string)

  datatype AllAnalysesResponse =
    AllAnalysesResponse(analyses: seq<AnalysisRecord>, count: int, status: string)

  /** What `fetch` delivers: an OK reply with its decoded JSON body, a non-OK
      reply with its status and the `detail` field of its body (None when the
      body is not JSON or has no detail), or a rejected promise. */
  datatype Reply<+T> =
    | Success(payload: T)
    | NotOk(status: nat, detail: Option<string>)
    | NetworkError(message: string)

  /** The record with its mask index moved to the 1-based numbering drawn on
      the classified images. */
  function Shifted(a: AnalysisRecord): AnalysisRecord {
    a.(objectIdInImage := a.objectIdInImage + 1)
  }

  function Unshifted(a: AnalysisRecord): AnalysisRecord {
    a.(objectIdInImage := a.objectIdInImage - 1)
  }

  /** `analyses.map(a => ({...a, object_id_in_image: a.object_id_in_image + 1}))` */
  function ShiftIndices(s: seq<AnalysisRecord>): (r: seq<AnalysisRecord>)
    ensures |r| == |s|
  {
    if s == [] then [] else [Shifted(s[0])] + ShiftIndices(s[1..])
  }

  /** The inverse transformation: back to the 0-based mask index the server stores. */
  function UnshiftIndices(s: seq<AnalysisRecord>): (r: seq<AnalysisRecord>)
    ensures |r| == |s|
  {
    if s == [] then [] else [Unshifted(s[0])] + UnshiftIndices(s[1..])
  }

  /** Record k of the shifted list is record k of the input with
      `object_id_in_image` one higher and every other field unchanged. */
  lemma {:induction false} ShiftIndicesAt(s: seq<AnalysisRecord>, k: nat)
    requires k < |s|
    ensures ShiftIndices(s)[k].objectIdInImage == s[k].objectIdInImage + 1
    ensures ShiftIndices(s)[k].(objectIdInImage := 0) == s[k].(objectIdInImage := 0)
  {
    if k > 0 {
      ShiftIndicesAt(s[1..], k - 1);
    }
  }

  lemma ShiftAll(s: seq<AnalysisRecord>)
    ensures forall k :: 0 <= k < |s| ==> ShiftIndices(s)[k] == Shifted(s[k])
  {
    forall k | 0 <= k < |s| ensures ShiftIndices(s)[k] == Shifted(s[k]) {
      ShiftIndicesAt(s, k);
    }
  }

  /** Undoing the shift gives back exactly what the server sent. */
  lemma {:induction false} ShiftRoundTrip(s: seq<AnalysisRecord>)
    ensures UnshiftIndices(ShiftIndices(s)) == s
  {
    if s != [] {
      ShiftRoundTrip(s[1..]);
      assert ShiftIndices(s)[1..] == ShiftIndices(s[1..]);
    }
  }

  /** `errorData.detail || \`HTTP error! status: ${response.status}\``: an
      absent or empty detail falls back to the status line. */
  function ErrorMessage(status: nat, detail: Option<string>): (m: string)
    ensures detail.Some? && detail.value != [] ==> m == detail.value
    ensures (detail.None? || detail.value == []) ==>
      && Text.StartsWith(m, "HTTP error! status: ")
      && Text.IsDigits(m[|"HTTP error! status: "|..])
      && Text.DigitsValue(m[|"HTTP error! status: "|..]) == status
  {
    if detail.Some? && detail.value != [] then detail.value
    else
      var m := "HTTP error! status: " + Text.NatToString(status);
      assert m[|"HTTP error! status: "|..] == Text.NatToString(status);
      Text.NatToStringRoundTrip(status);
      m
  }

  /** `getUserAnalyses` after its fetch: an OK reply is returned with its list
      shifted; anything else is thrown. */
  function GetUserAnalyses(reply: Reply<UserAnalysesResponse>): (r: Call<UserAnalysesResponse>)
    ensures r.Returned? <==> reply.Success?
    ensures reply.Success? ==>
      && r.value.(analyses := []) == reply.payload.(analyses := [])
      && |r.value.analyses| == |reply.payload.analyses|
      && forall k :: 0 <= k < |r.value.analyses| ==>
           r.value.analyses[k] == Shifted(reply.payload.analyses[k])
    ensures reply.NotOk? ==> r == Raised(ErrorMessage(reply.status, reply.detail))
    ensures reply.NetworkError? ==> r == Raised(reply.message)
  {
    match reply
    case Success(data) =>
      ShiftAll(data.analyses);
      Returned(data.(analyses := ShiftIndices(data.analyses)))
    case NotOk(status, detail) => Raised(ErrorMessage(status, detail))
    case NetworkError(message) => Raised(message)
  }

  /** `getAllUserAnalyses` after its fetch: the same shift over every user's records. */
  function GetAllUserAnalyses(reply: Reply<AllAnalysesResponse>): (r: Call<AllAnalysesResponse>)
    ensures r.Returned? <==> reply.Success?
    ensures reply.Success? ==>
      && r.value.(analyses := []) == reply.payload.(analyses := [])
      && |r.value.analyses| == |reply.payload.analyses|
      && forall k :: 0 <= k < |r.value.analyses| ==>
           r.value.analyses[k] == Shifted(reply.payload.analyses[k])
    ensures reply.NotOk? ==> r == Raised(ErrorMessage(reply.status, reply.detail))
    ensures reply.NetworkError? ==> r == Raised(reply.message)
  {
    match reply
    case Success(data) =>
      ShiftAll(data.analyses);
      Returned(data.(analyses := ShiftIndices(data.analyses)))
    case NotOk(status, detail) => Raised(ErrorMessage(status, detail))
    case NetworkError(message) => Raised(message)
  }
}
