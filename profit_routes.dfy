/** backend/routes/user_profit_routes.py: the scenario check, the metrics
    handed to the profit service, and the reply rules. The profit service's
    storage is not part of this model, so what it answers is an input. */
module ProfitRoutes {

  import opened Outcomes
  import opened Text

  /** The body of POST /save-profit. */
  datatype ProfitDataRequest = ProfitDataRequest(
    userId: int,
    scenario: int,
    totalProfit: real,
    totalRevenue: real,
    totalPenalty: real,
    marketableProportion: real,
    notMarketableProportion: real,
    totalClassifications: int,
    totalMarketableClassifications: int,
    totalNotMarketableClassifications: int,
    totalMarketableRevenue: real,
    totalNotMarketableRevenue: real)

  /** The `profit_data` dictionary: the ten metrics of a request. */
  datatype ProfitData = ProfitData(
    totalProfit: real,
    totalRevenue: real,
    totalPenalty: real,
    marketableProportion: real,
    notMarketableProportion: real,
    totalClassifications: int,
    totalMarketableClassifications: int,
    totalNotMarketableClassifications: int,
    totalMarketableRevenue: real,
    totalNotMarketableRevenue: real)

  function ProfitDataOf(q: ProfitDataRequest): ProfitData {
    ProfitData(q.totalProfit, q.totalRevenue, q.totalPenalty, q.marketableProportion,
               q.notMarketableProportion, q.totalClassifications, q.totalMarketableClassifications,
               q.totalNotMarketableClassifications, q.totalMarketableRevenue, q.totalNotMarketableRevenue)
  }

  function RequestOf(userId: int, scenario: int, d: ProfitData): ProfitDataRequest {
    ProfitDataRequest(userId, scenario, d.totalProfit, d.totalRevenue, d.totalPenalty,
                      d.marketableProportion, d.notMarketableProportion, d.totalClassifications,
                      d.totalMarketableClassifications, d.totalNotMarketableClassifications,
                      d.totalMarketableRevenue, d.totalNotMarketableRevenue)
  }

  /** The service receives every metric of the request unchanged: the user
      id, the scenario and `profit_data` together give the request back. */
  lemma ProfitDataKeepsMetrics(q: ProfitDataRequest)
    ensures RequestOf(q.userId, q.scenario, ProfitDataOf(q)) == q
  {
  }

  /** What `save_profit_data` returns. */
  datatype SaveResult = SaveResult(success: bool, profitId: int)

  datatype SaveReply = SaveReply(success: bool, profitId: int, status: string)

  const SAVE_FAILURE: string := "Failed to save profit data: "
  const BAD_SCENARIO: string := "Scenario must be 1 or 2"

  /** `save_profit_endpoint`. `save` stands for the profit service called
      with the user id, the scenario and the metrics. A scenario other than
      1 (bin) or 2 (conveyor) is refused, but the handler's broad
      `except Exception` turns that 400 into a 500; a service failure is a
      500 as well. */
  function SaveProfitEndpoint(q: ProfitDataRequest, save: (int, int, ProfitData) -> Call<SaveResult>): (r: Http<SaveReply>)
    ensures q.scenario !in {1, 2} ==> r == Fail(500, SAVE_FAILURE + HttpExceptionText(400, BAD_SCENARIO))
    ensures q.scenario in {1, 2} ==>
      match save(q.userId, q.scenario, ProfitDataOf(q))
      case Raised(e) => r == Fail(500, SAVE_FAILURE + e)
      case Returned(res) => r == Ok(SaveReply(res.success, res.profitId, "success"))
    ensures r.Ok? ==> q.scenario == 1 || q.scenario == 2
  {
    if q.scenario != 1 && q.scenario != 2 then
      Fail(500, SAVE_FAILURE + HttpExceptionText(400, BAD_SCENARIO))
    else
      match save(q.userId, q.scenario, ProfitDataOf(q))
      case Raised(e) => Fail(500, SAVE_FAILURE + e)
      case Returned(res) => Ok(SaveReply(res.success, res.profitId, "success"))
  }

  /** A stored profit row as `get_profit_data` renders it. */
  datatype ProfitRecord = ProfitRecord(id: int, userId: int, scenario: int, metrics: ProfitData)

  /** What `get_profit_data` returns: one record or None when a scenario is
      given, the list of the user's records otherwise. */
  datatype ProfitLookup =
    | Single(record: Option<ProfitRecord>)
    | All(records: seq<ProfitRecord>)

  datatype ProfitReply = ProfitReply(profitData: ProfitLookup, status: string)

  const GET_FAILURE: string := "Failed to get profit data: "
  const NOT_FOUND: string := "Profit data not found"

  /** `get_profit_endpoint`: with a scenario and nothing stored the answer
      is 404, re-raised unchanged by `except HTTPException: raise`; a
      service failure is a 500; anything else is returned as it came. */
  function GetProfitEndpoint(scenario: Option<int>, lookup: Call<ProfitLookup>): (r: Http<ProfitReply>)
    ensures lookup.Raised? ==> r == Fail(500, GET_FAILURE + lookup.message)
    ensures lookup.Returned? ==>
      (r == Fail(404, NOT_FOUND) <==> scenario.Some? && lookup.value == Single(None))
    ensures r.Ok? ==> lookup.Returned? && r.body == ProfitReply(lookup.value, "success")
    ensures r.Fail? ==> r.status in {404, 500}
  {
    match lookup
    case Raised(e) => Fail(500, GET_FAILURE + e)
    case Returned(result) =>
      if scenario.Some? && result == Single(None) then Fail(404, NOT_FOUND)
      else Ok(ProfitReply(result, "success"))
  }
}
