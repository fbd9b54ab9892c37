/** The pricing engine of the front end (frontend/src/services/PricingService.ts):
    from a user's analysis records and the chosen scenario it derives the
    marketable proportions, the scenario's penalty, the revenue and the
    profit. The records are the list `getUserAnalyses` returned; the fetch is
    not part of the engine. Numbers are exact reals. */
module Pricing {

  import opened UserAnalysis

  /** The target marketable fraction the bin scenario is measured against. */
  const MARKETABLE_RATIO: real := 0.35
  /** Exported beside the others and never read by the engine. */
  const NOT_MARKETABLE_RATIO: real := 0.65
  const PENALTY: real := 0.15
  const MARKETABLE_PRICE: real := 0.56
  const NOT_MARKETABLE_PRICE: real := 0.008
  /** The batch size every proportion is scaled to. */
  const FINAL_COUNT: real := 20.0

  datatype Scenario = Bin | Conveyor

  datatype PricingSummary = PricingSummary(
    totalProfit: real,
    totalRevenue: real,
    totalPenalty: real,
    marketableProportion: real,
    notMarketableProportion: real)

  /** A record is marketable when its grade is exactly "Marketable"; every
      other text (including "Not Marketable", "" or "marketable") is not. */
  predicate IsMarketable(a: AnalysisRecord) {
    a.grade == "Marketable"
  }

  /** `analyses.filter(isMarketable).length` */
  function MarketableCount(s: seq<AnalysisRecord>): (n: nat)
    ensures n <= |s|
  {
    if s == [] then 0 else (if IsMarketable(s[0]) then 1 else 0) + MarketableCount(s[1..])
  }

  function Abs(x: real): (r: real)
    ensures r >= 0.0 && (r == x || r == -x)
  {
    if x < 0.0 then -x else x
  }

  /** The two proportions of m marketable records out of n: they sum to
      one, lie in [0, 1], and scale back to the count. */
  lemma Proportions(m: nat, n: nat)
    requires 0 < n && m <= n
    ensures var p := m as real / n as real;
      var q := (n - m) as real / n as real;
      && p + q == 1.0
      && 0.0 <= p <= 1.0 && 0.0 <= q <= 1.0
      && p * (n as real) == m as real
  {
    var total := n as real;
    var p := m as real / total;
    var q := (n - m) as real / total;
    assert p * total == m as real;
    assert q * total == total - m as real;
    assert (p + q - 1.0) * total == p * total + q * total - total;
    assert (p + q - 1.0) * total == 0.0;
  }

  /** `calculatePricingSummary` once the analyses are at hand. */
  function CalculatePricingSummary(analyses: seq<AnalysisRecord>, scenario: Scenario): (r: PricingSummary)
    ensures analyses == [] ==> r == PricingSummary(0.0, 0.0, 0.0, 0.0, 0.0)
    ensures analyses != [] ==>
      && r.marketableProportion + r.notMarketableProportion == 1.0
      && 0.0 <= r.marketableProportion <= 1.0
      && 0.0 <= r.notMarketableProportion <= 1.0
      && r.marketableProportion == MarketableCount(analyses) as real / |analyses| as real
    ensures r.totalProfit == r.totalRevenue - r.totalPenalty
    ensures scenario == Conveyor ==> r.totalPenalty == 0.0
    ensures r.totalPenalty >= 0.0
  {
    if |analyses| == 0 then PricingSummary(0.0, 0.0, 0.0, 0.0, 0.0)
    else
      var total := |analyses|;
      var marketable := MarketableCount(analyses);
      var notMarketable := total - marketable;
      Proportions(marketable, total);
      var p := marketable as real / total as real;
      var q := notMarketable as real / total as real;
      var penalty := if scenario == Bin then Abs(p - MARKETABLE_RATIO) * FINAL_COUNT * PENALTY else 0.0;
      var marketableRevenue := p * FINAL_COUNT * MARKETABLE_PRICE;
      var notMarketableRevenue := q * FINAL_COUNT * NOT_MARKETABLE_PRICE;
      var revenue := marketableRevenue + notMarketableRevenue;
      PricingSummary(revenue - penalty, revenue, penalty, p, q)
  }

  /** Appending one record adds one to the count exactly when its grade is
      "Marketable". */
  lemma {:induction false} MarketableCountAppend(s: seq<AnalysisRecord>, a: AnalysisRecord)
    ensures MarketableCount(s + [a]) == MarketableCount(s) + (if a.grade == "Marketable" then 1 else 0)
  {
    if s != [] {
      assert (s + [a])[1..] == s[1..] + [a];
      MarketableCountAppend(s[1..], a);
    }
  }

  /** The grades of the records, in order. */
  function Grades(s: seq<AnalysisRecord>): (g: seq<string>)
    ensures |g| == |s| && forall i :: 0 <= i < |s| ==> g[i] == s[i].grade
  {
    seq(|s|, i requires 0 <= i < |s| => s[i].grade)
  }

  /** The count is the number of times "Marketable" occurs among the
      grades. */
  lemma {:induction false} MarketableCountIsMultiplicity(s: seq<AnalysisRecord>)
    ensures MarketableCount(s) == multiset(Grades(s))["Marketable"]
  {
    if s != [] {
      MarketableCountIsMultiplicity(s[1..]);
      assert Grades(s) == [s[0].grade] + Grades(s[1..]);
    }
  }

  /** In the bin scenario the penalty is |p - 0.35| * 20 * 0.15, and it
      vanishes exactly when the marketable proportion is 0.35. */
  lemma BinPenalty(analyses: seq<AnalysisRecord>)
    requires analyses != []
    ensures var r := CalculatePricingSummary(analyses, Bin);
      && r.totalPenalty == Abs(r.marketableProportion - MARKETABLE_RATIO) * FINAL_COUNT * PENALTY
      && (r.totalPenalty == 0.0 <==> r.marketableProportion == MARKETABLE_RATIO)
  {
  }

  /** Revenue is p * 20 * 0.56 + (1 - p) * 20 * 0.008 in both scenarios, so
      it lies between 0.16 (nothing marketable) and 11.2 (everything). */
  lemma RevenueBounds(analyses: seq<AnalysisRecord>, scenario: Scenario)
    requires analyses != []
    ensures var r := CalculatePricingSummary(analyses, scenario);
      && r.totalRevenue == r.marketableProportion * FINAL_COUNT * MARKETABLE_PRICE
                           + (1.0 - r.marketableProportion) * FINAL_COUNT * NOT_MARKETABLE_PRICE
      && 0.16 <= r.totalRevenue <= 11.2
  {
  }

  /** The scenario changes only the penalty: revenue and proportions agree,
      and conveyor profit is never below bin profit. */
  lemma ConveyorNeverBelowBin(analyses: seq<AnalysisRecord>)
    ensures var bin := CalculatePricingSummary(analyses, Bin);
      var conveyor := CalculatePricingSummary(analyses, Conveyor);
      && conveyor.totalRevenue == bin.totalRevenue
      && conveyor.marketableProportion == bin.marketableProportion
      && conveyor.notMarketableProportion == bin.notMarketableProportion
      && conveyor.totalProfit >= bin.totalProfit
  {
  }

  /** Pricing depends on grades only, so the front end's index shift does not
      change it. */
  lemma {:induction false} ShiftKeepsPricing(analyses: seq<AnalysisRecord>, scenario: Scenario)
    ensures CalculatePricingSummary(ShiftIndices(analyses), scenario) == CalculatePricingSummary(analyses, scenario)
  {
    ShiftKeepsCount(analyses);
  }

  lemma {:induction false} ShiftKeepsCount(s: seq<AnalysisRecord>)
    ensures MarketableCount(ShiftIndices(s)) == MarketableCount(s)
  {
    if s != [] {
      ShiftKeepsCount(s[1..]);
      assert ShiftIndices(s)[1..] == ShiftIndices(s[1..]);
    }
  }

  /** Two marketable and two not marketable records in the bin scenario:
      proportion 0.5, penalty 0.45, revenue 5.68, profit 5.23. */
  lemma BinExample(analyses: seq<AnalysisRecord>)
    requires |analyses| == 4
    requires analyses[0].grade == "Marketable" && analyses[1].grade == "Marketable"
    requires analyses[2].grade == "Not Marketable" && analyses[3].grade == "Not Marketable"
    ensures CalculatePricingSummary(analyses, Bin) == PricingSummary(5.23, 5.68, 0.45, 0.5, 0.5)
  {
    assert MarketableCount(analyses[3..]) == 0;
    assert MarketableCount(analyses[2..]) == 0;
    assert MarketableCount(analyses[1..]) == 1;
  }

  /** The same records in the conveyor scenario: no penalty, profit 5.68. */
  lemma ConveyorExample(analyses: seq<AnalysisRecord>)
    requires |analyses| == 4
    requires analyses[0].grade == "Marketable" && analyses[1].grade == "Marketable"
    requires analyses[2].grade == "Not Marketable" && analyses[3].grade == "Not Marketable"
    ensures CalculatePricingSummary(analyses, Conveyor) == PricingSummary(5.68, 5.68, 0.0, 0.5, 0.5)
  {
    assert MarketableCount(analyses[3..]) == 0;
    assert MarketableCount(analyses[2..]) == 0;
    assert MarketableCount(analyses[1..]) == 1;
  }
}
