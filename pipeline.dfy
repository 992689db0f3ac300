/**
 * The main block: load, stop with exit status 1 when the table is empty,
 * aggregate, feed the manager, and compute the report figures. The two
 * ways of totalling a building (the aggregation tables and the object
 * model) agree.
 */
module Pipeline {
  import opened Wrappers
  import opened Meter
  import opened GroupBy
  import opened Loader
  import opened Aggregation
  import opened Domain
  import opened Report

  datatype Outcome =
    | NoData
    | Completed(daily: seq<Group<PeriodKey, int>>,
                weekly: seq<Group<PeriodKey, int>>,
                summary: seq<SummaryRow>,
                consumption: map<string, int>,
                report: CampusReport)

  /**
   * For every building, the sum of its daily totals, the sum of its weekly
   * totals, its summary row's total_kwh and the manager's
   * total_consumption after feeding the table are one and the same number.
   */
  lemma {:induction false} PerBuildingTotalsAgree(rows: seq<Row>, dateOf: Timestamp -> int,
                                                  weekOf: Timestamp -> int, b: string)
    requires b in Buildings(rows)
    ensures b in Fed(rows)
    ensures var t := ReadingsTotal(Fed(rows)[b]);
      && BuildingTotal(DailyTotals(rows, dateOf), b) == t
      && BuildingTotal(WeeklyTotals(rows, weekOf), b) == t
      && exists i :: 0 <= i < |BuildingSummary(rows)| && BuildingSummary(rows)[i].building == b
                     && BuildingSummary(rows)[i].totalKwh == t
  {
    FedGroupsByBuilding(rows);
    ReadingsTotalOfRows(Where(rows, BuildingKey, b));
    SummaryCoversBuilding(rows, b);
    var i :| 0 <= i < |BuildingSummary(rows)| && BuildingSummary(rows)[i].building == b;
    SummaryRowDescribesBuilding(rows, i);
  }

  /** Per-building totals read off any map that holds each building's kwh sum agree with the three tables. */
  lemma ConsumptionAgrees(table: seq<Row>, dateOf: Timestamp -> int, weekOf: Timestamp -> int,
                          consumption: map<string, int>)
    requires consumption.Keys == Buildings(table)
    requires forall b :: b in consumption ==> consumption[b] == SumKwh(Where(table, BuildingKey, b))
    ensures forall b :: b in consumption ==>
      && BuildingTotal(DailyTotals(table, dateOf), b) == consumption[b]
      && BuildingTotal(WeeklyTotals(table, weekOf), b) == consumption[b]
    ensures var summary := BuildingSummary(table);
      forall i :: 0 <= i < |summary| ==>
        summary[i].building in consumption && summary[i].totalKwh == consumption[summary[i].building]
  {
    var summary := BuildingSummary(table);
    SummaryHasOneRowPerBuilding(table);
    forall i | 0 <= i < |summary|
      ensures summary[i].building in consumption
      ensures summary[i].totalKwh == consumption[summary[i].building]
    {
      SummaryRowDescribesBuilding(table, i);
    }
  }

  /** The main block of dashboard.py, without logging, printing, plotting and file output. */
  method RunPipeline(files: seq<CsvFile>, parse: string -> Option<Timestamp>,
                     dateOf: Timestamp -> int, weekOf: Timestamp -> int) returns (outcome: Outcome)
    ensures outcome.NoData? <==> Combined(files, parse) == []
    ensures outcome.Completed? ==>
      var table := Combined(files, parse);
      && outcome.daily == DailyTotals(table, dateOf)
      && outcome.weekly == WeeklyTotals(table, weekOf)
      && outcome.summary == BuildingSummary(table)
      && |outcome.summary| > 0
      && outcome.report == SummaryReport(table, outcome.summary)
      && outcome.consumption.Keys == Buildings(table)
      && (forall b :: b in outcome.consumption ==>
            && outcome.consumption[b] == SumKwh(Where(table, BuildingKey, b))
            && BuildingTotal(outcome.daily, b) == outcome.consumption[b]
            && BuildingTotal(outcome.weekly, b) == outcome.consumption[b])
      && (forall i :: 0 <= i < |outcome.summary| ==>
            outcome.summary[i].building in outcome.consumption
            && outcome.summary[i].totalKwh == outcome.consumption[outcome.summary[i].building])
  {
    var table := LoadAndCombine(files, parse);
    if |table| == 0 {
      return NoData;
    }
    var daily := DailyTotals(table, dateOf);
    var weekly := WeeklyTotals(table, weekOf);
    var summary := BuildingSummary(table);
    var manager := FeedManager(table);
    var consumption := map b | b in manager.buildings :: manager.buildings[b].TotalConsumption();
    SummaryOfNonEmptyTable(table);
    ConsumptionAgrees(table, dateOf, weekOf, consumption);
    var report := SummaryReport(table, summary);
    outcome := Completed(daily, weekly, summary, consumption, report);
  }
}
