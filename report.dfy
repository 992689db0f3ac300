/**
 * The figures of the text report written by `export_results`: campus
 * total, highest-consuming building, peak load time, number of buildings
 * and date range.
 */
module Report {
  import opened Meter
  import opened GroupBy
  import opened Aggregation

  /** `Series.idxmax()`: the first position holding the largest value. */
  function IndexOfMax(xs: seq<int>): (i: nat)
    requires |xs| > 0
    ensures i < |xs|
    ensures forall j :: 0 <= j < |xs| ==> xs[j] <= xs[i]
    ensures forall j :: 0 <= j < i ==> xs[j] < xs[i]
  {
    if |xs| == 1 then 0
    else
      var i := IndexOfMax(xs[..|xs| - 1]);
      if xs[|xs| - 1] > xs[i] then |xs| - 1 else i
  }

  /** The total_kwh column of the summary. */
  function TotalColumn(summary: seq<SummaryRow>): (col: seq<int>)
    ensures |col| == |summary| && forall i :: 0 <= i < |summary| ==> col[i] == summary[i].totalKwh
  {
    seq(|summary|, i requires 0 <= i < |summary| => summary[i].totalKwh)
  }

  /** The kwh column of the table. */
  function KwhColumn(rows: seq<Row>): (col: seq<int>)
    ensures |col| == |rows| && forall i :: 0 <= i < |rows| ==> col[i] == rows[i].kwh
  {
    seq(|rows|, i requires 0 <= i < |rows| => rows[i].kwh)
  }

  /** `summary.loc[summary['total_kwh'].idxmax(), 'building']`. */
  function HighestConsumingBuilding(summary: seq<SummaryRow>): (b: string)
    requires |summary| > 0
    ensures exists i :: (0 <= i < |summary| && summary[i].building == b
      && (forall j :: 0 <= j < |summary| ==> summary[j].totalKwh <= summary[i].totalKwh)
      && (forall j :: 0 <= j < i ==> summary[j].totalKwh < summary[i].totalKwh))
  {
    var i := IndexOfMax(TotalColumn(summary));
    summary[i].building
  }

  /** `df.loc[df['kwh'].idxmax(), 'timestamp']`. */
  function PeakLoadTime(rows: seq<Row>): (t: Timestamp)
    requires |rows| > 0
    ensures exists i :: (0 <= i < |rows| && rows[i].timestamp == t
      && (forall j :: 0 <= j < |rows| ==> rows[j].kwh <= rows[i].kwh)
      && (forall j :: 0 <= j < i ==> rows[j].kwh < rows[i].kwh))
  {
    var i := IndexOfMax(KwhColumn(rows));
    rows[i].timestamp
  }

  /** `df['timestamp'].min()`. */
  function FirstTimestamp(rows: seq<Row>): (t: Timestamp)
    requires |rows| > 0
    ensures forall r :: r in rows ==> t <= r.timestamp
    ensures exists r :: r in rows && r.timestamp == t
  {
    if |rows| == 1 then rows[0].timestamp
    else
      var t := FirstTimestamp(rows[..|rows| - 1]);
      assert rows == rows[..|rows| - 1] + [rows[|rows| - 1]];
      if rows[|rows| - 1].timestamp < t then rows[|rows| - 1].timestamp else t
  }

  /** `df['timestamp'].max()`. */
  function LastTimestamp(rows: seq<Row>): (t: Timestamp)
    requires |rows| > 0
    ensures forall r :: r in rows ==> r.timestamp <= t
    ensures exists r :: r in rows && r.timestamp == t
  {
    if |rows| == 1 then rows[0].timestamp
    else
      var t := LastTimestamp(rows[..|rows| - 1]);
      assert rows == rows[..|rows| - 1] + [rows[|rows| - 1]];
      if rows[|rows| - 1].timestamp > t then rows[|rows| - 1].timestamp else t
  }

  /** The figures in summary.txt, before formatting. */
  datatype CampusReport = CampusReport(
    totalConsumption: int,
    highestConsumingBuilding: string,
    peakLoadTime: Timestamp,
    buildingCount: nat,
    firstTimestamp: Timestamp,
    lastTimestamp: Timestamp)

  /** The figures `export_results` writes for the table `rows` and the summary it is given. */
  function SummaryReport(rows: seq<Row>, summary: seq<SummaryRow>): CampusReport
    requires |rows| > 0 && |summary| > 0
  {
    CampusReport(SumKwh(rows), HighestConsumingBuilding(summary), PeakLoadTime(rows),
                 |summary|, FirstTimestamp(rows), LastTimestamp(rows))
  }

  lemma SummaryOfNonEmptyTable(rows: seq<Row>)
    requires |rows| > 0
    ensures |BuildingSummary(rows)| > 0
  {
    assert rows[0].building in Buildings(rows);
    SummaryHasOneRowPerBuilding(rows);
  }

  /**
   * The highest-consuming building of the table's own summary has the
   * largest total of all buildings, and every building whose name sorts
   * before it has a strictly smaller total: idxmax over the name-sorted
   * summary breaks ties towards the smallest name.
   */
  lemma HighestIsLargest(rows: seq<Row>)
    requires |rows| > 0
    ensures |BuildingSummary(rows)| > 0
    ensures var h := HighestConsumingBuilding(BuildingSummary(rows));
      && h in Buildings(rows)
      && (forall b :: b in Buildings(rows) ==>
            SumKwh(Where(rows, BuildingKey, b)) <= SumKwh(Where(rows, BuildingKey, h)))
      && (forall b :: b in Buildings(rows) && StrLess(b, h) ==>
            SumKwh(Where(rows, BuildingKey, b)) < SumKwh(Where(rows, BuildingKey, h)))
  {
    SummaryOfNonEmptyTable(rows);
    var h := HighestConsumingBuilding(BuildingSummary(rows));
    assert rows[0].building in Buildings(rows);
    HighestBeats(rows, rows[0].building);
    forall b | b in Buildings(rows)
      ensures SumKwh(Where(rows, BuildingKey, b)) <= SumKwh(Where(rows, BuildingKey, h))
      ensures StrLess(b, h) ==> SumKwh(Where(rows, BuildingKey, b)) < SumKwh(Where(rows, BuildingKey, h))
    {
      HighestBeats(rows, b);
    }
  }

  lemma HighestBeats(rows: seq<Row>, b: string)
    requires |rows| > 0 && b in Buildings(rows)
    ensures |BuildingSummary(rows)| > 0
    ensures var h := HighestConsumingBuilding(BuildingSummary(rows));
      && h in Buildings(rows)
      && SumKwh(Where(rows, BuildingKey, b)) <= SumKwh(Where(rows, BuildingKey, h))
      && (StrLess(b, h) ==> SumKwh(Where(rows, BuildingKey, b)) < SumKwh(Where(rows, BuildingKey, h)))
  {
    SummaryOfNonEmptyTable(rows);
    SummaryHasOneRowPerBuilding(rows);
    var summary := BuildingSummary(rows);
    var h := HighestConsumingBuilding(summary);
    var i :| 0 <= i < |summary| && summary[i].building == h
      && (forall j :: 0 <= j < |summary| ==> summary[j].totalKwh <= summary[i].totalKwh)
      && (forall j :: 0 <= j < i ==> summary[j].totalKwh < summary[i].totalKwh);
    SummaryCoversBuilding(rows, b);
    var j :| 0 <= j < |summary| && summary[j].building == b;
    FirstMaximumOfSorted(summary, i, j);
    SummaryRowDescribesBuilding(rows, i);
    SummaryRowDescribesBuilding(rows, j);
  }

  /** In a name-sorted table, the first maximum of total_kwh beats every row whose name sorts before it. */
  lemma FirstMaximumOfSorted(summary: seq<SummaryRow>, i: nat, j: nat)
    requires i < |summary| && j < |summary|
    requires forall a, c :: 0 <= a < c < |summary| ==> StrLess(summary[a].building, summary[c].building)
    requires forall k :: 0 <= k < |summary| ==> summary[k].totalKwh <= summary[i].totalKwh
    requires forall k :: 0 <= k < i ==> summary[k].totalKwh < summary[i].totalKwh
    ensures summary[j].totalKwh <= summary[i].totalKwh
    ensures StrLess(summary[j].building, summary[i].building) ==> summary[j].totalKwh < summary[i].totalKwh
  {
    if i < j {
      StrLessAsymmetric(summary[i].building, summary[j].building);
    } else if i == j {
      StrLessIrreflexive(summary[j].building);
    }
  }

  /** The peak load time is the timestamp of a reading that no other reading exceeds. */
  lemma PeakIsLargestReading(rows: seq<Row>)
    requires |rows| > 0
    ensures exists r :: r in rows && r.timestamp == PeakLoadTime(rows) && forall q :: q in rows ==> q.kwh <= r.kwh
  {
    var p :| 0 <= p < |rows| && rows[p].timestamp == PeakLoadTime(rows)
      && (forall j :: 0 <= j < |rows| ==> rows[j].kwh <= rows[p].kwh);
    assert rows[p] in rows;
  }

  /**
   * On the summary of the table itself, the report's figures mean what they
   * say: the campus total is the sum of the building totals, the building
   * count is the number of distinct labels, and the date range encloses
   * every reading.
   */
  lemma ReportMeaning(rows: seq<Row>)
    requires |rows| > 0
    ensures |BuildingSummary(rows)| > 0
    ensures var rep := SummaryReport(rows, BuildingSummary(rows));
      && rep.totalConsumption == SummaryTotal(BuildingSummary(rows))
      && rep.buildingCount == |Buildings(rows)|
      && (forall r :: r in rows ==> rep.firstTimestamp <= r.timestamp <= rep.lastTimestamp)
  {
    SummaryOfNonEmptyTable(rows);
    SummaryHasOneRowPerBuilding(rows);
    SummaryConserves(rows);
  }
}
