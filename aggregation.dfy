/**
 * The aggregation functions: daily and weekly totals (group by period and
 * building, sum kwh) and the per-building summary (mean, min, max and sum
 * of kwh). The calendar is a parameter: `dateOf` and `weekOf` map a
 * timestamp to its day or week number, standing for `.dt.date` and
 * `.dt.to_period('W')`.
 */
module Aggregation {
  import opened Meter
  import opened GroupBy

  /** A (period, building) pair, the key of the daily and weekly tables. */
  type PeriodKey = (int, string)

  function PeriodKeyOf(periodOf: Timestamp -> int): Row -> PeriodKey
  {
    (r: Row) => (periodOf(r.timestamp), r.building)
  }

  /** pandas sorts (period, building) keys by period, then by building name. */
  predicate PeriodLess(a: PeriodKey, b: PeriodKey)
  {
    a.0 < b.0 || (a.0 == b.0 && StrLess(a.1, b.1))
  }

  /** Selects the keys of building `b`. */
  function InBuilding(b: string): PeriodKey -> bool
  {
    (k: PeriodKey) => k.1 == b
  }

  lemma StrLessIsOrder()
    ensures StrictTotalOrder(StrLess)
  {
    forall a: string ensures !StrLess(a, a) { StrLessIrreflexive(a); }
    forall a: string, b: string, c: string | StrLess(a, b) && StrLess(b, c) ensures StrLess(a, c) {
      StrLessTransitive(a, b, c);
    }
    forall a: string, b: string ensures a == b || StrLess(a, b) || StrLess(b, a) { StrLessTotal(a, b); }
  }

  lemma PeriodLessIsOrder()
    ensures StrictTotalOrder(PeriodLess)
  {
    forall a: PeriodKey ensures !PeriodLess(a, a) { StrLessIrreflexive(a.1); }
    forall a: PeriodKey, b: PeriodKey, c: PeriodKey | PeriodLess(a, b) && PeriodLess(b, c)
      ensures PeriodLess(a, c)
    {
      if a.0 == b.0 == c.0 { StrLessTransitive(a.1, b.1, c.1); }
    }
    forall a: PeriodKey, b: PeriodKey ensures a == b || PeriodLess(a, b) || PeriodLess(b, a) {
      StrLessTotal(a.1, b.1);
    }
  }

  /** The sum of building `b`'s entries in a daily or weekly table. */
  function BuildingTotal(totals: seq<Group<PeriodKey, int>>, b: string): int
  {
    SumSelected(totals, InBuilding(b), IntValue)
  }

  lemma {:induction false} BuildingRowsOfPeriodKeys(rows: seq<Row>, periodOf: Timestamp -> int, b: string)
    ensures SumWhere(rows, PeriodKeyOf(periodOf), InBuilding(b)) == SumKwh(Where(rows, BuildingKey, b))
    decreases |rows|
  {
    if |rows| > 0 {
      BuildingRowsOfPeriodKeys(rows[..|rows| - 1], periodOf, b);
      SumKwhAppend(Where(rows[..|rows| - 1], BuildingKey, b), [rows[|rows| - 1]]);
    }
  }

  lemma RowKeysOfBuildingKey(rows: seq<Row>)
    ensures RowKeys(rows, BuildingKey) == Buildings(rows)
  {
  }

  function AddKwh(total: int, r: Row): int { total + r.kwh }

  function IntValue(x: int): int { x }

  /** Folding with `KwhOf` and `AddKwh` is summing the kwh column. */
  lemma {:induction false} FoldIsSum(s: seq<Row>)
    requires |s| > 0
    ensures Fold(s, KwhOf, AddKwh) == SumKwh(s)
    decreases |s|
  {
    if |s| > 1 {
      FoldIsSum(s[..|s| - 1]);
    } else {
      assert s[..0] == [];
    }
  }

  /**
   * `df.groupby([period, 'building'])['kwh'].sum()`: one entry per
   * (period, building) pair present, sorted by key, each the sum of that
   * pair's kwh; a building's entries add up to its whole consumption.
   */
  function PeriodTotals(rows: seq<Row>, periodOf: Timestamp -> int): (totals: seq<Group<PeriodKey, int>>)
    ensures Sorted(totals, PeriodLess)
    ensures Keys(totals) == RowKeys(rows, PeriodKeyOf(periodOf))
    ensures |totals| == |RowKeys(rows, PeriodKeyOf(periodOf))|
    ensures forall g :: g in totals ==>
      var s := Where(rows, PeriodKeyOf(periodOf), g.key); |s| > 0 && g.value == SumKwh(s)
    ensures forall b :: BuildingTotal(totals, b) == SumKwh(Where(rows, BuildingKey, b))
  {
    var key := PeriodKeyOf(periodOf);
    var totals := Aggregate(rows, key, PeriodLess, KwhOf, AddKwh);
    PeriodLessIsOrder();
    AggregateSpec(rows, key, PeriodLess, KwhOf, AddKwh);
    SortedKeysCount(totals, PeriodLess);
    PeriodTotalsAreSums(rows, periodOf, totals);
    PeriodTotalsConserve(rows, periodOf);
    totals
  }

  lemma PeriodTotalsAreSums(rows: seq<Row>, periodOf: Timestamp -> int, totals: seq<Group<PeriodKey, int>>)
    requires forall g :: g in totals ==> Summarises(g, rows, PeriodKeyOf(periodOf), KwhOf, AddKwh)
    ensures forall g :: g in totals ==>
      var s := Where(rows, PeriodKeyOf(periodOf), g.key); |s| > 0 && g.value == SumKwh(s)
  {
    forall g | g in totals
      ensures var s := Where(rows, PeriodKeyOf(periodOf), g.key); |s| > 0 && g.value == SumKwh(s)
    {
      FoldIsSum(Where(rows, PeriodKeyOf(periodOf), g.key));
    }
  }

  lemma PeriodTotalsConserve(rows: seq<Row>, periodOf: Timestamp -> int)
    ensures forall b :: BuildingTotal(Aggregate(rows, PeriodKeyOf(periodOf), PeriodLess, KwhOf, AddKwh), b)
                        == SumKwh(Where(rows, BuildingKey, b))
  {
    forall b: string
      ensures BuildingTotal(Aggregate(rows, PeriodKeyOf(periodOf), PeriodLess, KwhOf, AddKwh), b)
              == SumKwh(Where(rows, BuildingKey, b))
    {
      AggregateConserves(rows, PeriodKeyOf(periodOf), PeriodLess, KwhOf, AddKwh, InBuilding(b), IntValue);
      BuildingRowsOfPeriodKeys(rows, periodOf, b);
    }
  }

  /** `calculate_daily_totals`: kwh summed per (date, building). */
  function DailyTotals(rows: seq<Row>, dateOf: Timestamp -> int): (daily: seq<Group<PeriodKey, int>>)
    ensures Sorted(daily, PeriodLess)
    ensures Keys(daily) == RowKeys(rows, PeriodKeyOf(dateOf))
    ensures |daily| == |RowKeys(rows, PeriodKeyOf(dateOf))|
    ensures forall g :: g in daily ==> g.value == SumKwh(Where(rows, PeriodKeyOf(dateOf), g.key))
    ensures forall b :: BuildingTotal(daily, b) == SumKwh(Where(rows, BuildingKey, b))
  {
    PeriodTotals(rows, dateOf)
  }

  /** `calculate_weekly_aggregates`: kwh summed per (week, building). */
  function WeeklyTotals(rows: seq<Row>, weekOf: Timestamp -> int): (weekly: seq<Group<PeriodKey, int>>)
    ensures Sorted(weekly, PeriodLess)
    ensures Keys(weekly) == RowKeys(rows, PeriodKeyOf(weekOf))
    ensures |weekly| == |RowKeys(rows, PeriodKeyOf(weekOf))|
    ensures forall g :: g in weekly ==> g.value == SumKwh(Where(rows, PeriodKeyOf(weekOf), g.key))
    ensures forall b :: BuildingTotal(weekly, b) == SumKwh(Where(rows, BuildingKey, b))
  {
    PeriodTotals(rows, weekOf)
  }

  // The building summary.

  function MinKwh(s: seq<Row>): (m: int)
    requires |s| > 0
    ensures forall r :: r in s ==> m <= r.kwh
    ensures exists r :: r in s && r.kwh == m
  {
    if |s| == 1 then s[0].kwh
    else
      var m := MinKwh(s[..|s| - 1]);
      assert s == s[..|s| - 1] + [s[|s| - 1]];
      if s[|s| - 1].kwh < m then s[|s| - 1].kwh else m
  }

  function MaxKwh(s: seq<Row>): (m: int)
    requires |s| > 0
    ensures forall r :: r in s ==> r.kwh <= m
    ensures exists r :: r in s && r.kwh == m
  {
    if |s| == 1 then s[0].kwh
    else
      var m := MaxKwh(s[..|s| - 1]);
      assert s == s[..|s| - 1] + [s[|s| - 1]];
      if s[|s| - 1].kwh > m then s[|s| - 1].kwh else m
  }

  /** The running aggregate behind `.agg(['mean', 'min', 'max', 'sum'])`. */
  datatype Stats = Stats(count: nat, min: int, max: int, total: int)

  function StartStats(r: Row): Stats { Stats(1, r.kwh, r.kwh, r.kwh) }

  function AddStats(a: Stats, r: Row): Stats
  {
    Stats(a.count + 1, if r.kwh < a.min then r.kwh else a.min,
          if r.kwh > a.max then r.kwh else a.max, a.total + r.kwh)
  }

  function StatsTotal(a: Stats): int { a.total }

  lemma {:induction false} FoldIsStats(s: seq<Row>)
    requires |s| > 0
    ensures Fold(s, StartStats, AddStats) == Stats(|s|, MinKwh(s), MaxKwh(s), SumKwh(s))
    decreases |s|
  {
    if |s| > 1 {
      FoldIsStats(s[..|s| - 1]);
    } else {
      assert s[..0] == [];
    }
  }

  /** A row of the summary table: columns building, avg_kwh, min_kwh, max_kwh, total_kwh. */
  datatype SummaryRow = SummaryRow(building: string, avgKwh: real, minKwh: int, maxKwh: int, totalKwh: int)

  function ToSummaryRow(g: Group<string, Stats>): SummaryRow
  {
    var avg := if g.value.count == 0 then 0.0 else g.value.total as real / g.value.count as real;
    SummaryRow(g.key, avg, g.value.min, g.value.max, g.value.total)
  }

  /** `row` holds the mean, min, max and sum of the kwh of the non-empty group `s`. */
  ghost predicate Describes(row: SummaryRow, s: seq<Row>)
  {
    && |s| > 0
    && row.totalKwh == SumKwh(s)
    && row.avgKwh == row.totalKwh as real / |s| as real
    && row.minKwh as real <= row.avgKwh <= row.maxKwh as real
    && (forall r :: r in s ==> row.minKwh <= r.kwh <= row.maxKwh)
    && (exists r :: r in s && r.kwh == row.minKwh)
    && (exists r :: r in s && r.kwh == row.maxKwh)
  }

  lemma {:induction false} SumBetweenMinAndMax(s: seq<Row>, lo: int, hi: int)
    requires forall r :: r in s ==> lo <= r.kwh <= hi
    ensures |s| * lo <= SumKwh(s) <= |s| * hi
    decreases |s|
  {
    if |s| > 0 {
      var pre := s[..|s| - 1];
      assert forall r :: r in pre ==> r in s;
      SumBetweenMinAndMax(pre, lo, hi);
      assert s[|s| - 1] in s;
      assert SumKwh(s) == SumKwh(pre) + s[|s| - 1].kwh;
      MulSucc(|pre|, lo);
      MulSucc(|pre|, hi);
    }
  }

  lemma MulSucc(n: nat, x: int)
    ensures (n + 1) * x == n * x + x
  {
  }

  lemma MeanBetween(total: int, count: nat, lo: int, hi: int)
    requires count > 0 && count * lo <= total <= count * hi
    ensures lo as real <= total as real / count as real <= hi as real
  {
    var c := count as real;
    assert (count * lo) as real == c * (lo as real);
    assert (count * hi) as real == c * (hi as real);
  }

  lemma SummaryRowDescribes(g: Group<string, Stats>, s: seq<Row>)
    requires |s| > 0 && g.value == Fold(s, StartStats, AddStats)
    ensures Describes(ToSummaryRow(g), s)
  {
    FoldIsStats(s);
    var lo, hi, total := MinKwh(s), MaxKwh(s), SumKwh(s);
    assert g.value == Stats(|s|, lo, hi, total);
    SumBetweenMinAndMax(s, lo, hi);
    MeanBetween(total, |s|, lo, hi);
    assert ToSummaryRow(g) == SummaryRow(g.key, total as real / |s| as real, lo, hi, total);
  }

  /** The per-building aggregates, sorted by building name. */
  function BuildingStats(rows: seq<Row>): seq<Group<string, Stats>>
  {
    Aggregate(rows, BuildingKey, StrLess, StartStats, AddStats)
  }

  /** `building_wise_summary`: the aggregates, renamed to the summary's columns. */
  function BuildingSummary(rows: seq<Row>): seq<SummaryRow>
  {
    var gs := BuildingStats(rows);
    seq(|gs|, i requires 0 <= i < |gs| => ToSummaryRow(gs[i]))
  }

  lemma BuildingStatsSpec(rows: seq<Row>)
    ensures var gs := BuildingStats(rows);
      && Sorted(gs, StrLess)
      && Keys(gs) == Buildings(rows)
      && (forall g :: g in gs ==> Summarises(g, rows, BuildingKey, StartStats, AddStats))
  {
    StrLessIsOrder();
    AggregateSpec(rows, BuildingKey, StrLess, StartStats, AddStats);
    RowKeysOfBuildingKey(rows);
  }

  /** The summary has one row per distinct building, sorted by name, and no other row. */
  lemma SummaryHasOneRowPerBuilding(rows: seq<Row>)
    ensures var summary := BuildingSummary(rows);
      && |summary| == |Buildings(rows)|
      && (forall i, j :: 0 <= i < j < |summary| ==> StrLess(summary[i].building, summary[j].building))
      && (forall i :: 0 <= i < |summary| ==> summary[i].building in Buildings(rows))
  {
    var gs := BuildingStats(rows);
    var summary := BuildingSummary(rows);
    BuildingStatsSpec(rows);
    StrLessIsOrder();
    SortedKeysCount(gs, StrLess);
    forall i | 0 <= i < |summary| ensures summary[i].building in Buildings(rows) {
      assert gs[i] in gs;
    }
  }

  /** Every building of the table has its row in the summary. */
  lemma SummaryCoversBuilding(rows: seq<Row>, b: string)
    requires b in Buildings(rows)
    ensures exists i :: 0 <= i < |BuildingSummary(rows)| && BuildingSummary(rows)[i].building == b
  {
    var gs := BuildingStats(rows);
    BuildingStatsSpec(rows);
    var g :| g in gs && g.key == b;
    var i :| 0 <= i < |gs| && gs[i] == g;
    assert BuildingSummary(rows)[i].building == b;
  }

  /**
   * Each summary row holds the mean, min, max and sum of its building's kwh,
   * with min_kwh <= avg_kwh <= max_kwh and avg_kwh = total_kwh / count.
   */
  lemma SummaryRowDescribesBuilding(rows: seq<Row>, i: nat)
    requires i < |BuildingSummary(rows)|
    ensures Describes(BuildingSummary(rows)[i], Where(rows, BuildingKey, BuildingSummary(rows)[i].building))
  {
    var gs := BuildingStats(rows);
    BuildingStatsSpec(rows);
    assert gs[i] in gs;
    SummaryRowDescribes(gs[i], Where(rows, BuildingKey, gs[i].key));
  }

  /** Sum of the total_kwh column of the summary table. */
  function SummaryTotal(summary: seq<SummaryRow>): int
  {
    if |summary| == 0 then 0 else SummaryTotal(summary[..|summary| - 1]) + summary[|summary| - 1].totalKwh
  }

  function AnyBuilding(b: string): bool { true }

  /** The summary's totals add up to the whole table's consumption. */
  lemma SummaryConserves(rows: seq<Row>)
    ensures SummaryTotal(BuildingSummary(rows)) == SumKwh(rows)
  {
    var gs := BuildingStats(rows);
    AggregateConserves(rows, BuildingKey, StrLess, StartStats, AddStats, AnyBuilding, StatsTotal);
    SumWhereAll(rows);
    SummaryTotalOfStats(gs);
  }

  lemma {:induction false} SumWhereAll(rows: seq<Row>)
    ensures SumWhere(rows, BuildingKey, AnyBuilding) == SumKwh(rows)
    decreases |rows|
  {
    if |rows| > 0 { SumWhereAll(rows[..|rows| - 1]); }
  }

  lemma {:induction false} SummaryTotalOfStats(gs: seq<Group<string, Stats>>)
    ensures SummaryTotal(seq(|gs|, i requires 0 <= i < |gs| => ToSummaryRow(gs[i])))
            == SumSelected(gs, AnyBuilding, StatsTotal)
    decreases |gs|
  {
    if |gs| > 0 {
      var pre := gs[..|gs| - 1];
      SummaryTotalOfStats(pre);
      var s := seq(|gs|, i requires 0 <= i < |gs| => ToSummaryRow(gs[i]));
      assert s[..|s| - 1] == seq(|pre|, i requires 0 <= i < |pre| => ToSummaryRow(pre[i]));
    }
  }
}
