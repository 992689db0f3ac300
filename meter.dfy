/**
 * The cleaned combined table of the dashboard pipeline: one row per meter
 * reading with the columns timestamp, kwh and building, together with the
 * sums and the string order that the later stages share.
 */
module Meter {

  /** An instant as pandas parses it; the model only uses its order. */
  type Timestamp = int

  /** One row of the cleaned table. */
  datatype Row = Row(timestamp: Timestamp, kwh: int, building: string)

  /** The `building` column of a row, as a key function. */
  function BuildingKey(r: Row): string { r.building }

  /** The `kwh` column of a row, as a function. */
  function KwhOf(r: Row): int { r.kwh }

  /** Sum of the kwh column, added left to right as Python's sum does. */
  function SumKwh(rows: seq<Row>): int
  {
    if |rows| == 0 then 0 else SumKwh(rows[..|rows| - 1]) + rows[|rows| - 1].kwh
  }

  /** The distinct building labels that occur in the table. */
  function Buildings(rows: seq<Row>): set<string>
  {
    set r | r in rows :: r.building
  }

  lemma {:induction false} SumKwhAppend(a: seq<Row>, b: seq<Row>)
    ensures SumKwh(a + b) == SumKwh(a) + SumKwh(b)
    decreases |b|
  {
    if |b| == 0 {
      assert a + b == a;
    } else {
      assert (a + b)[..|a + b| - 1] == a + b[..|b| - 1];
      SumKwhAppend(a, b[..|b| - 1]);
    }
  }

  /**
   * Python's `<` on str: code point by code point, a proper prefix coming
   * first. This is the order in which pandas' groupby lists building keys.
   */
  predicate StrLess(a: string, b: string)
  {
    if |a| == 0 then |b| > 0
    else if |b| == 0 then false
    else if a[0] != b[0] then a[0] < b[0]
    else StrLess(a[1..], b[1..])
  }

  lemma {:induction false} StrLessIrreflexive(a: string)
    ensures !StrLess(a, a)
    decreases |a|
  {
    if |a| > 0 { StrLessIrreflexive(a[1..]); }
  }

  lemma {:induction false} StrLessTransitive(a: string, b: string, c: string)
    requires StrLess(a, b) && StrLess(b, c)
    ensures StrLess(a, c)
    decreases |a|
  {
    if |a| > 0 && |b| > 0 && |c| > 0 && a[0] == b[0] && b[0] == c[0] {
      StrLessTransitive(a[1..], b[1..], c[1..]);
    }
  }

  lemma StrLessAsymmetric(a: string, b: string)
    requires StrLess(a, b)
    ensures !StrLess(b, a)
  {
    if StrLess(b, a) {
      StrLessTransitive(a, b, a);
      StrLessIrreflexive(a);
    }
  }

  lemma {:induction false} StrLessTotal(a: string, b: string)
    ensures a == b || StrLess(a, b) || StrLess(b, a)
    decreases |a|
  {
    if |a| > 0 && |b| > 0 && a[0] == b[0] {
      StrLessTotal(a[1..], b[1..]);
      if a[1..] == b[1..] {
        assert a == [a[0]] + a[1..] && b == [b[0]] + b[1..];
      }
    }
  }
}
