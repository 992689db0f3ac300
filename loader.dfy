/**
 * Data ingestion (`load_and_combine_data`): every CSV file that read_csv
 * could parse is tagged with the building label taken from its file name,
 * the frames are concatenated, the timestamp column is coerced, and the
 * rows missing a timestamp or a kwh value are dropped.
 */
module Loader {
  import opened Wrappers
  import opened Meter

  /** One line of a CSV file as read_csv yields it: the timestamp text and the kwh cell (None: missing). */
  datatype CsvLine = CsvLine(timestamp: string, kwh: Option<int>)

  /** A file matched by the glob: its stem and what read_csv made of it (None: read_csv raised). */
  datatype CsvFile = CsvFile(stem: string, parsed: Option<seq<CsvLine>>)

  /** A row of the concatenated frame, before timestamp coercion. */
  datatype TaggedLine = TaggedLine(timestamp: string, kwh: Option<int>, building: string)

  /** A row after `pd.to_datetime(errors='coerce')`: an unparseable timestamp is None (NaT). */
  datatype CoercedRow = CoercedRow(timestamp: Option<Timestamp>, kwh: Option<int>, building: string)

  /** `stem.split('_')[0]`: the part of the stem before its first underscore. */
  function BuildingLabel(stem: string): (name: string)
    ensures |name| <= |stem| && name == stem[..|name|]
    ensures '_' !in name
    ensures |name| < |stem| ==> stem[|name|] == '_'
    ensures '_' !in stem ==> name == stem
  {
    if |stem| == 0 || stem[0] == '_' then ""
    else [stem[0]] + BuildingLabel(stem[1..])
  }

  /** The label is the only prefix free of underscores that ends the stem or stops at an underscore. */
  lemma {:induction false} BuildingLabelUnique(stem: string, p: string)
    requires |p| <= |stem| && p == stem[..|p|]
    requires '_' !in p
    requires |p| == |stem| || stem[|p|] == '_'
    ensures p == BuildingLabel(stem)
  {
    var name := BuildingLabel(stem);
    assert |p| == |name|;
  }

  /** `df['building'] = building`: the label is attached to every line of the file. */
  function Tag(lines: seq<CsvLine>, building: string): (t: seq<TaggedLine>)
    ensures |t| == |lines|
    ensures forall i :: 0 <= i < |t| ==>
      t[i] == TaggedLine(lines[i].timestamp, lines[i].kwh, building)
  {
    if |lines| == 0 then []
    else Tag(lines[..|lines| - 1], building)
         + [TaggedLine(lines[|lines| - 1].timestamp, lines[|lines| - 1].kwh, building)]
  }

  /** The frames appended to `dfs`: one per file that read_csv parsed, in glob order; failed files are skipped. */
  function Frames(files: seq<CsvFile>): seq<seq<TaggedLine>>
  {
    if |files| == 0 then []
    else
      var f := files[|files| - 1];
      Frames(files[..|files| - 1])
        + (match f.parsed case Some(lines) => [Tag(lines, BuildingLabel(f.stem))] case None => [])
  }

  /** `pd.concat(dfs, ignore_index=True)`. */
  function Concat(frames: seq<seq<TaggedLine>>): seq<TaggedLine>
  {
    if |frames| == 0 then [] else Concat(frames[..|frames| - 1]) + frames[|frames| - 1]
  }

  /** `pd.to_datetime(combined['timestamp'], errors='coerce')`, with the parser as a parameter. */
  function Coerce(rows: seq<TaggedLine>, parse: string -> Option<Timestamp>): (c: seq<CoercedRow>)
    ensures |c| == |rows|
    ensures forall i :: 0 <= i < |c| ==>
      c[i] == CoercedRow(parse(rows[i].timestamp), rows[i].kwh, rows[i].building)
  {
    if |rows| == 0 then []
    else
      var r := rows[|rows| - 1];
      Coerce(rows[..|rows| - 1], parse) + [CoercedRow(parse(r.timestamp), r.kwh, r.building)]
  }

  /** A row survives `dropna(subset=['timestamp', 'kwh'])`. */
  predicate Complete(c: CoercedRow)
  {
    c.timestamp.Some? && c.kwh.Some?
  }

  function ToRow(c: CoercedRow): Row
    requires Complete(c)
  {
    Row(c.timestamp.value, c.kwh.value, c.building)
  }

  /** `dropna(subset=['timestamp', 'kwh'])`: the complete rows, in their order. */
  function Clean(rows: seq<CoercedRow>): seq<Row>
  {
    if |rows| == 0 then []
    else
      var c := rows[|rows| - 1];
      Clean(rows[..|rows| - 1]) + (if Complete(c) then [ToRow(c)] else [])
  }

  /** The cleaned table that `load_and_combine_data` returns. */
  function Combined(files: seq<CsvFile>, parse: string -> Option<Timestamp>): seq<Row>
  {
    Clean(Coerce(Concat(Frames(files)), parse))
  }

  /**
   * The loader: collects the frames of the parsed files, returns the empty
   * table when there are none, and otherwise concatenates, coerces the
   * timestamps and drops the incomplete rows.
   */
  method LoadAndCombine(files: seq<CsvFile>, parse: string -> Option<Timestamp>) returns (combined: seq<Row>)
    ensures combined == Combined(files, parse)
  {
    var dfs: seq<seq<TaggedLine>> := [];
    var i := 0;
    while i < |files|
      invariant 0 <= i <= |files|
      invariant dfs == Frames(files[..i])
    {
      var f := files[i];
      assert files[..i + 1] == files[..i] + [f];
      match f.parsed {
        case Some(lines) =>
          dfs := dfs + [Tag(lines, BuildingLabel(f.stem))];
        case None =>
      }
      i := i + 1;
    }
    assert files[..|files|] == files;
    if |dfs| == 0 {
      return [];
    }
    var coerced := Coerce(Concat(dfs), parse);
    combined := [];
    var j := 0;
    while j < |coerced|
      invariant 0 <= j <= |coerced|
      invariant combined == Clean(coerced[..j])
    {
      assert coerced[..j + 1] == coerced[..j] + [coerced[j]];
      if Complete(coerced[j]) {
        combined := combined + [ToRow(coerced[j])];
      }
      j := j + 1;
    }
    assert coerced[..|coerced|] == coerced;
  }

  // Properties of the cleaning step.

  lemma {:induction false} CleanAppend(a: seq<CoercedRow>, b: seq<CoercedRow>)
    ensures Clean(a + b) == Clean(a) + Clean(b)
    decreases |b|
  {
    if |b| == 0 {
      assert a + b == a;
    } else {
      assert (a + b)[..|a + b| - 1] == a + b[..|b| - 1];
      CleanAppend(a, b[..|b| - 1]);
    }
  }

  /** A row is in the cleaned table exactly when a complete row with those values was in the input. */
  lemma {:induction false} CleanKeepsExactlyComplete(rows: seq<CoercedRow>, t: Timestamp, k: int, b: string)
    ensures Row(t, k, b) in Clean(rows) <==> CoercedRow(Some(t), Some(k), b) in rows
    decreases |rows|
  {
    if |rows| > 0 {
      var pre := rows[..|rows| - 1];
      assert rows == pre + [rows[|rows| - 1]];
      CleanKeepsExactlyComplete(pre, t, k, b);
    }
  }

  /** Every cleaned row comes from a complete input row, so cleaning never adds anything. */
  lemma {:induction false} CleanRowsComeFromInput(rows: seq<CoercedRow>)
    ensures forall r :: r in Clean(rows) ==>
      CoercedRow(Some(r.timestamp), Some(r.kwh), r.building) in rows
  {
    forall r | r in Clean(rows)
      ensures CoercedRow(Some(r.timestamp), Some(r.kwh), r.building) in rows
    {
      CleanKeepsExactlyComplete(rows, r.timestamp, r.kwh, r.building);
    }
  }

  /** Cleaning never lengthens the table, and keeps its length exactly when every row is complete. */
  lemma {:induction false} CleanLength(rows: seq<CoercedRow>)
    ensures |Clean(rows)| <= |rows|
    ensures |Clean(rows)| == |rows| <==> forall i :: 0 <= i < |rows| ==> Complete(rows[i])
    decreases |rows|
  {
    if |rows| > 0 {
      var pre := rows[..|rows| - 1];
      CleanLength(pre);
      if !Complete(rows[|rows| - 1]) {
        assert |Clean(rows)| < |rows|;
      } else {
        assert forall i :: 0 <= i < |pre| ==> pre[i] == rows[i];
      }
    }
  }

  /** On complete rows, cleaning only strips the missing-value markers. */
  lemma {:induction false} CleanOfCompleteRows(rows: seq<CoercedRow>)
    requires forall i :: 0 <= i < |rows| ==> Complete(rows[i])
    ensures |Clean(rows)| == |rows|
    ensures forall i :: 0 <= i < |rows| ==> Clean(rows)[i] == ToRow(rows[i])
    decreases |rows|
  {
    if |rows| > 0 {
      CleanOfCompleteRows(rows[..|rows| - 1]);
    }
  }

  /** The combined table is the cleaned rows of each parsed file, file after file. */
  lemma {:induction false} CombinedIsPerFile(files: seq<CsvFile>, parse: string -> Option<Timestamp>)
    ensures |files| > 0 ==>
      Combined(files, parse) == Combined(files[..|files| - 1], parse)
        + (match files[|files| - 1].parsed
           case Some(lines) => Clean(Coerce(Tag(lines, BuildingLabel(files[|files| - 1].stem)), parse))
           case None => [])
  {
    if |files| > 0 {
      var pre := files[..|files| - 1];
      var f := files[|files| - 1];
      match f.parsed {
        case Some(lines) =>
          var t := Tag(lines, BuildingLabel(f.stem));
          assert Frames(files) == Frames(pre) + [t];
          var fs := Frames(pre) + [t];
          assert fs[..|fs| - 1] == Frames(pre);
          assert Concat(Frames(files)) == Concat(Frames(pre)) + t;
          CoerceAppend(Concat(Frames(pre)), t, parse);
          CleanAppend(Coerce(Concat(Frames(pre)), parse), Coerce(t, parse));
        case None =>
          assert Frames(files) == Frames(pre);
      }
    }
  }

  lemma CoerceAppend(a: seq<TaggedLine>, b: seq<TaggedLine>, parse: string -> Option<Timestamp>)
    ensures Coerce(a + b, parse) == Coerce(a, parse) + Coerce(b, parse)
  {
    var l, r := Coerce(a + b, parse), Coerce(a, parse) + Coerce(b, parse);
    assert |l| == |r|;
    forall i | 0 <= i < |l| ensures l[i] == r[i] {
      if i < |a| { assert (a + b)[i] == a[i]; } else { assert (a + b)[i] == b[i - |a|]; }
    }
  }

  /** Every line of a parsed file with a parseable timestamp and a kwh value reaches the combined table. */
  lemma {:induction false} CombinedRowsFromFile(files: seq<CsvFile>, parse: string -> Option<Timestamp>,
                                                n: nat, line: CsvLine)
    requires n < |files| && files[n].parsed.Some? && line in files[n].parsed.value
    ensures (parse(line.timestamp).Some? && line.kwh.Some?) ==>
      Row(parse(line.timestamp).value, line.kwh.value, BuildingLabel(files[n].stem)) in Combined(files, parse)
    decreases |files|
  {
    var pre := files[..|files| - 1];
    var f := files[|files| - 1];
    CombinedIsPerFile(files, parse);
    if parse(line.timestamp).Some? && line.kwh.Some? {
      if n < |files| - 1 {
        assert pre[n] == files[n];
        CombinedRowsFromFile(pre, parse, n, line);
      } else {
        LineSurvivesCleaning(f.parsed.value, BuildingLabel(f.stem), parse, line);
      }
    }
  }

  /** A complete line of a parsed file reaches that file's cleaned frame. */
  lemma LineSurvivesCleaning(lines: seq<CsvLine>, building: string, parse: string -> Option<Timestamp>, line: CsvLine)
    requires line in lines && parse(line.timestamp).Some? && line.kwh.Some?
    ensures Row(parse(line.timestamp).value, line.kwh.value, building) in Clean(Coerce(Tag(lines, building), parse))
  {
    var t := Coerce(Tag(lines, building), parse);
    var i :| 0 <= i < |lines| && lines[i] == line;
    assert t[i] == CoercedRow(Some(parse(line.timestamp).value), Some(line.kwh.value), building);
    CleanKeepsExactlyComplete(t, parse(line.timestamp).value, line.kwh.value, building);
  }

  /** Conversely, every row of the combined table comes from such a line of a parsed file, with its label. */
  lemma {:induction false} CombinedRowFromLoadedFile(files: seq<CsvFile>, parse: string -> Option<Timestamp>, r: Row)
    requires r in Combined(files, parse)
    ensures exists n, line :: (0 <= n < |files| && files[n].parsed.Some? && line in files[n].parsed.value
      && parse(line.timestamp) == Some(r.timestamp) && line.kwh == Some(r.kwh)
      && r.building == BuildingLabel(files[n].stem))
    decreases |files|
  {
    CombinedIsPerFile(files, parse);
    if |files| > 0 {
      var pre := files[..|files| - 1];
      var f := files[|files| - 1];
      if r in Combined(pre, parse) {
        CombinedRowFromLoadedFile(pre, parse, r);
        var n, line :| 0 <= n < |pre| && pre[n].parsed.Some? && line in pre[n].parsed.value
          && parse(line.timestamp) == Some(r.timestamp) && line.kwh == Some(r.kwh)
          && r.building == BuildingLabel(pre[n].stem);
        assert files[n] == pre[n];
      } else {
        var lines := f.parsed.value;
        var t := Coerce(Tag(lines, BuildingLabel(f.stem)), parse);
        CleanRowsComeFromInput(t);
        var i :| 0 <= i < |t| && t[i] == CoercedRow(Some(r.timestamp), Some(r.kwh), r.building);
        assert lines[i] in files[|files| - 1].parsed.value;
      }
    }
  }

  /** The positions of a table's complete rows. */
  function CompleteIndices(rows: seq<CoercedRow>): set<int>
  {
    set i | 0 <= i < |rows| && Complete(rows[i])
  }

  /** Cleaning keeps one row per complete input row, and only those. */
  lemma {:induction false} CleanCount(rows: seq<CoercedRow>)
    ensures |Clean(rows)| == |CompleteIndices(rows)|
    decreases |rows|
  {
    if |rows| > 0 {
      var pre := rows[..|rows| - 1];
      CleanCount(pre);
      var last := if Complete(rows[|rows| - 1]) then {|pre|} else {};
      assert CompleteIndices(rows) == CompleteIndices(pre) + last;
      assert |pre| !in CompleteIndices(pre);
    }
  }

  /** The positions of a file's lines whose timestamp parses and whose kwh is present. */
  function ValidLines(lines: seq<CsvLine>, parse: string -> Option<Timestamp>): set<int>
  {
    set i | 0 <= i < |lines| && parse(lines[i].timestamp).Some? && lines[i].kwh.Some?
  }

  /** The number of valid lines over all files that read_csv parsed. */
  function ValidLineCount(files: seq<CsvFile>, parse: string -> Option<Timestamp>): nat
  {
    if |files| == 0 then 0
    else
      var f := files[|files| - 1];
      ValidLineCount(files[..|files| - 1], parse)
        + (match f.parsed case Some(lines) => |ValidLines(lines, parse)| case None => 0)
  }

  /** The combined table has exactly one row per valid line of the parsed files. */
  lemma {:induction false} CombinedCount(files: seq<CsvFile>, parse: string -> Option<Timestamp>)
    ensures |Combined(files, parse)| == ValidLineCount(files, parse)
    decreases |files|
  {
    CombinedIsPerFile(files, parse);
    if |files| > 0 {
      var f := files[|files| - 1];
      CombinedCount(files[..|files| - 1], parse);
      if f.parsed.Some? {
        var lines := f.parsed.value;
        var t := Coerce(Tag(lines, BuildingLabel(f.stem)), parse);
        CleanCount(t);
        assert CompleteIndices(t) == ValidLines(lines, parse);
      }
    } else {
      assert Frames(files) == [];
    }
  }
}
