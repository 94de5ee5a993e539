/** The analysis engine (analysisEngine.py): reads the activity log (given
    as its CSV rows) and computes, per event column, the mean and the
    Bessel-corrected variance of the values logged. The standard deviation the
    source writes is the square root of that variance. */
module AnalysisEngine {
  import opened Wrappers
  import opened PyBuiltins

  /** The two `ValueError`s the analysis raises. */
  datatype AnalysisError =
    | EmptyLog        // no header row
    | NoDataRows      // no non-blank row after the header

  /** One output row: event name, mean and variance of its sample. */
  datatype BaselineRow = BaselineRow(name: string, mean: real, variance: real)

  // ---------------------------------------------------------------------
  // Which values each event collects
  // ---------------------------------------------------------------------

  /** The event names: the header without its first (`day`) column. */
  function EventNames(header: seq<string>): seq<string> {
    if header == [] then [] else header[1..]
  }

  /** What one cell contributes: nothing when it is blank after stripping or
      does not parse as a number, otherwise its value. */
  function CellValue(cell: string, parseReal: RealParser): (vs: seq<real>)
    ensures |vs| <= 1
    ensures vs != [] ==> Strip(cell) != "" && parseReal(Strip(cell)) == Some(vs[0])
  {
    var text := Strip(cell);
    if text == "" then []
    else match parseReal(text)
      case None => []
      case Some(v) => [v]
  }

  /** How many event columns of a non-blank row are read: a row shorter than
      the header stops at its last cell. */
  function Processed(row: seq<string>, names: seq<string>): (c: nat)
    requires row != []
    ensures c <= |names| && c < |row|
    ensures c == |names| || c == |row| - 1
  {
    if |row| - 1 < |names| then |row| - 1 else |names|
  }

  /** The values the first `c` event columns of `row` append to the list of
      `name`. */
  function RowSample(row: seq<string>, names: seq<string>, name: string, c: nat, parseReal: RealParser): seq<real>
    requires c <= |names| && c < |row|
  {
    if c == 0 then []
    else
      RowSample(row, names, name, c - 1, parseReal)
        + (if names[c - 1] == name then CellValue(row[c], parseReal) else [])
  }

  /** The values that the data rows append to the list of `name`, in order;
      blank rows add nothing. */
  function ColumnSample(rows: seq<seq<string>>, names: seq<string>, name: string, parseReal: RealParser): seq<real> {
    if rows == [] then []
    else
      var row := rows[|rows| - 1];
      ColumnSample(rows[..|rows| - 1], names, name, parseReal)
        + (if row == [] then [] else RowSample(row, names, name, Processed(row, names), parseReal))
  }

  /** `total_days`: the number of non-blank data rows. */
  function DataRows(rows: seq<seq<string>>): nat {
    if rows == [] then 0
    else DataRows(rows[..|rows| - 1]) + (if rows[|rows| - 1] == [] then 0 else 1)
  }

  // ---------------------------------------------------------------------
  // Mean and variance
  // ---------------------------------------------------------------------

  function Sum(s: seq<real>): real {
    if s == [] then 0.0 else Sum(s[..|s| - 1]) + s[|s| - 1]
  }

  /** `sum((x - mean) ** 2 for x in data)` */
  function SquaredDeviations(s: seq<real>, mean: real): (r: real)
    ensures r >= 0.0
  {
    if s == [] then 0.0
    else
      var d := s[|s| - 1] - mean;
      assert d * d >= 0.0;
      SquaredDeviations(s[..|s| - 1], mean) + d * d
  }

  /** Mean and variance of a sample: 0 and 0 for an empty one; the mean and 0
      for a single value; otherwise `sum / n` and the squared deviations over
      `n - 1`. */
  function Moments(data: seq<real>): (r: (real, real))
    ensures data == [] ==> r == (0.0, 0.0)
    ensures |data| == 1 ==> r == (data[0], 0.0)
    ensures r.1 >= 0.0
  {
    if data == [] then (0.0, 0.0)
    else
      var n := |data|;
      var mean := Sum(data) / n as real;
      if n > 1 then (mean, SquaredDeviations(data, mean) / (n - 1) as real)
      else
        assert data[..0] == [];
        assert Sum(data) == data[0] && (n as real) == 1.0;
        assert mean == data[0];
        (mean, 0.0)
  }

  /** The output row of an event with sample `data`. */
  function BaselineOf(name: string, data: seq<real>): BaselineRow {
    var m := Moments(data);
    BaselineRow(name, m.0, m.1)
  }

  /** A sum of values in [lo, hi] lies between `n * lo` and `n * hi`. */
  lemma {:induction false} SumBounds(s: seq<real>, lo: real, hi: real)
    requires forall i :: 0 <= i < |s| ==> lo <= s[i] <= hi
    ensures |s| as real * lo <= Sum(s) <= |s| as real * hi
  {
    if s != [] {
      var m := (|s| - 1) as real;
      SumBounds(s[..|s| - 1], lo, hi);
      assert |s| as real * lo == m * lo + lo && |s| as real * hi == m * hi + hi;
    }
  }

  /** The mean lies between the smallest and the largest value. */
  lemma MeanBetween(data: seq<real>, lo: real, hi: real)
    requires data != []
    requires forall i :: 0 <= i < |data| ==> lo <= data[i] <= hi
    ensures lo <= Moments(data).0 <= hi
  {
    SumBounds(data, lo, hi);
    var n := |data| as real;
    assert Moments(data).0 == Sum(data) / n;
    QuotientBetween(Sum(data), n, lo, hi);
  }

  /** A total between `n * lo` and `n * hi`, divided by `n`, lies between
      `lo` and `hi`. */
  lemma QuotientBetween(total: real, n: real, lo: real, hi: real)
    requires n > 0.0 && n * lo <= total <= n * hi
    ensures lo <= total / n <= hi
  {
    var q := total / n;
    assert total == n * q;
    assert n * (q - lo) >= 0.0;
    assert n * (hi - q) >= 0.0;
  }

  /** The sum of a sample of one repeated value. */
  lemma {:induction false} SumConstant(s: seq<real>, c: real)
    requires forall i :: 0 <= i < |s| ==> s[i] == c
    ensures Sum(s) == |s| as real * c
  {
    if s != [] {
      SumConstant(s[..|s| - 1], c);
    }
  }

  /** The squared deviations of a sample of one repeated value from it. */
  lemma {:induction false} DeviationsConstant(s: seq<real>, c: real)
    requires forall i :: 0 <= i < |s| ==> s[i] == c
    ensures SquaredDeviations(s, c) == 0.0
  {
    if s != [] {
      DeviationsConstant(s[..|s| - 1], c);
    }
  }

  /** A sample of one repeated value has that value as mean and no variance. */
  lemma ConstantSample(data: seq<real>, c: real)
    requires data != []
    requires forall i :: 0 <= i < |data| ==> data[i] == c
    ensures Moments(data) == (c, 0.0)
  {
    SumConstant(data, c);
    DeviationsConstant(data, c);
    var n := |data| as real;
    assert Sum(data) / n == c;
  }

  // ---------------------------------------------------------------------
  // Properties of the collected samples
  // ---------------------------------------------------------------------

  /** With distinct column names, one row gives each event at most one value. */
  lemma {:induction false} RowSampleAtMostOne(row: seq<string>, names: seq<string>, name: string, c: nat, parseReal: RealParser)
    requires Distinct(names) && c <= |names| && c < |row|
    ensures |RowSample(row, names, name, c, parseReal)| <= 1
    ensures name !in names[..c] ==> RowSample(row, names, name, c, parseReal) == []
  {
    if c > 0 {
      RowSampleAtMostOne(row, names, name, c - 1, parseReal);
      assert names[..c] == names[..c - 1] + [names[c - 1]];
      if names[c - 1] == name {
        assert name !in names[..c - 1];
      }
    }
  }

  /** With distinct column names, no event collects more values than there
      are non-blank data rows. (A name repeated in the header collects from
      every column it heads, so it can.) */
  lemma {:induction false} SampleAtMostDataRows(rows: seq<seq<string>>, names: seq<string>, name: string, parseReal: RealParser)
    requires Distinct(names)
    ensures |ColumnSample(rows, names, name, parseReal)| <= DataRows(rows)
  {
    if rows != [] {
      var row := rows[|rows| - 1];
      SampleAtMostDataRows(rows[..|rows| - 1], names, name, parseReal);
      if row != [] {
        RowSampleAtMostOne(row, names, name, Processed(row, names), parseReal);
      }
    }
  }

  /** A repeated column name collects from both columns: one row gives it
      two values. */
  lemma RepeatedNameCollectsTwice(parseReal: RealParser)
    requires parseReal("2") == Some(2.0) && parseReal("3") == Some(3.0)
    ensures ColumnSample([["1", "2", "3"]], ["a", "a"], "a", parseReal) == [2.0, 3.0]
    ensures DataRows([["1", "2", "3"]]) == 1
  {
    var row, names := ["1", "2", "3"], ["a", "a"];
    assert [row][..0] == [];
    assert Strip("2") == "2" by { assert !IsSpace('2'); }
    assert Strip("3") == "3" by { assert !IsSpace('3'); }
    assert RowSample(row, names, "a", 1, parseReal) == [2.0];
    assert RowSample(row, names, "a", 2, parseReal) == [2.0, 3.0];
    assert Processed(row, names) == 2;
  }

  /** Blank rows, wherever they are, neither count as days nor add values. */
  lemma {:induction false} BlankRowIgnored(front: seq<seq<string>>, back: seq<seq<string>>, names: seq<string>, name: string, parseReal: RealParser)
    ensures ColumnSample(front + [[]] + back, names, name, parseReal) == ColumnSample(front + back, names, name, parseReal)
    ensures DataRows(front + [[]] + back) == DataRows(front + back)
  {
    if back == [] {
      assert front + [[]] + back == front + [[]];
      assert front + back == front;
      ColumnSampleSnoc(front, [], names, name, parseReal);
    } else {
      var init := back[..|back| - 1];
      var last := back[|back| - 1];
      BlankRowIgnored(front, init, names, name, parseReal);
      assert back == init + [last];
      assert front + [[]] + back == (front + [[]] + init) + [last];
      assert front + back == (front + init) + [last];
      ColumnSampleSnoc(front + [[]] + init, last, names, name, parseReal);
      ColumnSampleSnoc(front + init, last, names, name, parseReal);
    }
  }

  /** One more row for `ColumnSample` and `DataRows`. */
  lemma ColumnSampleSnoc(rows: seq<seq<string>>, row: seq<string>, names: seq<string>, name: string, parseReal: RealParser)
    ensures ColumnSample(rows + [row], names, name, parseReal) ==
      ColumnSample(rows, names, name, parseReal) + (if row == [] then [] else RowSample(row, names, name, Processed(row, names), parseReal))
    ensures DataRows(rows + [row]) == DataRows(rows) + (if row == [] then 0 else 1)
  {
    assert (rows + [row])[..|rows|] == rows;
  }

  /** A row shorter than the header stops collecting at its last cell: an
      event whose every column lies past that cell gets nothing from it. */
  lemma {:induction false} ShortRowStops(row: seq<string>, names: seq<string>, name: string, c: nat, parseReal: RealParser)
    requires c <= |names| && c < |row|
    requires forall k :: 0 <= k < |names| && names[k] == name ==> k + 1 >= |row|
    ensures RowSample(row, names, name, c, parseReal) == []
  {
    if c > 0 {
      ShortRowStops(row, names, name, c - 1, parseReal);
    }
  }

  /** A full row whose cell under a distinct column holds a number gives
      that column's event exactly that number. */
  lemma RowGivesCell(row: seq<string>, names: seq<string>, k: nat, parseReal: RealParser)
    requires Distinct(names) && k < |names| && |names| < |row|
    requires Strip(row[k + 1]) != "" && parseReal(Strip(row[k + 1])).Some?
    ensures RowSample(row, names, names[k], Processed(row, names), parseReal) == [parseReal(Strip(row[k + 1])).value]
  {
    var v := parseReal(Strip(row[k + 1])).value;
    assert CellValue(row[k + 1], parseReal) == [v];
    RowGivesCellUpTo(row, names, k, |names|, parseReal, v);
  }

  /** The same over the first `c` columns, for a cell that gives `v`. */
  lemma {:induction false} RowGivesCellUpTo(row: seq<string>, names: seq<string>, k: nat, c: nat, parseReal: RealParser, v: real)
    requires Distinct(names) && k < c <= |names| && c < |row|
    requires CellValue(row[k + 1], parseReal) == [v]
    ensures RowSample(row, names, names[k], c, parseReal) == [v]
  {
    RowSampleStep(row, names, names[k], c, parseReal, CellValue(row[c], parseReal));
    if c - 1 == k {
      assert names[k] !in names[..k];
      RowSampleAtMostOne(row, names, names[k], k, parseReal);
    } else {
      assert names[c - 1] != names[k];
      RowGivesCellUpTo(row, names, k, c - 1, parseReal, v);
    }
  }

  // ---------------------------------------------------------------------
  // analyze_activity_log
  // ---------------------------------------------------------------------

  /** `analyze_activity_log`, returning the rows the source writes (with the
      variance in place of its square root). The log needs a header and at
      least one non-blank data row; blank, short, empty and non-numeric cells
      never raise. One output row per header event, in header order. */
  method AnalyzeActivityLog(rows: seq<seq<string>>, parseReal: RealParser) returns (r: Result<seq<BaselineRow>, AnalysisError>)
    ensures rows == [] <==> r == Failure(EmptyLog)
    ensures rows != [] && DataRows(rows[1..]) == 0 <==> r == Failure(NoDataRows)
    ensures r.Success? ==>
      var names := EventNames(rows[0]);
      && |r.value| == |names|
      && forall k :: 0 <= k < |names| ==> r.value[k] == BaselineOf(names[k], ColumnSample(rows[1..], names, names[k], parseReal))
  {
    if rows == [] {
      return Failure(EmptyLog);
    }
    var names := EventNames(rows[0]);
    var values, totalDays := CollectSamples(rows[1..], names, parseReal);
    if totalDays == 0 {
      return Failure(NoDataRows);
    }
    var out := Summarize(names, values);
    return Success(out);
  }

  /** The `for row in reader` loop: counts the non-blank rows and appends
      each event's values to its list. */
  method CollectSamples(data: seq<seq<string>>, names: seq<string>, parseReal: RealParser)
    returns (values: map<string, seq<real>>, totalDays: nat)
    ensures totalDays == DataRows(data)
    ensures forall n :: n in names ==> n in values && values[n] == ColumnSample(data, names, n, parseReal)
  {
    values := map n | n in names :: [];
    totalDays := 0;
    var i := 0;
    while i < |data|
      invariant 0 <= i <= |data|
      invariant totalDays == DataRows(data[..i])
      invariant forall n :: n in names ==> n in values && values[n] == ColumnSample(data[..i], names, n, parseReal)
    {
      var row := data[i];
      assert data[..i + 1][..i] == data[..i];
      if row != [] {
        totalDays := totalDays + 1;
        values := CollectRow(row, names, values, parseReal);
      }
      i := i + 1;
    }
    assert data[..i] == data;
  }

  /** The `for col_index, event_name in enumerate(event_names, start=1)`
      loop over one non-blank row: it stops at the end of a short row and
      skips blank and non-numeric cells. */
  method CollectRow(row: seq<string>, names: seq<string>, values: map<string, seq<real>>, parseReal: RealParser)
    returns (values': map<string, seq<real>>)
    requires row != []
    requires forall n :: n in names ==> n in values
    ensures forall n :: n in names ==>
      n in values' && values'[n] == values[n] + RowSample(row, names, n, Processed(row, names), parseReal)
  {
    values' := values;
    var col := 1;
    while col <= |names|
      invariant 1 <= col <= |names| + 1 && col <= |row|
      invariant CollectedUpTo(values', values, row, names, col - 1, parseReal)
    {
      if col >= |row| {
        break;
      }
      ghost var before := values';
      values' := CollectCell(row[col], names[col - 1], values', parseReal);
      CollectStep(values, before, values', row, names, col, parseReal);
      col := col + 1;
    }
    assert col - 1 == Processed(row, names);
  }

  /** One pass of the column loop: a blank or non-numeric cell is skipped,
      a number is appended to the list of the column's event. */
  method CollectCell(cell: string, name: string, values: map<string, seq<real>>, parseReal: RealParser)
    returns (values': map<string, seq<real>>)
    requires name in values
    ensures var vs := CellValue(cell, parseReal);
      values' == if vs == [] then values else values[name := values[name] + vs]
  {
    values' := values;
    var text := Strip(cell);
    if text != "" {
      var parsed := parseReal(text);
      if parsed.Some? {
        values' := values[name := values[name] + [parsed.value]];
      }
    }
  }

  /** The lists after the first `c` event columns of `row`: each event's
      list has grown by the values those columns give it. */
  ghost predicate CollectedUpTo(current: map<string, seq<real>>, values: map<string, seq<real>>, row: seq<string>,
                                names: seq<string>, c: nat, parseReal: RealParser)
    requires c <= |names| && c < |row|
  {
    forall n :: n in names ==> n in values && n in current && current[n] == values[n] + RowSample(row, names, n, c, parseReal)
  }

  /** Column `c` appends its cell's value, if any, to the list of its event. */
  lemma CollectStep(values: map<string, seq<real>>, before: map<string, seq<real>>, after: map<string, seq<real>>,
                    row: seq<string>, names: seq<string>, c: nat, parseReal: RealParser)
    requires 1 <= c <= |names| && c < |row|
    requires CollectedUpTo(before, values, row, names, c - 1, parseReal)
    requires var vs := CellValue(row[c], parseReal);
      after == if vs == [] then before else before[names[c - 1] := before[names[c - 1]] + vs]
    ensures CollectedUpTo(after, values, row, names, c, parseReal)
  {
    forall n | n in names
      ensures n in values && n in after && after[n] == values[n] + RowSample(row, names, n, c, parseReal)
    {
      CollectStepAt(values, before, after, row, names, c, parseReal, n);
    }
  }

  /** The list of one event after column `c`. */
  lemma CollectStepAt(values: map<string, seq<real>>, before: map<string, seq<real>>, after: map<string, seq<real>>,
                      row: seq<string>, names: seq<string>, c: nat, parseReal: RealParser, n: string)
    requires 1 <= c <= |names| && c < |row|
    requires n in values && n in before && names[c - 1] in before
    requires before[n] == values[n] + RowSample(row, names, n, c - 1, parseReal)
    requires var vs := CellValue(row[c], parseReal);
      after == if vs == [] then before else before[names[c - 1] := before[names[c - 1]] + vs]
    ensures n in after && after[n] == values[n] + RowSample(row, names, n, c, parseReal)
  {
    var vs := CellValue(row[c], parseReal);
    RowSampleStep(row, names, n, c, parseReal, vs);
    if n != names[c - 1] || vs == [] {
      assert after[n] == before[n];
    }
  }

  /** `RowSample` over one more column. */
  lemma RowSampleStep(row: seq<string>, names: seq<string>, name: string, c: nat, parseReal: RealParser, vs: seq<real>)
    requires 1 <= c <= |names| && c < |row|
    requires vs == CellValue(row[c], parseReal)
    ensures RowSample(row, names, name, c, parseReal) ==
      RowSample(row, names, name, c - 1, parseReal) + (if names[c - 1] == name then vs else [])
  {
  }

  /** The `for event_name in event_names` loop: one output row per header
      event, in header order. */
  method Summarize(names: seq<string>, values: map<string, seq<real>>) returns (out: seq<BaselineRow>)
    requires forall n :: n in names ==> n in values
    ensures |out| == |names|
    ensures forall k :: 0 <= k < |names| ==> out[k] == BaselineOf(names[k], values[names[k]])
  {
    out := [];
    var k := 0;
    while k < |names|
      invariant 0 <= k <= |names|
      invariant |out| == k
      invariant forall j :: 0 <= j < k ==> out[j] == BaselineOf(names[j], values[names[j]])
    {
      var data := values[names[k]];
      var mean, variance;
      if data == [] {
        mean, variance := 0.0, 0.0;
      } else {
        var n := |data|;
        mean := Sum(data) / n as real;
        if n > 1 {
          variance := SquaredDeviations(data, mean) / (n - 1) as real;
        } else {
          variance := 0.0;
        }
      }
      assert BaselineOf(names[k], data) == BaselineRow(names[k], mean, variance);
      out := out + [BaselineRow(names[k], mean, variance)];
      k := k + 1;
    }
  }
}
