/** The alert engine (alertEngine.py): reading the baseline and the live
    log (each given as its CSV rows), the daily anomaly scores and the
    ALERT/OK verdict. */
module AlertEngine {
  import opened Wrappers
  import opened PyBuiltins
  import opened Dicts
  import opened InitialInput
  import AnalysisEngine

  /** A baseline entry `(mean, std)`. */
  datatype BaselineEntry = BaselineEntry(mean: real, std: real)

  /** The exceptions the two readers raise. */
  datatype ReadError =
    | NoHeaderRow               // `next(reader)` on an empty file
    | NoDayCell                 // `row[0]` of a blank log row
    | NotANumber(text: string)  // `float(cell)` or `int(cell)` fails

  // ---------------------------------------------------------------------
  // load_baseline
  // ---------------------------------------------------------------------

  /** `baseline[name] = (float(row[1]), float(row[2]))` for one row of at
      least three cells. */
  function BaselineRowEntry(row: seq<string>, parseReal: RealParser): (r: Result<(string, BaselineEntry), ReadError>)
    requires |row| >= 3
    ensures r.Success? <==> parseReal(row[1]).Some? && parseReal(row[2]).Some?
    ensures r.Success? ==> r.value == (row[0], BaselineEntry(parseReal(row[1]).value, parseReal(row[2]).value))
  {
    match parseReal(row[1])
    case None => Failure(NotANumber(row[1]))
    case Some(mean) =>
      match parseReal(row[2])
      case None => Failure(NotANumber(row[2]))
      case Some(std) => Success((row[0], BaselineEntry(mean, std)))
  }

  /** The `for row in reader` loop of `load_baseline` over the data rows:
      rows of fewer than three cells are skipped. */
  function StoreBaselineRows(rows: seq<seq<string>>, parseReal: RealParser): (r: Result<Dict<string, BaselineEntry>, ReadError>)
    ensures r.Success? ==> r.value.Valid()
  {
    if rows == [] then Success(Empty())
    else
      var row := rows[|rows| - 1];
      match StoreBaselineRows(rows[..|rows| - 1], parseReal)
      case Failure(err) => Failure(err)
      case Success(d) =>
        if |row| < 3 then Success(d)
        else match BaselineRowEntry(row, parseReal)
          case Failure(err) => Failure(err)
          case Success(p) => Success(Put(d, p.0, p.1))
  }

  /** `load_baseline(file)`: the header row is skipped. */
  function Baseline(file: seq<seq<string>>, parseReal: RealParser): Result<Dict<string, BaselineEntry>, ReadError> {
    if file == [] then Failure(NoHeaderRow) else StoreBaselineRows(file[1..], parseReal)
  }

  /** No later row of at least three cells has the same name as row `i`. */
  ghost predicate LastFullRowNamed(rows: seq<seq<string>>, i: int)
    requires 0 <= i < |rows| && |rows[i]| >= 3
  {
    forall j :: i < j < |rows| && |rows[j]| >= 3 ==> rows[j][0] != rows[i][0]
  }

  /** Reading succeeds exactly when both numbers of every row of at least
      three cells parse. */
  lemma {:induction false} BaselineRowsSucceed(rows: seq<seq<string>>, parseReal: RealParser)
    ensures StoreBaselineRows(rows, parseReal).Success? <==>
      forall i :: 0 <= i < |rows| && |rows[i]| >= 3 ==> BaselineRowEntry(rows[i], parseReal).Success?
  {
    if rows != [] {
      var init := rows[..|rows| - 1];
      BaselineRowsSucceed(init, parseReal);
      assert forall i :: 0 <= i < |init| ==> init[i] == rows[i];
    }
  }

  /** Every row of at least three cells is stored under its name, the last
      such row with a name giving its entry. */
  lemma {:induction false} BaselineRowsStored(rows: seq<seq<string>>, parseReal: RealParser)
    requires StoreBaselineRows(rows, parseReal).Success?
    ensures forall i :: 0 <= i < |rows| && |rows[i]| >= 3 ==> BaselineRowEntry(rows[i], parseReal).Success?
    ensures var d := StoreBaselineRows(rows, parseReal).value;
      forall i :: 0 <= i < |rows| && |rows[i]| >= 3 ==> rows[i][0] in d.entries
    ensures var d := StoreBaselineRows(rows, parseReal).value;
      forall i :: 0 <= i < |rows| && |rows[i]| >= 3 && LastFullRowNamed(rows, i) ==>
        d.entries[rows[i][0]] == BaselineRowEntry(rows[i], parseReal).value.1
  {
    if rows != [] {
      var init := rows[..|rows| - 1];
      BaselineRowsStored(init, parseReal);
      assert forall i :: 0 <= i < |init| ==> init[i] == rows[i];
      var d := StoreBaselineRows(rows, parseReal).value;
      forall i | 0 <= i < |rows| && |rows[i]| >= 3 && LastFullRowNamed(rows, i)
        ensures d.entries[rows[i][0]] == BaselineRowEntry(rows[i], parseReal).value.1
      {
        if i < |init| {
          assert LastFullRowNamed(init, i);
        }
      }
    }
  }

  /** Every stored entry is what some row of at least three cells reads as;
      shorter rows leave no trace. */
  lemma {:induction false} BaselineRowsFrom(rows: seq<seq<string>>, parseReal: RealParser, n: string)
    requires StoreBaselineRows(rows, parseReal).Success?
    requires n in StoreBaselineRows(rows, parseReal).value.entries
    ensures var d := StoreBaselineRows(rows, parseReal).value;
      exists i :: 0 <= i < |rows| && |rows[i]| >= 3 && BaselineRowEntry(rows[i], parseReal) == Success((n, d.entries[n]))
  {
    var init := rows[..|rows| - 1];
    var row := rows[|rows| - 1];
    var r := StoreBaselineRows(rows, parseReal).value;
    if |row| >= 3 && n == row[0] {
      assert BaselineRowEntry(rows[|rows| - 1], parseReal) == Success((n, r.entries[n]));
    } else {
      var d := StoreBaselineRows(init, parseReal).value;
      assert n in d.entries && r.entries[n] == d.entries[n];
      BaselineRowsFrom(init, parseReal, n);
      var i :| 0 <= i < |init| && |init[i]| >= 3 && BaselineRowEntry(init[i], parseReal) == Success((n, d.entries[n]));
      assert rows[i] == init[i];
    }
  }

  /** `load_baseline`. */
  method LoadBaseline(file: seq<seq<string>>, parseReal: RealParser) returns (r: Result<Dict<string, BaselineEntry>, ReadError>)
    ensures r == Baseline(file, parseReal)
  {
    if file == [] {
      return Failure(NoHeaderRow);
    }
    var rows := file[1..];
    var baseline := Empty();
    var i := 0;
    while i < |rows|
      invariant 0 <= i <= |rows|
      invariant StoreBaselineRows(rows[..i], parseReal) == Success(baseline)
    {
      var row := rows[i];
      assert rows[..i + 1][..i] == rows[..i];
      if |row| >= 3 {
        var mean := parseReal(row[1]);
        if mean.None? {
          StorePrefixFailure(rows, parseReal, i + 1);
          return Failure(NotANumber(row[1]));
        }
        var std := parseReal(row[2]);
        if std.None? {
          StorePrefixFailure(rows, parseReal, i + 1);
          return Failure(NotANumber(row[2]));
        }
        baseline := Put(baseline, row[0], BaselineEntry(mean.value, std.value));
      }
      i := i + 1;
    }
    assert rows[..i] == rows;
    return Success(baseline);
  }

  /** A failure on a prefix of the rows is the failure of all of them. */
  lemma {:induction false} StorePrefixFailure(rows: seq<seq<string>>, parseReal: RealParser, k: nat)
    requires k <= |rows|
    requires StoreBaselineRows(rows[..k], parseReal).Failure?
    ensures StoreBaselineRows(rows, parseReal) == StoreBaselineRows(rows[..k], parseReal)
  {
    if k < |rows| {
      var init := rows[..|rows| - 1];
      assert init[..k] == rows[..k];
      StorePrefixFailure(init, parseReal, k);
    } else {
      assert rows[..k] == rows;
    }
  }

  // ---------------------------------------------------------------------
  // load_log_values
  // ---------------------------------------------------------------------

  /** `list(map(float, cells))`: the first cell that is not a number raises. */
  function ParseAll(cells: seq<string>, parseReal: RealParser): (r: Result<seq<real>, ReadError>)
    ensures r.Success? <==> forall k :: 0 <= k < |cells| ==> parseReal(cells[k]).Some?
    ensures r.Success? ==> |r.value| == |cells| && forall k :: 0 <= k < |cells| ==> parseReal(cells[k]) == Some(r.value[k])
  {
    if cells == [] then Success([])
    else
      var init := cells[..|cells| - 1];
      assert forall k :: 0 <= k < |init| ==> init[k] == cells[k];
      match ParseAll(init, parseReal)
      case Failure(err) => Failure(err)
      case Success(vs) =>
        match parseReal(cells[|cells| - 1])
        case None => Failure(NotANumber(cells[|cells| - 1]))
        case Some(v) => Success(vs + [v])
  }

  /** `zip(names, values)`: pairs up to the shorter of the two. */
  function Zip(names: seq<string>, values: seq<real>): (z: seq<(string, real)>)
    ensures |z| == (if |names| < |values| then |names| else |values|)
    ensures forall k :: 0 <= k < |z| ==> z[k] == (names[k], values[k])
  {
    if names == [] || values == [] then []
    else [(names[0], values[0])] + Zip(names[1..], values[1..])
  }

  /** `day = int(row[0])`, `days[day] = dict(zip(event_names, values))`
      for one data row. */
  function LogRowEntry(row: seq<string>, names: seq<string>, parseInt: IntParser, parseReal: RealParser)
    : (r: Result<(int, Dict<string, real>), ReadError>)
    ensures r.Success? <==>
      row != [] && parseInt(row[0]).Some? && forall k :: 1 <= k < |row| ==> parseReal(row[k]).Some?
    ensures r.Success? ==> row != [] && parseInt(row[0]) == Some(r.value.0) && r.value.1.Valid()
  {
    if row == [] then Failure(NoDayCell)
    else match parseInt(row[0])
      case None => Failure(NotANumber(row[0]))
      case Some(day) =>
        match ParseAll(row[1..], parseReal)
        case Failure(err) => Failure(err)
        case Success(values) => Success((day, FromPairs(Zip(names, values))))
  }

  function LogRow(names: seq<string>, parseInt: IntParser, parseReal: RealParser): seq<string> -> Result<(int, Dict<string, real>), ReadError> {
    row => LogRowEntry(row, names, parseInt, parseReal)
  }

  /** `load_log_values(file)`: the event names are the header without its
      first (`day`) column; each data row is stored under its day. */
  function LogDays(file: seq<seq<string>>, parseInt: IntParser, parseReal: RealParser)
    : Result<Dict<int, Dict<string, real>>, ReadError>
  {
    if file == [] then Failure(NoHeaderRow)
    else
      match ReadPairs(file[1..], LogRow(AnalysisEngine.EventNames(file[0]), parseInt, parseReal))
      case Failure(err) => Failure(err)
      case Success(pairs) => Success(FromPairs(pairs))
  }

  /** The values of one day: the first `min(len(names), len(values))` names
      are its keys, and a name gets the value under its last such column. */
  lemma DayValues(names: seq<string>, values: seq<real>, k: int)
    requires 0 <= k < |names| && k < |values|
    ensures names[k] in FromPairs(Zip(names, values)).entries
    ensures (forall j :: k < j < |names| && j < |values| ==> names[j] != names[k]) ==>
      FromPairs(Zip(names, values)).entries[names[k]] == values[k]
  {
    var z := Zip(names, values);
    assert z[k].0 == names[k];
    assert names[k] in KeysOf(z);
    if forall j :: k < j < |names| && j < |values| ==> names[j] != names[k] {
      assert IsLastWithKey(z, k);
      FromPairsLastWins(z, k);
    }
  }

  /** Only the first `min(len(names), len(values))` names become keys. */
  lemma DayKeys(names: seq<string>, values: seq<real>, n: string)
    requires n in FromPairs(Zip(names, values)).entries
    ensures exists k :: 0 <= k < |names| && k < |values| && names[k] == n
  {
    var z := Zip(names, values);
    FromPairsEntry(z, n);
    var k :| 0 <= k < |z| && z[k] == (n, FromPairs(z).entries[n]);
    assert names[k] == n;
  }

  /** In a row that reads, the event heading column `k + 1` is a key of the
      day, holding that cell's number unless a later cell of the row falls
      under the same name. */
  lemma LogRowValues(row: seq<string>, names: seq<string>, parseInt: IntParser, parseReal: RealParser, k: int)
    requires LogRowEntry(row, names, parseInt, parseReal).Success?
    requires 0 <= k < |names| && k + 1 < |row|
    ensures var day := LogRowEntry(row, names, parseInt, parseReal).value.1;
      && names[k] in day.entries
      && ((forall j :: k < j < |names| && j + 1 < |row| ==> names[j] != names[k]) ==>
            Some(day.entries[names[k]]) == parseReal(row[k + 1]))
  {
    var values := ParseAll(row[1..], parseReal).value;
    assert row[1..][k] == row[k + 1];
    DayValues(names, values, k);
  }

  /** A day read from a row has no key but the names of the columns the row
      fills. */
  lemma LogRowKeys(row: seq<string>, names: seq<string>, parseInt: IntParser, parseReal: RealParser, n: string)
    requires LogRowEntry(row, names, parseInt, parseReal).Success?
    requires n in LogRowEntry(row, names, parseInt, parseReal).value.1.entries
    ensures exists k :: 0 <= k < |names| && k + 1 < |row| && names[k] == n
  {
    var values := ParseAll(row[1..], parseReal).value;
    DayKeys(names, values, n);
  }

  /** Reading the log succeeds exactly when there is a header and every data
      row has a day number and only numeric values. */
  lemma LogDaysSucceed(file: seq<seq<string>>, parseInt: IntParser, parseReal: RealParser)
    ensures LogDays(file, parseInt, parseReal).Success? <==>
      file != [] && forall i :: 1 <= i < |file| ==> LogRowEntry(file[i], AnalysisEngine.EventNames(file[0]), parseInt, parseReal).Success?
  {
    if file != [] {
      var data := file[1..];
      ReadPairsEach(data, LogRow(AnalysisEngine.EventNames(file[0]), parseInt, parseReal));
      assert forall i :: 1 <= i < |file| ==> file[i] == data[i - 1];
    }
  }

  /** Each data row `file[1..][i]` is stored under its day, the last row of
      a day winning. */
  lemma LogDaysLastRowWins(file: seq<seq<string>>, parseInt: IntParser, parseReal: RealParser, i: int)
    requires file != [] && 0 <= i < |file| - 1
    requires LogDays(file, parseInt, parseReal).Success?
    ensures var read, data := LogRow(AnalysisEngine.EventNames(file[0]), parseInt, parseReal), file[1..];
      && (forall j :: 0 <= j < |data| ==> read(data[j]).Success?)
      && read(data[i]).value.0 in LogDays(file, parseInt, parseReal).value.entries
      && (LastItemWithKey(data, read, i) ==>
            LogDays(file, parseInt, parseReal).value.entries[read(data[i]).value.0] == read(data[i]).value.1)
  {
    StoredLastWins(file[1..], LogRow(AnalysisEngine.EventNames(file[0]), parseInt, parseReal), i);
  }

  /** Every day read from the log is a well-formed dict, as the scoring
      expects. */
  lemma LogDaysAreValid(file: seq<seq<string>>, parseInt: IntParser, parseReal: RealParser)
    requires LogDays(file, parseInt, parseReal).Success?
    ensures ValidDays(LogDays(file, parseInt, parseReal).value)
  {
    var names := AnalysisEngine.EventNames(file[0]);
    var read := LogRow(names, parseInt, parseReal);
    var days := LogDays(file, parseInt, parseReal).value;
    forall d | d in days.entries ensures days.entries[d].Valid() {
      StoredFromItems(file[1..], read, d);
      var i :| 0 <= i < |file[1..]| && read(file[1..][i]) == Success((d, days.entries[d]));
      assert LogRowEntry(file[1..][i], names, parseInt, parseReal).Success?;
    }
  }

  /** `load_log_values`. */
  method LoadLogValues(file: seq<seq<string>>, parseInt: IntParser, parseReal: RealParser)
    returns (r: Result<Dict<int, Dict<string, real>>, ReadError>)
    ensures r == LogDays(file, parseInt, parseReal)
  {
    if file == [] {
      return Failure(NoHeaderRow);
    }
    var names := AnalysisEngine.EventNames(file[0]);
    r := StorePairs(file[1..], LogRow(names, parseInt, parseReal));
  }

  // ---------------------------------------------------------------------
  // compute_anomaly_scores and the verdict
  // ---------------------------------------------------------------------

  /** `events[name]` raised `KeyError`: a name with a baseline entry and a
      live value is not an event. */
  datatype ScoreError = UnknownEvent(name: string)

  /** The summed weight of the names that are events (others add nothing). */
  function Weight(names: seq<string>, events: map<string, Event>): int {
    if names == [] then 0
    else
      var n := names[|names| - 1];
      Weight(names[..|names| - 1], events) + (if n in events then events[n].weight else 0)
  }

  /** `threshold = 2 * sum(ev.weight for ev in events.values())` */
  function Threshold(events: Dict<string, Event>): int {
    2 * Weight(events.keys, events.entries)
  }

  /** `z`: 0 for a zero standard deviation, `|v - mean| / std` otherwise. */
  function ZScore(v: real, b: BaselineEntry): real {
    if b.std == 0.0 then 0.0 else Abs(v - b.mean) / b.std
  }

  /** What one name adds to the day's score: `z * weight`. */
  function Contribution(v: real, b: BaselineEntry, e: Event): real {
    ZScore(v, b) * e.weight as real
  }

  /** The score of one day over its names in order: a name without a
      baseline entry is skipped; one with an entry adds `z * weight`, and
      raises if it is not an event. */
  function DayScore(names: seq<string>, values: map<string, real>, baseline: map<string, BaselineEntry>,
                    events: map<string, Event>): Result<real, ScoreError>
    requires forall n :: n in names ==> n in values
  {
    if names == [] then Success(0.0)
    else
      var n := names[|names| - 1];
      match DayScore(names[..|names| - 1], values, baseline, events)
      case Failure(err) => Failure(err)
      case Success(score) =>
        if n !in baseline then Success(score)
        else if n !in events then Failure(UnknownEvent(n))
        else Success(score + Contribution(values[n], baseline[n], events[n]))
  }

  /** One more name for `DayScore`. */
  lemma DayScoreStep(names: seq<string>, values: map<string, real>, baseline: map<string, BaselineEntry>,
                     events: map<string, Event>, i: nat)
    requires forall n :: n in names ==> n in values
    requires i < |names|
    ensures var n, before := names[i], DayScore(names[..i], values, baseline, events);
      DayScore(names[..i + 1], values, baseline, events) ==
        if before.Failure? || n !in baseline then before
        else if n !in events then Failure(UnknownEvent(n))
        else Success(before.value + Contribution(values[n], baseline[n], events[n]))
  {
    assert names[..i + 1][..i] == names[..i];
  }

  /** Bounds on what one name adds, given a non-negative weight. */
  lemma ContributionBounds(v: real, b: BaselineEntry, e: Event)
    requires e.weight >= 0
    ensures b.std >= 0.0 ==> Contribution(v, b, e) >= 0.0
    ensures ZScore(v, b) <= 2.0 ==> Contribution(v, b, e) <= 2.0 * e.weight as real
    ensures ZScore(v, b) < 2.0 && e.weight > 0 ==> Contribution(v, b, e) < 2.0 * e.weight as real
    ensures e.weight == 0 ==> Contribution(v, b, e) == 0.0
  {
    var z, w := ZScore(v, b), e.weight as real;
    assert Contribution(v, b, e) == z * w;
    if b.std > 0.0 {
      assert z >= 0.0;
    }
    if z <= 2.0 {
      assert z * w <= 2.0 * w;
    }
    if z < 2.0 && w > 0.0 {
      assert z * w < 2.0 * w;
    }
  }

  /** A day is scored exactly when each of its names that has a baseline
      entry is an event; otherwise the error names one that is not. */
  lemma {:induction false} DayScoreSucceeds(names: seq<string>, values: map<string, real>,
                                             baseline: map<string, BaselineEntry>, events: map<string, Event>)
    requires forall n :: n in names ==> n in values
    ensures DayScore(names, values, baseline, events).Success? <==>
      forall n :: n in names && n in baseline ==> n in events
    ensures var r := DayScore(names, values, baseline, events);
      r.Failure? ==> r.error.name in names && r.error.name in baseline && r.error.name !in events
  {
    if names != [] {
      var init := names[..|names| - 1];
      DayScoreSucceeds(init, values, baseline, events);
      assert names == init + [names[|names| - 1]];
    }
  }

  /** With non-negative standard deviations and weights, a score is never
      negative. */
  lemma {:induction false} DayScoreNonNegative(names: seq<string>, values: map<string, real>,
                                                baseline: map<string, BaselineEntry>, events: map<string, Event>)
    requires forall n :: n in names ==> n in values
    requires forall n :: n in baseline ==> baseline[n].std >= 0.0
    requires forall n :: n in events ==> events[n].weight >= 0
    requires DayScore(names, values, baseline, events).Success?
    ensures DayScore(names, values, baseline, events).value >= 0.0
  {
    if names != [] {
      var init := names[..|names| - 1];
      var n := names[|names| - 1];
      DayScoreStep(names, values, baseline, events, |names| - 1);
      assert names[..|names|] == names;
      assert DayScore(init, values, baseline, events).Success?;
      DayScoreNonNegative(init, values, baseline, events);
      if n in baseline && n in events {
        ContributionBounds(values[n], baseline[n], events[n]);
      }
    }
  }

  /** A day whose every value equals its baseline mean scores 0, whatever
      the weights. */
  lemma {:induction false} DayScoreAtMeans(names: seq<string>, values: map<string, real>,
                                            baseline: map<string, BaselineEntry>, events: map<string, Event>)
    requires forall n :: n in names ==> n in values
    requires forall n :: n in names && n in baseline ==> values[n] == baseline[n].mean
    requires DayScore(names, values, baseline, events).Success?
    ensures DayScore(names, values, baseline, events).value == 0.0
  {
    if names != [] {
      var n := names[|names| - 1];
      DayScoreAtMeans(names[..|names| - 1], values, baseline, events);
      if n in baseline {
        assert values[n] - baseline[n].mean == 0.0;
        assert ZScore(values[n], baseline[n]) == 0.0;
        if n in events {
          assert Contribution(values[n], baseline[n], events[n]) == 0.0;
        }
      }
    }
  }

  /** The live value of a name without a baseline entry, or with a zero
      standard deviation, does not change the day's score. */
  lemma {:induction false} IgnoredValueIrrelevant(names: seq<string>, values: map<string, real>,
                                                   baseline: map<string, BaselineEntry>, events: map<string, Event>,
                                                   n: string, v: real)
    requires forall m :: m in names ==> m in values
    requires n !in baseline || baseline[n].std == 0.0
    ensures DayScore(names, values[n := v], baseline, events) == DayScore(names, values, baseline, events)
  {
    if names != [] {
      var m := names[|names| - 1];
      IgnoredValueIrrelevant(names[..|names| - 1], values, baseline, events, n, v);
      if m in baseline {
        assert ZScore(values[n := v][m], baseline[m]) == ZScore(values[m], baseline[m]);
        if m in events {
          assert Contribution(values[n := v][m], baseline[m], events[m]) == Contribution(values[m], baseline[m], events[m]);
        }
      }
    }
  }

  /** With non-negative weights, a day whose every z-score is at most 2
      scores at most twice the weight of its names. */
  lemma {:induction false} DayScoreWithinTwo(names: seq<string>, values: map<string, real>,
                                              baseline: map<string, BaselineEntry>, events: map<string, Event>)
    requires forall n :: n in names ==> n in values
    requires forall n :: n in events ==> events[n].weight >= 0
    requires forall n :: n in names && n in baseline ==> ZScore(values[n], baseline[n]) <= 2.0
    requires DayScore(names, values, baseline, events).Success?
    ensures DayScore(names, values, baseline, events).value <= 2.0 * Weight(names, events) as real
  {
    if names != [] {
      var init := names[..|names| - 1];
      var n := names[|names| - 1];
      DayScoreStep(names, values, baseline, events, |names| - 1);
      assert names[..|names|] == names;
      assert DayScore(init, values, baseline, events).Success?;
      DayScoreWithinTwo(init, values, baseline, events);
      if n in baseline && n in events {
        ContributionBounds(values[n], baseline[n], events[n]);
      }
      assert Weight(names, events) >= Weight(init, events);
    }
  }

  /** `Weight` over a concatenation. */
  lemma {:induction false} WeightAppend(a: seq<string>, b: seq<string>, events: map<string, Event>)
    ensures Weight(a + b, events) == Weight(a, events) + Weight(b, events)
  {
    if b != [] {
      var init := b[..|b| - 1];
      WeightAppend(a, init, events);
      assert (a + b)[..|a + b| - 1] == a + init;
    } else {
      assert a + b == a;
    }
  }

  /** With non-negative weights, distinct names weigh no more than the event
      names. */
  lemma {:induction false} WeightOfSubset(a: seq<string>, b: seq<string>, events: map<string, Event>)
    requires Distinct(a) && Distinct(b)
    requires forall n :: n in a && n in events ==> n in b
    requires forall n :: n in events ==> events[n].weight >= 0
    ensures Weight(a, events) <= Weight(b, events)
  {
    if b == [] {
      WeightNonNegative(a, events);
      WeightOfNonEvents(a, events);
    } else {
      var init := b[..|b| - 1];
      var x := b[|b| - 1];
      if k :| 0 <= k < |a| && a[k] == x {
        var rest := a[..k] + a[k + 1..];
        WeightRemove(a, k, events);
        DistinctRemove(a, k);
        WeightOfSubset(rest, init, events);
      } else {
        forall n | n in a && n in events ensures n in init {
          assert n != x;
        }
        WeightOfSubset(a, init, events);
        WeightNonNegative([x], events);
      }
    }
  }

  /** Taking one name out of a list takes its weight out of the total. */
  lemma WeightRemove(a: seq<string>, k: nat, events: map<string, Event>)
    requires k < |a|
    ensures Weight(a, events) == Weight(a[..k] + a[k + 1..], events) + (if a[k] in events then events[a[k]].weight else 0)
  {
    var x := a[k];
    assert a == a[..k] + [x] + a[k + 1..];
    WeightAppend(a[..k] + [x], a[k + 1..], events);
    WeightAppend(a[..k], [x], events);
    WeightAppend(a[..k], a[k + 1..], events);
    assert Weight([x], events) == (if x in events then events[x].weight else 0) by {
      assert [x][..0] == [];
    }
  }

  lemma {:induction false} WeightNonNegative(a: seq<string>, events: map<string, Event>)
    requires forall n :: n in events ==> events[n].weight >= 0
    ensures Weight(a, events) >= 0
  {
    if a != [] {
      WeightNonNegative(a[..|a| - 1], events);
    }
  }

  lemma {:induction false} WeightOfNonEvents(a: seq<string>, events: map<string, Event>)
    requires forall n :: n in a ==> n !in events
    ensures Weight(a, events) == 0
  {
    if a != [] {
      WeightOfNonEvents(a[..|a| - 1], events);
    }
  }

  /** The verdict printed for a day. */
  datatype Verdict = Alert | Ok

  /** `ALERT` if `score >= threshold`, otherwise `OK`. */
  function Decide(score: real, threshold: int): Verdict {
    if score >= threshold as real then Alert else Ok
  }

  /** The score of a live day, over its names in the order they were read. */
  function Score(day: Dict<string, real>, baseline: Dict<string, BaselineEntry>, events: Dict<string, Event>): Result<real, ScoreError>
    requires day.Valid()
  {
    DayScore(day.keys, day.entries, baseline.entries, events.entries)
  }

  /** A day whose values all equal their baseline means gets `OK` as soon as
      the total weight is positive, and `ALERT` when it is zero or negative. */
  lemma AtMeansVerdict(day: Dict<string, real>, baseline: Dict<string, BaselineEntry>, events: Dict<string, Event>)
    requires day.Valid()
    requires forall n :: n in day.keys && n in baseline.entries ==> day.entries[n] == baseline.entries[n].mean
    requires Score(day, baseline, events).Success?
    ensures Decide(Score(day, baseline, events).value, Threshold(events)) == Ok <==> Threshold(events) > 0
  {
    DayScoreAtMeans(day.keys, day.entries, baseline.entries, events.entries);
  }

  /** With non-negative weights, a day whose every z-score is at most 2 never
      scores above the threshold. */
  lemma WithinTwoAtMostThreshold(day: Dict<string, real>, baseline: Dict<string, BaselineEntry>, events: Dict<string, Event>)
    requires day.Valid() && events.Valid()
    requires forall n :: n in events.entries ==> events.entries[n].weight >= 0
    requires forall n :: n in day.keys && n in baseline.entries ==> ZScore(day.entries[n], baseline.entries[n]) <= 2.0
    requires Score(day, baseline, events).Success?
    ensures Score(day, baseline, events).value <= Threshold(events) as real
  {
    DayScoreWithinTwo(day.keys, day.entries, baseline.entries, events.entries);
    WeightOfSubset(day.keys, events.keys, events.entries);
  }

  /** With non-negative weights and a positive threshold, a day whose every
      z-score is below 2 gets `OK`. */
  lemma BelowTwoIsOk(day: Dict<string, real>, baseline: Dict<string, BaselineEntry>, events: Dict<string, Event>)
    requires day.Valid() && events.Valid()
    requires forall n :: n in events.entries ==> events.entries[n].weight >= 0
    requires forall n :: n in day.keys && n in baseline.entries ==> ZScore(day.entries[n], baseline.entries[n]) < 2.0
    requires Threshold(events) > 0
    requires Score(day, baseline, events).Success?
    ensures Decide(Score(day, baseline, events).value, Threshold(events)) == Ok
  {
    DayScoreBelowTwo(day.keys, day.entries, baseline.entries, events.entries);
    WeightOfSubset(day.keys, events.keys, events.entries);
  }

  /** With non-negative weights, a day whose every z-score is below 2 scores
      0 or strictly less than twice the weight of its names. */
  lemma {:induction false} DayScoreBelowTwo(names: seq<string>, values: map<string, real>,
                                             baseline: map<string, BaselineEntry>, events: map<string, Event>)
    requires forall n :: n in names ==> n in values
    requires forall n :: n in events ==> events[n].weight >= 0
    requires forall n :: n in names && n in baseline ==> ZScore(values[n], baseline[n]) < 2.0
    requires DayScore(names, values, baseline, events).Success?
    ensures var score := DayScore(names, values, baseline, events).value;
      score <= 2.0 * Weight(names, events) as real && (score == 0.0 || score < 2.0 * Weight(names, events) as real)
  {
    if names != [] {
      var init := names[..|names| - 1];
      var n := names[|names| - 1];
      DayScoreStep(names, values, baseline, events, |names| - 1);
      assert names[..|names|] == names;
      assert DayScore(init, values, baseline, events).Success?;
      DayScoreBelowTwo(init, values, baseline, events);
      if n in baseline && n in events {
        ContributionBounds(values[n], baseline[n], events[n]);
      }
      assert Weight(names, events) >= Weight(init, events);
    }
  }

  /** Every live day is well formed. */
  ghost predicate ValidDays(liveDays: Dict<int, Dict<string, real>>) {
    && liveDays.Valid()
    && forall d :: d in liveDays.entries ==> liveDays.entries[d].Valid()
  }

  /** Day `d` is scored in `scores`, with the common threshold. */
  ghost predicate ScoredDay(d: int, liveDays: Dict<int, Dict<string, real>>, baseline: Dict<string, BaselineEntry>,
                            events: Dict<string, Event>, scores: Dict<int, (real, int)>)
    requires ValidDays(liveDays) && d in liveDays.entries
  {
    var score := Score(liveDays.entries[d], baseline, events);
    && score.Success?
    && d in scores.entries
    && scores.entries[d] == (score.value, Threshold(events))
  }

  /** `compute_anomaly_scores(events, baseline, live_days)`: one entry
      `(score, threshold)` per live day, in the live days' order, with the
      same threshold for every day; it raises exactly when some day has a
      name with a baseline entry that is not an event. */
  method ComputeAnomalyScores(events: Dict<string, Event>, baseline: Dict<string, BaselineEntry>,
                              liveDays: Dict<int, Dict<string, real>>)
    returns (r: Result<Dict<int, (real, int)>, ScoreError>)
    requires ValidDays(liveDays)
    ensures r.Success? <==> forall d :: d in liveDays.entries ==> Score(liveDays.entries[d], baseline, events).Success?
    ensures r.Success? ==> r.value.keys == liveDays.keys
    ensures r.Success? ==> forall d :: d in liveDays.entries ==> ScoredDay(d, liveDays, baseline, events, r.value)
    ensures r.Failure? ==> r.error.name in baseline.entries && r.error.name !in events.entries
  {
    var threshold := Threshold(events);
    var scores := Empty();
    var i := 0;
    while i < |liveDays.keys|
      invariant 0 <= i <= |liveDays.keys|
      invariant scores.Valid() && scores.keys == liveDays.keys[..i]
      invariant forall k :: 0 <= k < i ==> ScoredDay(liveDays.keys[k], liveDays, baseline, events, scores)
    {
      var d := liveDays.keys[i];
      var score := ScoreDay(liveDays.entries[d], baseline, events);
      if score.Failure? {
        DayScoreSucceeds(liveDays.entries[d].keys, liveDays.entries[d].entries, baseline.entries, events.entries);
        return Failure(score.error);
      }
      ScoredDaysExtend(liveDays, baseline, events, scores, i, score.value);
      scores := Put(scores, d, (score.value, threshold));
      i := i + 1;
    }
    assert liveDays.keys[..i] == liveDays.keys;
    forall d | d in liveDays.entries ensures ScoredDay(d, liveDays, baseline, events, scores) {
      var k :| 0 <= k < |liveDays.keys| && liveDays.keys[k] == d;
    }
    r := Success(scores);
  }

  /** Storing the score of the next live day keeps the days scored so far
      and adds that one, in the live days' order. */
  lemma ScoredDaysExtend(liveDays: Dict<int, Dict<string, real>>, baseline: Dict<string, BaselineEntry>,
                         events: Dict<string, Event>, scores: Dict<int, (real, int)>, i: nat, score: real)
    requires ValidDays(liveDays) && i < |liveDays.keys|
    requires scores.Valid() && scores.keys == liveDays.keys[..i]
    requires forall k :: 0 <= k < i ==> ScoredDay(liveDays.keys[k], liveDays, baseline, events, scores)
    requires liveDays.keys[i] in liveDays.entries && liveDays.entries[liveDays.keys[i]].Valid()
    requires Score(liveDays.entries[liveDays.keys[i]], baseline, events) == Success(score)
    ensures var after := Put(scores, liveDays.keys[i], (score, Threshold(events)));
      && after.Valid() && after.keys == liveDays.keys[..i + 1]
      && forall k :: 0 <= k < i + 1 ==> ScoredDay(liveDays.keys[k], liveDays, baseline, events, after)
  {
    var d := liveDays.keys[i];
    assert d !in liveDays.keys[..i];
    assert d !in scores.entries;
    assert liveDays.keys[..i + 1] == liveDays.keys[..i] + [d];
    var after := Put(scores, d, (score, Threshold(events)));
    forall k | 0 <= k < i + 1 ensures ScoredDay(liveDays.keys[k], liveDays, baseline, events, after) {
      if k < i {
        assert liveDays.keys[k] != d;
      }
    }
  }

  /** The inner loop of `compute_anomaly_scores` over one day's values. */
  method ScoreDay(day: Dict<string, real>, baseline: Dict<string, BaselineEntry>, events: Dict<string, Event>)
    returns (r: Result<real, ScoreError>)
    requires day.Valid()
    ensures r == Score(day, baseline, events)
  {
    var score := 0.0;
    var i := 0;
    while i < |day.keys|
      invariant 0 <= i <= |day.keys|
      invariant DayScore(day.keys[..i], day.entries, baseline.entries, events.entries) == Success(score)
    {
      var name := day.keys[i];
      DayScoreStep(day.keys, day.entries, baseline.entries, events.entries, i);
      if name in baseline.entries {
        var b := baseline.entries[name];
        var z := if b.std == 0.0 then 0.0 else Abs(day.entries[name] - b.mean) / b.std;
        if name !in events.entries {
          DayScorePrefixFailure(day.keys, day.entries, baseline.entries, events.entries, i + 1);
          return Failure(UnknownEvent(name));
        }
        var weight := events.entries[name].weight;
        ContributionIs(day.entries[name], b, events.entries[name], z);
        assert z * weight as real == Contribution(day.entries[name], b, events.entries[name]);
        score := score + z * weight as real;
      }
      i := i + 1;
    }
    assert day.keys[..i] == day.keys;
    r := Success(score);
  }

  /** The loop's `z * weight` is the name's contribution. */
  lemma ContributionIs(v: real, b: BaselineEntry, e: Event, z: real)
    requires z == if b.std == 0.0 then 0.0 else Abs(v - b.mean) / b.std
    ensures z * e.weight as real == Contribution(v, b, e)
  {
  }

  /** A failure on a prefix of the names is the failure of the whole day. */
  lemma {:induction false} DayScorePrefixFailure(names: seq<string>, values: map<string, real>,
                                                  baseline: map<string, BaselineEntry>, events: map<string, Event>, k: nat)
    requires forall n :: n in names ==> n in values
    requires k <= |names|
    requires DayScore(names[..k], values, baseline, events).Failure?
    ensures DayScore(names, values, baseline, events) == DayScore(names[..k], values, baseline, events)
  {
    if k < |names| {
      var init := names[..|names| - 1];
      assert init[..k] == names[..k];
      DayScorePrefixFailure(init, values, baseline, events, k);
    } else {
      assert names[..k] == names;
    }
  }
}
