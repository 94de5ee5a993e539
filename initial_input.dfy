/** The event catalogue and the per-event statistics (initial_input.py):
    their records, the two colon-separated text loaders and the consistency
    check between a catalogue and a statistics set. A file is given as its
    list of lines; `float(text)` and `int(text)` are the parsers passed in. */
module InitialInput {
  import opened Wrappers
  import opened PyBuiltins
  import opened Dicts

  /** An event definition, from a line `name:type:min:max:weight`. */
  datatype Event = Event(name: string, kind: string, min: Option<real>, max: Option<real>, weight: int)

  /** Statistics of one event, from a line `name:mean:std_dev`. */
  datatype EventStats = EventStats(mean: real, stdDev: real)

  /** Only the type `D` is discrete; every other type is continuous. */
  predicate IsDiscrete(e: Event) {
    e.kind == "D"
  }

  /** `float.is_integer()` */
  predicate IsInteger(x: real) {
    x.Floor as real == x
  }

  /** The exceptions raised while reading one line. */
  datatype LineError =
    | MissingField(line: string)        // `parts[k]` past the last field
    | BadNumber(text: string)           // `float(field)` or `int(field)` fails

  /** The exceptions the loaders raise. */
  datatype LoadError =
    | EmptyFile                         // `lines[0]` of a file without lines
    | BadCount(text: string)            // `int(lines[0])` fails
    | BadLine(cause: LineError)         // a data line raised
    | CountMismatch(declared: int, found: nat)

  type LineParser<V> = string -> Result<(string, V), LineError>

  // ---------------------------------------------------------------------
  // One line of each file
  // ---------------------------------------------------------------------

  /** A numeric field that may be blank: blank gives `default`. */
  function OptionalReal(field: string, default: Option<real>, parseReal: RealParser): (r: Result<Option<real>, LineError>)
  {
    if field == "" then Success(default)
    else match parseReal(field)
      case Some(x) => Success(Some(x))
      case None => Failure(BadNumber(field))
  }

  /** One event line, as the entry `events[name] = Event(...)` it produces.
      A blank min is 0, a blank max is None (unbounded), a blank weight 1. */
  function ParseEventLine(line: string, parseReal: RealParser, parseInt: IntParser): (r: Result<(string, Event), LineError>)
    ensures var parts := Split(line, ':');
      r.Success? <==>
        && |parts| >= 5
        && (parts[2] != "" ==> parseReal(parts[2]).Some?)
        && (parts[3] != "" ==> parseReal(parts[3]).Some?)
        && (parts[4] != "" ==> parseInt(parts[4]).Some?)
    ensures r.Success? ==>
      var parts, e := Split(line, ':'), r.value.1;
      && r.value.0 == e.name == parts[0]
      && e.kind == parts[1]
      && e.min.Some?
      && (parts[2] == "" ==> e.min == Some(0.0))
      && (parts[2] != "" ==> e.min == parseReal(parts[2]))
      && (parts[3] == "" <==> e.max.None?)
      && (parts[3] != "" ==> e.max == parseReal(parts[3]))
      && (parts[4] == "" ==> e.weight == 1)
      && (parts[4] != "" ==> Some(e.weight) == parseInt(parts[4]))
  {
    var parts := Split(line, ':');
    if |parts| < 3 then Failure(MissingField(line))
    else match OptionalReal(parts[2], Some(0.0), parseReal)
      case Failure(err) => Failure(err)
      case Success(min) =>
        if |parts| < 4 then Failure(MissingField(line))
        else match OptionalReal(parts[3], None, parseReal)
          case Failure(err) => Failure(err)
          case Success(max) =>
            if |parts| < 5 then Failure(MissingField(line))
            else
              match (if parts[4] == "" then Some(1) else parseInt(parts[4]))
              case None => Failure(BadNumber(parts[4]))
              case Some(weight) => Success((parts[0], Event(parts[0], parts[1], min, max, weight)))
  }

  /** A line written from five colon-free fields reads back as those fields,
      with the defaults for the blank ones. */
  lemma EventLineFields(name: string, kind: string, minText: string, maxText: string, weightText: string,
                        parseReal: RealParser, parseInt: IntParser)
    requires ':' !in name && ':' !in kind && ':' !in minText && ':' !in maxText && ':' !in weightText
    requires minText != "" ==> parseReal(minText).Some?
    requires maxText != "" ==> parseReal(maxText).Some?
    requires weightText != "" ==> parseInt(weightText).Some?
    ensures ParseEventLine(Join([name, kind, minText, maxText, weightText], ':'), parseReal, parseInt)
         == Success((name, Event(name, kind,
                                 if minText == "" then Some(0.0) else parseReal(minText),
                                 if maxText == "" then None else parseReal(maxText),
                                 if weightText == "" then 1 else parseInt(weightText).value)))
  {
    SplitJoin([name, kind, minText, maxText, weightText], ':');
  }

  function EventLine(parseReal: RealParser, parseInt: IntParser): LineParser<Event> {
    line => ParseEventLine(line, parseReal, parseInt)
  }

  /** One statistics line, as the entry `stats[name] = EventStats(mean, std_dev)`.
      Neither number may be blank. */
  function ParseStatsLine(line: string, parseReal: RealParser): (r: Result<(string, EventStats), LineError>)
    ensures |Split(line, ':')| < 3 ==> r.Failure?
    ensures var parts := Split(line, ':');
      |parts| >= 3 && parseReal(parts[1]).Some? && parseReal(parts[2]).Some? ==> r.Success?
    ensures r.Success? ==>
      var parts := Split(line, ':');
      && r.value.0 == parts[0]
      && parseReal(parts[1]) == Some(r.value.1.mean)
      && parseReal(parts[2]) == Some(r.value.1.stdDev)
  {
    var parts := Split(line, ':');
    if |parts| < 2 then Failure(MissingField(line))
    else match parseReal(parts[1])
      case None => Failure(BadNumber(parts[1]))
      case Some(mean) =>
        if |parts| < 3 then Failure(MissingField(line))
        else match parseReal(parts[2])
          case None => Failure(BadNumber(parts[2]))
          case Some(stdDev) => Success((parts[0], EventStats(mean, stdDev)))
  }

  /** A colon-free name and two readable numbers, joined by `:`, read back
      as that name and those statistics. */
  lemma StatsLineFields(name: string, meanText: string, stdText: string, parseReal: RealParser)
    requires ':' !in name && ':' !in meanText && ':' !in stdText
    requires parseReal(meanText).Some? && parseReal(stdText).Some?
    ensures ParseStatsLine(Join([name, meanText, stdText], ':'), parseReal)
         == Success((name, EventStats(parseReal(meanText).value, parseReal(stdText).value)))
  {
    SplitJoin([name, meanText, stdText], ':');
  }

  function StatsLine(parseReal: RealParser): LineParser<EventStats> {
    line => ParseStatsLine(line, parseReal)
  }

  // ---------------------------------------------------------------------
  // A whole file: a declared count, then one entry per line
  // ---------------------------------------------------------------------

  /** `[line.strip() for line in f.readlines()]` */
  function StripAll(fileLines: seq<string>): (lines: seq<string>)
    ensures |lines| == |fileLines|
    ensures forall i :: 0 <= i < |lines| ==> lines[i] == Strip(fileLines[i])
  {
    seq(|fileLines|, i requires 0 <= i < |fileLines| => Strip(fileLines[i]))
  }

  /** No later data line has the same name as data line `i`. */
  ghost predicate LastLineNamed<V>(lines: seq<string>, parseLine: LineParser<V>, i: int)
    requires 1 <= i < |lines|
    requires forall k :: 1 <= k < |lines| ==> parseLine(lines[k]).Success?
  {
    forall j :: i < j < |lines| ==> parseLine(lines[j]).value.0 != parseLine(lines[i]).value.0
  }

  /** A loader, on the stripped lines of a file: `int(lines[0])` is the
      declared count, each further line is stored under its name (a later
      line overwrites an earlier one of the same name), and the number of
      stored names must equal the declared count. */
  function Load<V>(lines: seq<string>, parseInt: IntParser, parseLine: LineParser<V>): Result<Dict<string, V>, LoadError> {
    if |lines| == 0 then Failure(EmptyFile)
    else match parseInt(lines[0])
      case None => Failure(BadCount(lines[0]))
      case Some(declared) =>
        match ReadPairs(lines[1..], parseLine)
        case Failure(err) => Failure(BadLine(err))
        case Success(pairs) =>
          var d := FromPairs(pairs);
          if |d.keys| != declared then Failure(CountMismatch(declared, |d.keys|)) else Success(d)
  }

  /** A load succeeds only when the declared count equals the number of
      distinct names; when every line reads, it fails only on a mismatch. */
  lemma LoadChecksCount<V>(lines: seq<string>, parseInt: IntParser, parseLine: LineParser<V>)
    ensures |lines| == 0 ==> Load(lines, parseInt, parseLine) == Failure(EmptyFile)
    ensures var r := Load(lines, parseInt, parseLine);
      r.Success? ==> |lines| > 0 && r.value.Valid() && parseInt(lines[0]) == Some(|r.value.entries|)
    ensures var r := Load(lines, parseInt, parseLine);
      r.Failure? && r.error.CountMismatch? ==>
        && |lines| > 0
        && parseInt(lines[0]) == Some(r.error.declared)
        && r.error.found != r.error.declared
        && forall i :: 1 <= i < |lines| ==> parseLine(lines[i]).Success?
    ensures var r := Load(lines, parseInt, parseLine);
      (|lines| > 0 && parseInt(lines[0]).Some? && forall i :: 1 <= i < |lines| ==> parseLine(lines[i]).Success?)
      ==> r.Success? || r.error.CountMismatch?
    ensures var r := Load(lines, parseInt, parseLine);
      r.Failure? && r.error.CountMismatch? ==>
        ReadPairs(lines[1..], parseLine).Success? && r.error.found == |KeysOf(ReadPairs(lines[1..], parseLine).value)|
    ensures (&& |lines| > 0
             && ReadPairs(lines[1..], parseLine).Success?
             && parseInt(lines[0]) == Some(|KeysOf(ReadPairs(lines[1..], parseLine).value)|))
      ==> Load(lines, parseInt, parseLine).Success?
  {
    if |lines| > 0 && parseInt(lines[0]).Some? {
      var data := lines[1..];
      assert forall i :: 1 <= i < |lines| ==> lines[i] == data[i - 1];
      var pr := ReadPairs(data, parseLine);
      ReadPairsEach(data, parseLine);
      if pr.Success? {
        LenIsKeyCount(FromPairs(pr.value));
      }
    }
  }

  /** On success every data line is stored under its name, and every stored
      entry is what some data line of that name reads as. */
  lemma LoadStoresLines<V>(lines: seq<string>, parseInt: IntParser, parseLine: LineParser<V>)
    ensures var r := Load(lines, parseInt, parseLine);
      r.Success? ==> forall i :: 1 <= i < |lines| ==>
        parseLine(lines[i]).Success? && parseLine(lines[i]).value.0 in r.value.entries
    ensures var r := Load(lines, parseInt, parseLine);
      r.Success? ==> forall n :: n in r.value.entries ==>
        exists i :: 1 <= i < |lines| && parseLine(lines[i]) == Success((n, r.value.entries[n]))
  {
    var r := Load(lines, parseInt, parseLine);
    if r.Success? {
      var data := lines[1..];
      assert forall i :: 1 <= i < |lines| ==> lines[i] == data[i - 1];
      ReadPairsEach(data, parseLine);
      var pairs := ReadPairs(data, parseLine).value;
      var d := FromPairs(pairs);
      assert r.value == d;
      forall n | n in d.entries
        ensures exists i :: 1 <= i < |lines| && parseLine(lines[i]) == Success((n, d.entries[n]))
      {
        FromPairsEntry(pairs, n);
        var k :| 0 <= k < |pairs| && pairs[k] == (n, d.entries[n]);
        assert parseLine(lines[k + 1]) == Success(pairs[k]);
      }
    }
  }

  /** On success the entry stored under a name is what the last data line of
      that name reads as. */
  lemma LoadLastLineWins<V>(lines: seq<string>, parseInt: IntParser, parseLine: LineParser<V>, i: int)
    requires 1 <= i < |lines|
    requires Load(lines, parseInt, parseLine).Success?
    ensures forall k :: 1 <= k < |lines| ==> parseLine(lines[k]).Success?
    ensures parseLine(lines[i]).value.0 in Load(lines, parseInt, parseLine).value.entries
    ensures LastLineNamed(lines, parseLine, i) ==>
      Load(lines, parseInt, parseLine).value.entries[parseLine(lines[i]).value.0] == parseLine(lines[i]).value.1
  {
    var data := lines[1..];
    assert forall k :: 1 <= k < |lines| ==> lines[k] == data[k - 1];
    StoredLastWins(data, parseLine, i - 1);
    assert Load(lines, parseInt, parseLine).value == FromPairs(ReadPairs(data, parseLine).value);
    if LastLineNamed(lines, parseLine, i) {
      forall j | i - 1 < j < |data| ensures parseLine(data[j]).value.0 != parseLine(data[i - 1]).value.0 {
        assert data[j] == lines[j + 1];
      }
      assert LastItemWithKey(data, parseLine, i - 1);
    }
  }

  /** The loop shared by `parse_events_file` and `parse_stats_file`, on the
      stripped lines. */
  method LoadLines<V>(lines: seq<string>, parseInt: IntParser, parseLine: LineParser<V>) returns (r: Result<Dict<string, V>, LoadError>)
    ensures r == Load(lines, parseInt, parseLine)
  {
    if |lines| == 0 {
      return Failure(EmptyFile);
    }
    var declared := parseInt(lines[0]);
    if declared.None? {
      return Failure(BadCount(lines[0]));
    }
    var stored := StorePairs(lines[1..], parseLine);
    if stored.Failure? {
      return Failure(BadLine(stored.error));
    }
    var entries := stored.value;
    if |entries.keys| != declared.value {
      return Failure(CountMismatch(declared.value, |entries.keys|));
    }
    return Success(entries);
  }

  /** `parse_events_file`: every event is stored under its own name and has
      a lower bound; the declared count equals the number of distinct names. */
  method ParseEventsFile(fileLines: seq<string>, parseReal: RealParser, parseInt: IntParser)
    returns (r: Result<Dict<string, Event>, LoadError>)
    ensures r == Load(StripAll(fileLines), parseInt, EventLine(parseReal, parseInt))
    ensures r.Success? ==> forall n :: n in r.value.entries ==>
      r.value.entries[n].name == n && r.value.entries[n].min.Some?
  {
    var lines := StripAll(fileLines);
    r := LoadLines(lines, parseInt, EventLine(parseReal, parseInt));
    LoadStoresLines(lines, parseInt, EventLine(parseReal, parseInt));
    if r.Success? {
      forall n | n in r.value.entries
        ensures r.value.entries[n].name == n && r.value.entries[n].min.Some?
      {
        var i :| 1 <= i < |lines| && EventLine(parseReal, parseInt)(lines[i]) == Success((n, r.value.entries[n]));
        assert ParseEventLine(lines[i], parseReal, parseInt) == Success((n, r.value.entries[n]));
      }
    }
  }

  /** `parse_stats_file`. */
  method ParseStatsFile(fileLines: seq<string>, parseReal: RealParser, parseInt: IntParser)
    returns (r: Result<Dict<string, EventStats>, LoadError>)
    ensures r == Load(StripAll(fileLines), parseInt, StatsLine(parseReal))
  {
    r := LoadLines(StripAll(fileLines), parseInt, StatsLine(parseReal));
  }

  // ---------------------------------------------------------------------
  // check_consistency
  // ---------------------------------------------------------------------

  /** The messages `check_consistency` collects. */
  datatype Inconsistency =
    | MissingStats(name: string)                // in the events but not in the stats
    | NonIntegerMean(name: string, mean: real)  // a discrete event with a fractional mean
    | MissingEvent(name: string)                // in the stats but not in the events

  /** What the first loop reports for one event name. */
  function EventError(name: string, events: map<string, Event>, stats: map<string, EventStats>): seq<Inconsistency> {
    if name !in stats then [MissingStats(name)]
    else if name in events && IsDiscrete(events[name]) && !IsInteger(stats[name].mean) then [NonIntegerMean(name, stats[name].mean)]
    else []
  }

  /** The first loop, over the event names in order. */
  function EventErrors(names: seq<string>, events: map<string, Event>, stats: map<string, EventStats>): seq<Inconsistency> {
    if names == [] then []
    else EventErrors(names[..|names| - 1], events, stats) + EventError(names[|names| - 1], events, stats)
  }

  /** The second loop, over the statistics names in order. */
  function StatsErrors(names: seq<string>, events: map<string, Event>): seq<Inconsistency> {
    if names == [] then []
    else
      var n := names[|names| - 1];
      StatsErrors(names[..|names| - 1], events) + (if n in events then [] else [MissingEvent(n)])
  }

  /** The first loop reports at most one message per name: `MissingStats`
      exactly for the names without statistics, `NonIntegerMean` exactly for
      the discrete ones whose mean is not a whole number. */
  lemma {:induction false} EventErrorsMeaning(names: seq<string>, events: map<string, Event>, stats: map<string, EventStats>)
    ensures |EventErrors(names, events, stats)| <= |names|
    ensures forall n :: MissingStats(n) in EventErrors(names, events, stats) <==> n in names && n !in stats
    ensures forall n, m :: NonIntegerMean(n, m) in EventErrors(names, events, stats) <==>
      n in names && n in stats && n in events && IsDiscrete(events[n]) && !IsInteger(m) && m == stats[n].mean
  {
    if names != [] {
      var init := names[..|names| - 1];
      var last := names[|names| - 1];
      EventErrorsMeaning(init, events, stats);
      assert names == init + [last];
      assert forall n :: n in names <==> n in init || n == last;
    }
  }

  /** The second loop reports `MissingEvent` exactly for the names that have
      statistics but no event. */
  lemma {:induction false} StatsErrorsMeaning(names: seq<string>, events: map<string, Event>)
    ensures |StatsErrors(names, events)| <= |names|
    ensures forall n :: MissingEvent(n) in StatsErrors(names, events) <==> n in names && n !in events
  {
    if names != [] {
      var init := names[..|names| - 1];
      var last := names[|names| - 1];
      StatsErrorsMeaning(init, events);
      assert names == init + [last];
      assert forall n :: n in names <==> n in init || n == last;
    }
  }

  /** Every message of the first loop names one of its names, and over
      distinct names no message is repeated. */
  lemma {:induction false} EventErrorsDistinct(names: seq<string>, events: map<string, Event>, stats: map<string, EventStats>)
    ensures forall e :: e in EventErrors(names, events, stats) ==> e.name in names
    ensures Distinct(names) ==> Distinct(EventErrors(names, events, stats))
  {
    if names != [] {
      var init := names[..|names| - 1];
      var last := names[|names| - 1];
      EventErrorsDistinct(init, events, stats);
      var before, tail := EventErrors(init, events, stats), EventError(last, events, stats);
      assert names == init + [last];
      if Distinct(names) {
        assert Distinct(init);
        assert last !in init;
        forall e | e in before ensures e !in tail {
          assert e.name in init;
        }
        DistinctAppend(before, tail);
      }
    }
  }

  /** Every message of the second loop names one of its names, and over
      distinct names no message is repeated. */
  lemma {:induction false} StatsErrorsDistinct(names: seq<string>, events: map<string, Event>)
    ensures forall e :: e in StatsErrors(names, events) ==> e.name in names
    ensures Distinct(names) ==> Distinct(StatsErrors(names, events))
  {
    if names != [] {
      var init := names[..|names| - 1];
      var last := names[|names| - 1];
      StatsErrorsDistinct(init, events);
      var before, tail := StatsErrors(init, events), if last in events then [] else [MissingEvent(last)];
      assert names == init + [last];
      if Distinct(names) {
        assert Distinct(init);
        assert last !in init;
        forall e | e in before ensures e !in tail {
          assert e.name in init;
        }
        DistinctAppend(before, tail);
      }
    }
  }

  /** The first loop never reports a missing event. */
  lemma {:induction false} EventErrorsKinds(names: seq<string>, events: map<string, Event>, stats: map<string, EventStats>)
    ensures forall e :: e in EventErrors(names, events, stats) ==> !e.MissingEvent?
  {
    if names != [] {
      EventErrorsKinds(names[..|names| - 1], events, stats);
    }
  }

  /** The second loop reports nothing but missing events. */
  lemma {:induction false} StatsErrorsKinds(names: seq<string>, events: map<string, Event>)
    ensures forall e :: e in StatsErrors(names, events) ==> e.MissingEvent?
  {
    if names != [] {
      StatsErrorsKinds(names[..|names| - 1], events);
    }
  }

  /** Everything `check_consistency` reports: the event-side messages, in
      event order, then the stats-side ones, in stats order. */
  function Consistency(events: Dict<string, Event>, stats: Dict<string, EventStats>): seq<Inconsistency> {
    EventErrors(events.keys, events.entries, stats.entries) + StatsErrors(stats.keys, events.entries)
  }

  /** The report names every event without statistics, every discrete event
      with a fractional mean and every statistics entry without an event, and
      nothing else; at most one message per key of either dict. */
  lemma ConsistencyReport(events: Dict<string, Event>, stats: Dict<string, EventStats>)
    requires events.Valid() && stats.Valid()
    ensures var errs := Consistency(events, stats);
      |errs| <= |events.keys| + |stats.keys|
    ensures var errs := Consistency(events, stats);
      forall n :: MissingStats(n) in errs <==> n in events.entries && n !in stats.entries
    ensures var errs := Consistency(events, stats);
      forall n, m :: NonIntegerMean(n, m) in errs <==>
        n in events.entries && n in stats.entries && IsDiscrete(events.entries[n]) && !IsInteger(m) && m == stats.entries[n].mean
    ensures var errs := Consistency(events, stats);
      forall n :: MissingEvent(n) in errs <==> n in stats.entries && n !in events.entries
  {
    EventErrorsMeaning(events.keys, events.entries, stats.entries);
    StatsErrorsMeaning(stats.keys, events.entries);
    EventErrorsKinds(events.keys, events.entries, stats.entries);
    StatsErrorsKinds(stats.keys, events.entries);
  }

  /** No message is reported twice, so each inconsistent name gets exactly
      one message of its kind. */
  lemma ConsistencyNoRepeats(events: Dict<string, Event>, stats: Dict<string, EventStats>)
    requires events.Valid() && stats.Valid()
    ensures Distinct(Consistency(events, stats))
  {
    var first := EventErrors(events.keys, events.entries, stats.entries);
    var second := StatsErrors(stats.keys, events.entries);
    EventErrorsDistinct(events.keys, events.entries, stats.entries);
    StatsErrorsDistinct(stats.keys, events.entries);
    EventErrorsKinds(events.keys, events.entries, stats.entries);
    StatsErrorsKinds(stats.keys, events.entries);
    DistinctAppend(first, second);
  }

  /** Every `MissingEvent` message comes after all the others. */
  lemma ConsistencyOrder(events: Dict<string, Event>, stats: Dict<string, EventStats>)
    ensures var errs := Consistency(events, stats);
      forall i, j :: 0 <= i < j < |errs| && errs[i].MissingEvent? ==> errs[j].MissingEvent?
  {
    var first := EventErrors(events.keys, events.entries, stats.entries);
    var second := StatsErrors(stats.keys, events.entries);
    EventErrorsKinds(events.keys, events.entries, stats.entries);
    StatsErrorsKinds(stats.keys, events.entries);
    var errs := first + second;
    forall i, j | 0 <= i < j < |errs| && errs[i].MissingEvent? ensures errs[j].MissingEvent? {
      if i >= |first| {
        assert errs[j] == second[j - |first|];
        assert second[j - |first|] in second;
      }
    }
  }

  /** Both dicts name the same events and every discrete event has a
      whole-number mean. */
  ghost predicate Consistent(events: Dict<string, Event>, stats: Dict<string, EventStats>) {
    && events.entries.Keys == stats.entries.Keys
    && forall n :: n in events.entries && IsDiscrete(events.entries[n]) ==> n in stats.entries && IsInteger(stats.entries[n].mean)
  }

  /** Nothing is reported exactly when the two dicts are consistent. */
  lemma ConsistentIffNoErrors(events: Dict<string, Event>, stats: Dict<string, EventStats>)
    requires events.Valid() && stats.Valid()
    ensures Consistency(events, stats) == [] <==> Consistent(events, stats)
  {
    if Consistency(events, stats) == [] {
      NoErrorsMeansConsistent(events, stats);
    } else {
      ErrorMeansInconsistent(events, stats);
    }
  }

  lemma NoErrorsMeansConsistent(events: Dict<string, Event>, stats: Dict<string, EventStats>)
    requires events.Valid() && stats.Valid()
    requires Consistency(events, stats) == []
    ensures Consistent(events, stats)
  {
    ConsistencyReport(events, stats);
    forall n | n in events.entries ensures n in stats.entries {
      assert MissingStats(n) !in Consistency(events, stats);
    }
    forall n | n in stats.entries ensures n in events.entries {
      assert MissingEvent(n) !in Consistency(events, stats);
    }
    forall n | n in events.entries && IsDiscrete(events.entries[n])
      ensures n in stats.entries && IsInteger(stats.entries[n].mean)
    {
      assert NonIntegerMean(n, stats.entries[n].mean) !in Consistency(events, stats);
    }
  }

  lemma ErrorMeansInconsistent(events: Dict<string, Event>, stats: Dict<string, EventStats>)
    requires events.Valid() && stats.Valid()
    requires Consistency(events, stats) != []
    ensures !Consistent(events, stats)
  {
    var errs := Consistency(events, stats);
    ConsistencyReport(events, stats);
    assert errs[0] in errs;
    match errs[0]
    case MissingStats(n) =>
      assert n in events.entries.Keys && n !in stats.entries.Keys;
    case NonIntegerMean(n, m) =>
      assert n in events.entries && IsDiscrete(events.entries[n]) && !IsInteger(stats.entries[n].mean);
    case MissingEvent(n) =>
      assert n in stats.entries.Keys && n !in events.entries.Keys;
  }

  /** `check_consistency(events, stats)`. */
  method CheckConsistency(events: Dict<string, Event>, stats: Dict<string, EventStats>) returns (errors: seq<Inconsistency>)
    requires events.Valid() && stats.Valid()
    ensures errors == Consistency(events, stats)
  {
    errors := [];
    var i := 0;
    while i < |events.keys|
      invariant 0 <= i <= |events.keys|
      invariant errors == EventErrors(events.keys[..i], events.entries, stats.entries)
    {
      assert events.keys[..i + 1][..i] == events.keys[..i];
      var name := events.keys[i];
      if name !in stats.entries {
        errors := errors + [MissingStats(name)];
      } else if IsDiscrete(events.entries[name]) && !IsInteger(stats.entries[name].mean) {
        errors := errors + [NonIntegerMean(name, stats.entries[name].mean)];
      }
      i := i + 1;
    }
    assert events.keys[..i] == events.keys;
    ghost var first := errors;
    var j := 0;
    while j < |stats.keys|
      invariant 0 <= j <= |stats.keys|
      invariant errors == first + StatsErrors(stats.keys[..j], events.entries)
    {
      assert stats.keys[..j + 1][..j] == stats.keys[..j];
      var name := stats.keys[j];
      if name !in events.entries {
        errors := errors + [MissingEvent(name)];
      }
      j := j + 1;
    }
    assert stats.keys[..j] == stats.keys;
  }
}
