/** The activity engine (activityEngine.py): one value per event and day,
    drawn around the event's mean, clamped to its bounds and rounded, and the
    table of one row per simulated day. The Gaussian draw is a parameter:
    `draw(day, name)` is what `random.gauss(mean, std_dev)` returns for that
    event on that day. */
module ActivityEngine {
  import opened Wrappers
  import opened PyBuiltins
  import opened Dicts
  import opened InitialInput

  /** A logged value: a Python `int` for a discrete event, a `float` rounded
      to two decimals for a continuous one. */
  datatype Value = Int(n: int) | Float(x: real)

  // ---------------------------------------------------------------------
  // generate_value_for_event
  // ---------------------------------------------------------------------

  /** The value before clamping: the mean itself when the standard deviation
      is zero (no draw is made), the drawn sample otherwise. */
  function Sample(s: EventStats, draw: real): real {
    if s.stdDev == 0.0 then s.mean else draw
  }

  function MaxReal(a: real, b: real): real { if a < b then b else a }
  function MinReal(a: real, b: real): real { if b < a then b else a }
  function MaxInt(a: int, b: int): int { if a < b then b else a }
  function MinInt(a: int, b: int): int { if b < a then b else a }

  /** `x = max(x, min)` if there is a min, then `x = min(x, max)` if there is
      a max. The max is applied last, so it wins when min > max. */
  function Clamp(x: real, min: Option<real>, max: Option<real>): (r: real)
    ensures min.Some? && (max.None? || min.value <= max.value) ==> min.value <= r
    ensures max.Some? ==> r <= max.value
    ensures min.Some? && max.Some? && max.value < min.value ==> r == max.value
    ensures (min.None? || min.value <= x) && (max.None? || x <= max.value) ==> r == x
    ensures min.Some? && x < min.value && (max.None? || min.value <= max.value) ==> r == min.value
    ensures max.Some? && max.value < x && (min.None? || min.value <= max.value) ==> r == max.value
  {
    var lo := if min.Some? then MaxReal(x, min.value) else x;
    if max.Some? then MinReal(lo, max.value) else lo
  }

  /** The re-clamp of a discrete value against `int(min)` and `int(max)`. */
  function ClampInt(n: int, min: Option<real>, max: Option<real>): (r: int)
    ensures min.Some? && (max.None? || Trunc(min.value) <= Trunc(max.value)) ==> Trunc(min.value) <= r
    ensures max.Some? ==> r <= Trunc(max.value)
    ensures min.Some? && max.Some? && Trunc(max.value) < Trunc(min.value) ==> r == Trunc(max.value)
    ensures (min.None? || Trunc(min.value) <= n) && (max.None? || n <= Trunc(max.value)) ==> r == n
    ensures min.Some? && n < Trunc(min.value) && (max.None? || Trunc(min.value) <= Trunc(max.value)) ==> r == Trunc(min.value)
    ensures max.Some? && Trunc(max.value) < n && (min.None? || Trunc(min.value) <= Trunc(max.value)) ==> r == Trunc(max.value)
  {
    var lo := if min.Some? then MaxInt(n, Trunc(min.value)) else n;
    if max.Some? then MinInt(lo, Trunc(max.value)) else lo
  }

  /** `generate_value_for_event(event, stat)`. A discrete event gives
      `int(round(x))` re-clamped to the truncated bounds; a continuous one
      gives `round(x, 2)` with no re-clamp. A discrete value lies above
      `int(min)` whenever that does not exceed `int(max)`, and never above
      `int(max)`; a continuous one has at most two decimals and lies within
      0.005 of the clamped sample. */
  function GenerateValue(e: Event, s: EventStats, draw: real): (v: Value)
    ensures IsDiscrete(e) <==> v.Int?
    ensures v.Int? && e.min.Some? && (e.max.None? || Trunc(e.min.value) <= Trunc(e.max.value)) ==> Trunc(e.min.value) <= v.n
    ensures v.Int? && e.max.Some? ==> v.n <= Trunc(e.max.value)
    ensures v.Float? ==> IsCents(v.x) && Abs(v.x - Clamp(Sample(s, draw), e.min, e.max)) <= 0.005
  {
    var x := Clamp(Sample(s, draw), e.min, e.max);
    if IsDiscrete(e) then Int(ClampInt(RoundHalfEven(x), e.min, e.max))
    else Float(Round2(x))
  }

  /** With a zero standard deviation no draw is used: every draw gives the
      same value. */
  lemma ZeroStdIgnoresDraw(e: Event, s: EventStats, d1: real, d2: real)
    requires s.stdDev == 0.0
    ensures GenerateValue(e, s, d1) == GenerateValue(e, s, d2)
  {
    assert Sample(s, d1) == s.mean == Sample(s, d2);
  }

  /** A discrete value equals the nearest integer to the clamped sample, ties
      to even, whenever that integer already lies within the truncated bounds. */
  lemma DiscreteValueIsRounded(e: Event, s: EventStats, draw: real)
    requires IsDiscrete(e)
    ensures var x := Clamp(Sample(s, draw), e.min, e.max);
      var n := RoundHalfEven(x);
      (e.min.None? || Trunc(e.min.value) <= n) && (e.max.None? || n <= Trunc(e.max.value)) ==>
        && GenerateValue(e, s, draw) == Int(n)
        && Abs(n as real - x) <= 0.5
        && (Abs(n as real - x) == 0.5 ==> n % 2 == 0)
  {
  }

  /** When both bounds are present, ordered and have at most two decimals, a
      continuous value stays between them. */
  lemma ContinuousValueBounds(e: Event, s: EventStats, draw: real)
    requires !IsDiscrete(e)
    requires e.min.Some? && e.max.Some? && e.min.value <= e.max.value
    requires IsCents(e.min.value) && IsCents(e.max.value)
    ensures e.min.value <= GenerateValue(e, s, draw).x <= e.max.value
  {
    Round2Between(e.min.value, Clamp(Sample(s, draw), e.min, e.max), e.max.value);
  }

  /** Without the two-decimal condition on the bounds the continuous value
      can fall outside them, because the rounding comes after the clamp: with
      bounds [0.001, 1] and a mean of 0.001, the value is 0.0. */
  lemma ContinuousValueCanLeaveBounds()
    ensures var e, s := Event("e", "C", Some(0.001), Some(1.0), 1), EventStats(0.001, 0.0);
      GenerateValue(e, s, 0.5) == Float(0.0) && 0.0 < e.min.value
  {
    assert (0.001 * 100.0).Floor == 0;
  }

  /** The re-clamp uses `int(min)`, so a discrete value can fall below a
      fractional min: bounds [1.5, 1.7] and mean 1.6 give 1. */
  lemma DiscreteValueCanFallBelowMin()
    ensures var e, s := Event("e", "D", Some(1.5), Some(1.7), 1), EventStats(1.6, 0.0);
      GenerateValue(e, s, 0.0) == Int(1) && 1.0 < e.min.value
  {
    assert (1.6).Floor == 1;
    assert (1.5).Floor == 1;
    assert (1.7).Floor == 1;
  }

  /** Zero-variance determinism: a discrete event whose whole-number mean lies
      within its bounds, with a zero standard deviation, always gives that
      mean. */
  lemma ZeroVarianceGivesMean(e: Event, s: EventStats, draw: real)
    requires IsDiscrete(e) && s.stdDev == 0.0 && IsInteger(s.mean)
    requires e.min.None? || e.min.value <= s.mean
    requires e.max.None? || s.mean <= e.max.value
    ensures GenerateValue(e, s, draw) == Int(s.mean.Floor)
  {
    var m := s.mean.Floor;
    assert Clamp(Sample(s, draw), e.min, e.max) == m as real;
    RoundOfInteger(m);
    if e.min.Some? {
      TruncBetween(e.min.value, m);
    }
    if e.max.Some? {
      TruncBetween(e.max.value, m);
    }
  }

  /** Python's `round` rounds halves to even: a discrete event with mean 2.5
      and no spread logs 2, one with mean 3.5 logs 4. */
  lemma DiscreteHalvesRoundToEven(draw: real)
    ensures GenerateValue(Event("e", "D", Some(0.0), None, 1), EventStats(2.5, 0.0), draw) == Int(2)
    ensures GenerateValue(Event("e", "D", Some(0.0), None, 1), EventStats(3.5, 0.0), draw) == Int(4)
  {
    assert (2.5).Floor == 2;
    assert (3.5).Floor == 3;
  }

  // ---------------------------------------------------------------------
  // simulate_activity
  // ---------------------------------------------------------------------

  /** One logged day: the day number, then one value per column. */
  datatype Row = Row(day: int, values: seq<Value>)

  /** The activity log: the header row (`day`, then the event names), then
      the day rows. */
  datatype Table = Table(header: seq<string>, rows: seq<Row>)

  /** `stats[name]` raised `KeyError`. */
  datatype SimulationError = StatsMissing(name: string)

  /** The row for day `day`: one value per column, from that event's record,
      its statistics and the draw for that day. */
  ghost predicate IsDayRow(row: Row, day: int, columns: seq<string>, events: map<string, Event>,
                           stats: map<string, EventStats>, draw: (int, string) -> real)
  {
    && row.day == day
    && |row.values| == |columns|
    && forall k :: 0 <= k < |columns| ==>
         && columns[k] in events && columns[k] in stats
         && row.values[k] == GenerateValue(events[columns[k]], stats[columns[k]], draw(day, columns[k]))
  }

  /** `simulate_activity(events, stats, days)`, returning the table that the
      source writes as CSV. The columns are the event names in sorted order;
      days `1..days` give one row each. The first event, in column order,
      without statistics stops the run on day 1. */
  method SimulateActivity(events: Dict<string, Event>, stats: Dict<string, EventStats>, days: int, draw: (int, string) -> real)
    returns (r: Result<Table, SimulationError>)
    requires events.Valid()
    ensures r.Failure? <==> days >= 1 && !(events.entries.Keys <= stats.entries.Keys)
    ensures r.Failure? ==>
      && r.error.name in events.entries && r.error.name !in stats.entries
      && forall n :: n in events.entries && StrLess(n, r.error.name) ==> n in stats.entries
    ensures r.Success? ==>
      var t := r.value;
      && |t.header| == |events.keys| + 1
      && t.header[0] == "day"
      && StrictlySorted(t.header[1..])
      && (forall n :: n in t.header[1..] <==> n in events.entries)
      && |t.rows| == (if days < 0 then 0 else days)
      && forall i :: 0 <= i < |t.rows| ==> IsDayRow(t.rows[i], i + 1, t.header[1..], events.entries, stats.entries, draw)
  {
    var names := Sorted(events.keys);
    var rows := SimulateDays(names, events.entries, stats.entries, days, draw);
    if rows.Failure? {
      return Failure(rows.error);
    }
    if days >= 1 {
      assert events.entries.Keys <= stats.entries.Keys;
    }
    assert (["day"] + names)[1..] == names;
    r := Success(Table(["day"] + names, rows.value));
  }

  /** The `for day in range(1, days + 1)` loop of `simulate_activity`: one
      row per day, in order, over the columns `names`. */
  method SimulateDays(names: seq<string>, events: map<string, Event>, stats: map<string, EventStats>, days: int,
                      draw: (int, string) -> real)
    returns (r: Result<seq<Row>, SimulationError>)
    requires StrictlySorted(names)
    requires forall n :: n in names ==> n in events
    ensures r.Failure? <==> days >= 1 && exists n :: n in names && n !in stats
    ensures r.Failure? ==>
      && r.error.name in names && r.error.name !in stats
      && forall n :: n in names && StrLess(n, r.error.name) ==> n in stats
    ensures r.Success? ==>
      && |r.value| == (if days < 0 then 0 else days)
      && forall i :: 0 <= i < |r.value| ==> IsDayRow(r.value[i], i + 1, names, events, stats, draw)
  {
    var rows: seq<Row> := [];
    var day := 1;
    while day <= days
      invariant 1 <= day <= (if days < 1 then 1 else days + 1)
      invariant |rows| == day - 1
      invariant forall i :: 0 <= i < |rows| ==> IsDayRow(rows[i], i + 1, names, events, stats, draw)
      invariant day > 1 ==> forall n :: n in names ==> n in stats
    {
      var row := SimulateDay(day, names, events, stats, draw);
      if row.Failure? {
        return Failure(row.error);
      }
      rows := rows + [row.value];
      day := day + 1;
    }
    r := Success(rows);
  }

  /** One pass of the `for day in range(1, days + 1)` loop: the values of
      the columns in order; the first column without statistics raises. */
  method SimulateDay(day: int, names: seq<string>, events: map<string, Event>, stats: map<string, EventStats>,
                     draw: (int, string) -> real)
    returns (r: Result<Row, SimulationError>)
    requires StrictlySorted(names)
    requires forall n :: n in names ==> n in events
    ensures r.Success? <==> forall n :: n in names ==> n in stats
    ensures r.Success? ==> IsDayRow(r.value, day, names, events, stats, draw)
    ensures r.Failure? ==>
      && r.error.name in names && r.error.name !in stats
      && forall n :: n in names && StrLess(n, r.error.name) ==> n in stats
  {
    var values: seq<Value> := [];
    var j := 0;
    while j < |names|
      invariant 0 <= j <= |names|
      invariant |values| == j
      invariant forall k :: 0 <= k < j ==>
        && names[k] in stats
        && values[k] == GenerateValue(events[names[k]], stats[names[k]], draw(day, names[k]))
    {
      var name := names[j];
      var event := events[name];
      if name !in stats {
        FirstMissing(names, stats, j);
        return Failure(StatsMissing(name));
      }
      var value := GenerateValue(event, stats[name], draw(day, name));
      values := values + [value];
      j := j + 1;
    }
    r := Success(Row(day, values));
  }

  /** The column at `j` lacks statistics and every earlier one has them: no
      event name sorting before it lacks statistics. */
  lemma FirstMissing(names: seq<string>, stats: map<string, EventStats>, j: int)
    requires StrictlySorted(names) && 0 <= j < |names|
    requires forall k :: 0 <= k < j ==> names[k] in stats
    ensures forall n :: n in names && StrLess(n, names[j]) ==> n in stats
  {
    forall n | n in names && StrLess(n, names[j]) ensures n in stats {
      var k :| 0 <= k < |names| && names[k] == n;
      if j < k {
        StrLessAsymmetric(names[j], n);
      } else if k == j {
        StrLessIrreflexive(n);
      }
    }
  }
}
