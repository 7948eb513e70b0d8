/** Questions to the hourly table: the requested interval is widened to whole
    hours, and the answer is the one the raw events would give. */
module StatsQuery {
  import opened Text
  import opened AccessStats

  /** 90 days. */
  const MAX_RANGE := 2160 * HOUR

  datatype Filter = Filter(project: string, from: Time, to: Time, route: string, httpMethod: string)

  datatype QueryError = InvalidProject | InvalidRange | RangeTooLarge

  function CeilHour(t: Time): Time {
    if FloorHour(t) == t then t else FloorHour(t) + HOUR
  }

  predicate WholeHour(t: Time) {
    t % HOUR == 0
  }

  /** `normalizeStatsFilter`: the smallest whole-hour interval around the one asked for. */
  function NormalizeFilter(f: Filter): (r: Result<Filter, QueryError>)
    ensures r.Ok? ==>
              && WholeHour(r.value.from) && WholeHour(r.value.to)
              && r.value.from <= f.from < r.value.from + HOUR
              && r.value.to - HOUR < f.to <= r.value.to
              && r.value.from < r.value.to
    ensures r.Ok? <==>
              (IsUuid(TrimSpace(f.project)) && f.from != ZERO_TIME && f.to != ZERO_TIME
               && f.from < f.to && f.to - f.from <= 90 * 24 * 3_600_000_000_000)
  {
    FloorIsWhole(f.from); FloorIsWhole(f.to);
    if !IsUuid(TrimSpace(f.project)) then Err(InvalidProject)
    else if f.from == ZERO_TIME || f.to == ZERO_TIME || f.from >= f.to then Err(InvalidRange)
    else if f.to - f.from > MAX_RANGE then Err(RangeTooLarge)
    else Ok(Filter(TrimSpace(f.project), FloorHour(f.from), CeilHour(f.to), TrimSpace(f.route),
                   ToUpper(TrimSpace(f.httpMethod))))
  }

  lemma FloorIsWhole(t: Time)
    ensures WholeHour(FloorHour(t)) && WholeHour(FloorHour(t) + HOUR)
    ensures FloorHour(t) <= t < FloorHour(t) + HOUR
  {}

  /** A time and its hour lie on the same side of a whole hour. */
  lemma HourSide(t: Time, bound: Time)
    requires WholeHour(bound)
    ensures FloorHour(t) >= bound <==> t >= bound
  {}

  // ------------------------------------------------------------- the query

  predicate Selects(f: Filter, key: Key) {
    && key.project == ToLower(f.project)
    && f.from <= key.bucket < f.to
    && (f.route == "" || key.route == f.route)
    && (f.httpMethod == "" || key.httpMethod == f.httpMethod)
  }

  /** SUM and MAX over rows, in an arbitrary order. */
  ghost function SumRows(hourly: HourlyTable, keys: set<Key>): Hourly
    requires keys <= hourly.Keys
  {
    if keys == {} then ZERO else
    var key :| key in keys;
    Plus(hourly[key], SumRows(hourly, keys - {key}))
  }

  datatype Summary = Summary(counts: Hourly, averageMs: real)

  function Average(counts: Hourly): real {
    if counts.requests == 0 then 0.0 else counts.totalMs as real / counts.requests as real
  }

  ghost function SelectedKeys(hourly: HourlyTable, f: Filter): (keys: set<Key>)
    ensures keys <= hourly.Keys
  {
    set key | key in hourly && Selects(f, key)
  }

  /** The query over the hourly table. */
  ghost function SummaryFromHours(hourly: HourlyTable, f: Filter): Summary {
    var counts := SumRows(hourly, SelectedKeys(hourly, f));
    Summary(counts, Average(counts))
  }

  // ------------------------------------------- the same from the raw events

  predicate SelectsEvent(f: Filter, row: Raw) {
    && row.Aggregated()
    && row.project.value == ToLower(f.project)
    && f.from <= row.occurredAt < f.to
    && (f.route == "" || row.route.value == f.route)
    && (f.httpMethod == "" || row.httpMethod == f.httpMethod)
  }

  ghost function SelectedEvents(raw: RawTable, f: Filter): (ids: set<EventId>)
    ensures ids <= raw.Keys
  {
    set id | id in raw && SelectsEvent(f, raw[id])
  }

  ghost function EventsIn(raw: RawTable, keys: set<Key>): (ids: set<EventId>)
    ensures ids <= raw.Keys
  {
    set id | id in raw && raw[id].Aggregated() && raw[id].GroupKey() in keys
  }

  lemma {:induction false} SumRowsIsTotal(hourly: HourlyTable, raw: RawTable, keys: set<Key>)
    requires Aggregates(hourly, raw) && keys <= hourly.Keys
    ensures SumRows(hourly, keys) == Total(raw, EventsIn(raw, keys))
    decreases |keys|
  {
    hide Plus, Total, Raw.GroupKey;
    if keys == {} {
      assert EventsIn(raw, keys) == {};
      EmptyTotal(raw);
    } else {
      var key :| key in keys && SumRows(hourly, keys) == Plus(hourly[key], SumRows(hourly, keys - {key}));
      SumRowsIsTotal(hourly, raw, keys - {key});
      assert GroupOk(hourly, raw, key);
      assert EventsIn(raw, keys) == IdsOf(raw, key) + EventsIn(raw, keys - {key});
      TotalUnion(raw, IdsOf(raw, key), EventsIn(raw, keys - {key}));
    }
  }

  lemma SameSelection(hourly: HourlyTable, raw: RawTable, f: Filter)
    requires Aggregates(hourly, raw) && WholeHour(f.from) && WholeHour(f.to)
    ensures EventsIn(raw, SelectedKeys(hourly, f)) == SelectedEvents(raw, f)
  {
    forall id | id in raw && raw[id].Aggregated()
      ensures raw[id].GroupKey() in SelectedKeys(hourly, f) <==> SelectsEvent(f, raw[id])
    {
      var key := raw[id].GroupKey();
      assert GroupOk(hourly, raw, key);
      assert id in IdsOf(raw, key);
      HourSide(raw[id].occurredAt, f.from);
      HourSide(raw[id].occurredAt, f.to);
    }
  }

  /** The events a caller asks about: of the project, in the hours that the interval
      touches, and of the route and the method if these are given. */
  predicate Wanted(f: Filter, row: Raw) {
    && row.Aggregated()
    && row.project.value == ToLower(TrimSpace(f.project))
    && FloorHour(f.from) <= row.occurredAt < CeilHour(f.to)
    && (TrimSpace(f.route) != "" ==> row.route.value == TrimSpace(f.route))
    && (TrimSpace(f.httpMethod) != "" ==> row.httpMethod == ToUpper(TrimSpace(f.httpMethod)))
  }

  ghost function WantedEvents(raw: RawTable, f: Filter): (ids: set<EventId>)
    ensures ids <= raw.Keys
  {
    set id | id in raw && Wanted(f, raw[id])
  }

  /** For every accepted filter, the summary over hourly rows is about exactly the
      stored events the caller asks about: its counts, sums and maximum are theirs,
      and its average is their total duration divided by their number. */
  lemma SummaryIsExact(hourly: HourlyTable, raw: RawTable, f: Filter)
    requires Aggregates(hourly, raw) && NormalizeFilter(f).Ok?
    ensures var summary, events := SummaryFromHours(hourly, NormalizeFilter(f).value), WantedEvents(raw, f);
            && Describes(summary.counts, raw, events)
            && (events == {} ==> summary.averageMs == 0.0)
            && (events != {} ==> summary.averageMs * |events| as real == SumMs(raw, events) as real)
  {
    hide Aggregates, Total, SumRows, ToLower, ToUpper, TrimSpace, InClass, Limited, IsLongest, SumMs, SumBytes;
    var g := NormalizeFilter(f).value;
    SameSelection(hourly, raw, g);
    SumRowsIsTotal(hourly, raw, SelectedKeys(hourly, g));
    assert SelectedEvents(raw, g) == WantedEvents(raw, f);
    TotalDescribes(raw, WantedEvents(raw, f));
  }

  /** The interval may be read on the event's own time or on the stored one. */
  lemma StoredTimeSelectsTheSame(t: Time, bound: Time)
    requires WholeHour(bound)
    ensures t >= bound <==> Stored(t) >= bound
  {
    StoredKeepsHour(t);
    HourSide(t, bound);
    HourSide(Stored(t), bound);
  }

  // --------------------------------------------------------------- reports

  /** The report job sends the interval to the database, which drops the
      nanoseconds and rounds to hours itself. */
  predicate ReportSelects(from: Time, to: Time, bucket: Time) {
    FloorHour(Stored(from)) <= bucket < CeilHour(Stored(to))
  }

  predicate SummarySelects(from: Time, to: Time, bucket: Time) {
    FloorHour(from) <= bucket < CeilHour(to)
  }

  ghost predicate SameBuckets(from: Time, to: Time) {
    forall bucket :: WholeHour(bucket) ==> (ReportSelects(from, to, bucket) <==> SummarySelects(from, to, bucket))
  }

  /** The end of the interval is past a whole hour by less than a microsecond. */
  predicate JustPastTheHour(to: Time) {
    0 < to % HOUR < MICROSECOND
  }

  /** A report covers the buckets of the summary of the same interval, unless the
      interval ends less than a microsecond past a whole hour: then the report
      misses the last bucket. */
  lemma ReportMatchesSummaryIff(from: Time, to: Time)
    requires from < to
    ensures SameBuckets(from, to) <==> !JustPastTheHour(to)
  {
    StoredKeepsHour(from);
    StoredKeepsHour(to);
    StoredWithinHour(to);
    FloorIsWhole(to);
    FloorIsWhole(from);
    HourSide(to, FloorHour(from));
    if JustPastTheHour(to) {
      assert SummarySelects(from, to, FloorHour(to)) && !ReportSelects(from, to, FloorHour(to));
    }
  }

  lemma StoredWithinHour(t: Time)
    ensures Stored(t) == FloorHour(t) <==> t % HOUR < MICROSECOND
  {}

  /** One such interval: the first hour of the epoch and one nanosecond. */
  lemma ReportMissesABucket()
    ensures SummarySelects(0, HOUR + 1, HOUR) && !ReportSelects(0, HOUR + 1, HOUR)
    ensures !SameBuckets(0, HOUR + 1)
  {}
}
