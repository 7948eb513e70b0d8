/** Gateway access events, the raw-event table, and hourly aggregation.

    An hourly row is an element of a commutative monoid, so that the aggregate
    of a set of events does not depend on the order in which they are added. */
module AccessStats {
  import opened Text

  /** Nanoseconds since the Unix epoch. */
  type Time = int

  const MICROSECOND := 1_000
  const HOUR := 3_600_000_000_000

  /** `Truncate(time.Hour)`: hours start at the same instants before and after the epoch. */
  function FloorHour(t: Time): Time {
    t - t % HOUR
  }

  /** The database keeps microseconds. */
  function Stored(t: Time): Time {
    t - t % MICROSECOND
  }

  /** Storing a time does not move it to another hour. */
  lemma StoredKeepsHour(t: Time)
    ensures FloorHour(Stored(t)) == FloorHour(t)
  {
    var q, r := t / HOUR, t % HOUR;
    var m, k := r / MICROSECOND, r % MICROSECOND;
    DivModUnique(t, MICROSECOND, q * 3_600_000_000 + m, k);
    DivModUnique(Stored(t), HOUR, q, m * MICROSECOND);
  }

  // ---------------------------------------------------------------- events

  datatype Event = Event(
    schemaVersion: int,
    id: string,
    occurredAt: Time,
    requestId: string,
    project: string,
    route: string,
    prefix: string,
    httpMethod: string,
    path: string,
    status: int,
    durationMs: int,
    responseBytes: int,
    clientType: string,
    clientId: string,
    authRequired: bool,
    rateLimitEnabled: bool,
    rateLimited: bool)
  {
    predicate Valid() {
      && schemaVersion == 1
      && TrimSpace(id) != ""
      && occurredAt != ZERO_TIME
      && TrimSpace(requestId) != ""
      && (TrimSpace(project) == "" || IsUuid(TrimSpace(project)))
      && TrimSpace(httpMethod) != ""
      && TrimSpace(path) != ""
      && 100 <= status <= 599
      && 0 <= durationMs
      && 0 <= responseBytes
      && (clientType == "api_key" || clientType == "ip")
      && TrimSpace(clientId) != ""
    }

    /** `shouldAggregate`. */
    predicate ShouldAggregate() {
      TrimSpace(project) != "" && TrimSpace(route) != "" && TrimSpace(prefix) != ""
    }
  }

  predicate IsHexDigit(c: char) {
    '0' <= c <= '9' || 'a' <= c <= 'f' || 'A' <= c <= 'F'
  }

  predicate IsUuid(s: string) {
    && |s| == 36
    && forall i :: 0 <= i < 36 ==> if i in {8, 13, 18, 23} then s[i] == '-' else IsHexDigit(s[i])
  }

  /** A row of the raw table, with every column that comes from the event.  Empty
      text is stored as null, and a uuid has one spelling. */
  datatype Raw = Raw(
    schemaVersion: int,
    occurredAt: Time,
    requestId: string,
    project: Option<string>,
    route: Option<string>,
    prefix: Option<string>,
    httpMethod: string,
    path: string,
    status: int,
    durationMs: nat,
    responseBytes: nat,
    clientType: string,
    clientId: string,
    authRequired: bool,
    rateLimitEnabled: bool,
    rateLimited: bool)
  {
    predicate Valid() {
      100 <= status <= 599
    }

    /** The row counts in the hourly table. */
    predicate Aggregated() {
      project.Some? && route.Some? && prefix.Some?
    }

    function GroupKey(): Key
      requires Aggregated()
    {
      Key(FloorHour(occurredAt), project.value, route.value, prefix.value, httpMethod)
    }
  }

  function NullIf(s: string): Option<string> {
    if s == "" then None else Some(s)
  }

  function RawOf(e: Event): (r: Raw)
    requires e.Valid()
    ensures r.Valid()
    ensures r.Aggregated() <==> e.ShouldAggregate()
  {
    Raw(e.schemaVersion, Stored(e.occurredAt), e.requestId, NullIf(ToLower(TrimSpace(e.project))),
        NullIf(TrimSpace(e.route)), NullIf(TrimSpace(e.prefix)), ToUpper(TrimSpace(e.httpMethod)), e.path,
        e.status, e.durationMs, e.responseBytes, e.clientType, e.clientId,
        e.authRequired, e.rateLimitEnabled, e.rateLimited)
  }

  /** The row keeps the event: its time to the microsecond, blank texts as null, the
      method in capitals, and everything else as it is. */
  predicate Records(row: Raw, e: Event) {
    && row.occurredAt <= e.occurredAt < row.occurredAt + 1_000 && row.occurredAt % 1_000 == 0
    && row.schemaVersion == e.schemaVersion && row.requestId == e.requestId && row.path == e.path
    && (if TrimSpace(e.project) == "" then row.project.None? else row.project == Some(ToLower(TrimSpace(e.project))))
    && (if TrimSpace(e.route) == "" then row.route.None? else row.route == Some(TrimSpace(e.route)))
    && (if TrimSpace(e.prefix) == "" then row.prefix.None? else row.prefix == Some(TrimSpace(e.prefix)))
    && row.httpMethod == ToUpper(TrimSpace(e.httpMethod))
    && row.status == e.status && row.durationMs == e.durationMs && row.responseBytes == e.responseBytes
    && row.clientType == e.clientType && row.clientId == e.clientId
    && row.authRequired == e.authRequired && row.rateLimitEnabled == e.rateLimitEnabled
    && row.rateLimited == e.rateLimited
  }

  lemma RawOfRecords(e: Event)
    requires e.Valid()
    ensures Records(RawOf(e), e)
  {
    hide TrimSpace, ToUpper, IsUuid;
    LowerKeepsBlank(TrimSpace(e.project));
    hide ToLower;
  }

  lemma LowerKeepsBlank(s: string)
    ensures ToLower(s) == "" <==> s == ""
  {
    assert |ToLower(s)| == |s|;
  }

  datatype Key = Key(bucket: Time, project: string, route: string, prefix: string, httpMethod: string)

  /** The key the upsert computes from the event itself. */
  function EventKey(e: Event): Key {
    Key(FloorHour(e.occurredAt), ToLower(TrimSpace(e.project)), TrimSpace(e.route), TrimSpace(e.prefix),
        ToUpper(TrimSpace(e.httpMethod)))
  }

  /** The event goes to the group its stored row belongs to. */
  lemma EventKeyIsRawKey(e: Event)
    requires e.Valid() && e.ShouldAggregate()
    ensures RawOf(e).GroupKey() == EventKey(e)
  {
    StoredKeepsHour(e.occurredAt);
    hide FloorHour, Stored, ToLower, ToUpper, TrimSpace, IsUuid;
  }

  // --------------------------------------------------------- hourly rows

  datatype Hourly = Hourly(
    requests: nat,
    status1xx: nat,
    status2xx: nat,
    status3xx: nat,
    status4xx: nat,
    status5xx: nat,
    rateLimited: nat,
    totalMs: nat,
    maxMs: nat,
    bytes: nat)
  {
    function ClassTotal(): nat {
      status1xx + status2xx + status3xx + status4xx + status5xx
    }

    predicate Fits() {
      requests <= MAX_INT64 && totalMs <= MAX_INT64 && bytes <= MAX_INT64
    }
  }

  const ZERO := Hourly(0, 0, 0, 0, 0, 0, 0, 0, 0, 0)

  /** The update of an existing row, and the merge of two groups of events. */
  function Plus(a: Hourly, b: Hourly): Hourly {
    Hourly(a.requests + b.requests, a.status1xx + b.status1xx, a.status2xx + b.status2xx,
           a.status3xx + b.status3xx, a.status4xx + b.status4xx, a.status5xx + b.status5xx,
           a.rateLimited + b.rateLimited, a.totalMs + b.totalMs, Max(a.maxMs, b.maxMs), a.bytes + b.bytes)
  }

  lemma PlusSwaps(a: Hourly, b: Hourly, c: Hourly)
    ensures Plus(a, Plus(b, c)) == Plus(b, Plus(a, c))
    ensures Plus(a, Plus(b, c)) == Plus(Plus(a, b), c)
    ensures Plus(a, b) == Plus(b, a)
    ensures Plus(a, ZERO) == a && Plus(ZERO, a) == a
  {}

  /** `statusClassCounts`, and the rest of what one event adds. */
  function One(status: int, rateLimited: bool, durationMs: nat, bytes: nat): Hourly {
    Hourly(1, Bit(status / 100 == 1), Bit(status / 100 == 2), Bit(status / 100 == 3),
           Bit(status / 100 == 4), Bit(status / 100 == 5), Bit(rateLimited), durationMs, durationMs, bytes)
  }

  function Bit(b: bool): nat {
    if b then 1 else 0
  }

  function OneRaw(r: Raw): Hourly {
    One(r.status, r.rateLimited, r.durationMs, r.responseBytes)
  }

  // ---------------------------------------------- the aggregate of a set of rows

  type EventId = string
  type RawTable = map<EventId, Raw>
  type HourlyTable = map<Key, Hourly>

  /** The sum of the rows with these ids, in an arbitrary order. */
  ghost function Total(raw: RawTable, ids: set<EventId>): Hourly
    requires ids <= raw.Keys
  {
    if ids == {} then ZERO else
    var id :| id in ids;
    Plus(OneRaw(raw[id]), Total(raw, ids - {id}))
  }

  /** ... which does not matter: any row may be taken out first. */
  lemma {:induction false} TotalSplit(raw: RawTable, ids: set<EventId>, id: EventId)
    requires ids <= raw.Keys && id in ids
    ensures Total(raw, ids) == Plus(OneRaw(raw[id]), Total(raw, ids - {id}))
    decreases |ids|
  {
    hide Plus, OneRaw;
    var first :| first in ids && Total(raw, ids) == Plus(OneRaw(raw[first]), Total(raw, ids - {first}));
    if first != id {
      var rest := ids - {first} - {id};
      assert rest == ids - {id} - {first};
      TotalSplit(raw, ids - {first}, id);
      TotalSplit(raw, ids - {id}, first);
      PlusSwaps(OneRaw(raw[first]), OneRaw(raw[id]), Total(raw, rest));
    }
  }

  lemma {:induction false} TotalSame(raw: RawTable, raw': RawTable, ids: set<EventId>)
    requires ids <= raw.Keys && ids <= raw'.Keys
    requires forall id :: id in ids ==> raw[id] == raw'[id]
    ensures Total(raw, ids) == Total(raw', ids)
    decreases |ids|
  {
    hide Plus, OneRaw;
    if ids != {} {
      var id :| id in ids;
      TotalSplit(raw, ids, id);
      TotalSplit(raw', ids, id);
      TotalSame(raw, raw', ids - {id});
    }
  }

  lemma {:induction false} TotalUnion(raw: RawTable, a: set<EventId>, b: set<EventId>)
    requires a <= raw.Keys && b <= raw.Keys && a !! b
    ensures Total(raw, a + b) == Plus(Total(raw, a), Total(raw, b))
    decreases |a|
  {
    hide Plus, OneRaw;
    if a == {} {
      assert a + b == b;
      PlusSwaps(Total(raw, b), ZERO, ZERO);
    } else {
      var id :| id in a;
      TotalSplit(raw, a, id);
      TotalSplit(raw, a + b, id);
      assert a + b - {id} == (a - {id}) + b;
      TotalUnion(raw, a - {id}, b);
      PlusSwaps(OneRaw(raw[id]), Total(raw, a - {id}), Total(raw, b));
    }
  }

  lemma OneClass(r: Raw)
    requires r.Valid()
    ensures OneRaw(r).ClassTotal() == 1 == OneRaw(r).requests
  {}

  lemma ZeroClasses()
    ensures ZERO.ClassTotal() == 0 == ZERO.requests
  {}

  lemma PlusCounts(a: Hourly, b: Hourly)
    ensures Plus(a, b).ClassTotal() == a.ClassTotal() + b.ClassTotal()
    ensures Plus(a, b).requests == a.requests + b.requests
  {}

  /** Every request is in exactly one status class. */
  lemma {:induction false} ClassesSumToRequests(raw: RawTable, ids: set<EventId>)
    requires ids <= raw.Keys
    requires forall id :: id in ids ==> raw[id].Valid()
    ensures Total(raw, ids).ClassTotal() == Total(raw, ids).requests == |ids|
    decreases |ids|
  {
    hide Plus, OneRaw, Total, Raw.Valid, Hourly.ClassTotal;
    if ids == {} {
      EmptyTotal(raw);
      ZeroClasses();
    } else {
      var id :| id in ids;
      TotalSplit(raw, ids, id);
      OneClass(raw[id]);
      PlusCounts(OneRaw(raw[id]), Total(raw, ids - {id}));
      ClassesSumToRequests(raw, ids - {id});
    }
  }

  // --------------------------------------------- what the numbers of a row mean

  /** The rows whose status is in the hundred that starts here. */
  ghost function InClass(raw: RawTable, ids: set<EventId>, start: int): set<EventId>
    requires ids <= raw.Keys
  {
    set id | id in ids && start <= raw[id].status < start + 100
  }

  ghost function Limited(raw: RawTable, ids: set<EventId>): set<EventId>
    requires ids <= raw.Keys
  {
    set id | id in ids && raw[id].rateLimited
  }

  ghost function SumMs(raw: RawTable, ids: set<EventId>): nat
    requires ids <= raw.Keys
  {
    if ids == {} then 0 else var id :| id in ids; raw[id].durationMs + SumMs(raw, ids - {id})
  }

  ghost function SumBytes(raw: RawTable, ids: set<EventId>): nat
    requires ids <= raw.Keys
  {
    if ids == {} then 0 else var id :| id in ids; raw[id].responseBytes + SumBytes(raw, ids - {id})
  }

  /** The longest duration, zero for no rows. */
  ghost predicate IsLongest(raw: RawTable, ids: set<EventId>, ms: nat)
    requires ids <= raw.Keys
  {
    && (forall id :: id in ids ==> raw[id].durationMs <= ms)
    && (if ids == {} then ms == 0 else exists id :: id in ids && raw[id].durationMs == ms)
  }

  /** The row says of these events how many there are, how many in each status
      class and rate limited, how long they took together and at most, and how
      many bytes they answered with. */
  ghost predicate Describes(row: Hourly, raw: RawTable, ids: set<EventId>)
    requires ids <= raw.Keys
  {
    && row.requests == |ids|
    && row.status1xx == |InClass(raw, ids, 100)|
    && row.status2xx == |InClass(raw, ids, 200)|
    && row.status3xx == |InClass(raw, ids, 300)|
    && row.status4xx == |InClass(raw, ids, 400)|
    && row.status5xx == |InClass(raw, ids, 500)|
    && row.rateLimited == |Limited(raw, ids)|
    && row.totalMs == SumMs(raw, ids)
    && row.bytes == SumBytes(raw, ids)
    && IsLongest(raw, ids, row.maxMs)
  }

  lemma {:induction false} SumMsSplit(raw: RawTable, ids: set<EventId>, id: EventId)
    requires ids <= raw.Keys && id in ids
    ensures SumMs(raw, ids) == raw[id].durationMs + SumMs(raw, ids - {id})
    decreases |ids|
  {
    var first :| first in ids && SumMs(raw, ids) == raw[first].durationMs + SumMs(raw, ids - {first});
    if first != id {
      assert ids - {first} - {id} == ids - {id} - {first};
      SumMsSplit(raw, ids - {first}, id);
      SumMsSplit(raw, ids - {id}, first);
    }
  }

  lemma {:induction false} SumBytesSplit(raw: RawTable, ids: set<EventId>, id: EventId)
    requires ids <= raw.Keys && id in ids
    ensures SumBytes(raw, ids) == raw[id].responseBytes + SumBytes(raw, ids - {id})
    decreases |ids|
  {
    var first :| first in ids && SumBytes(raw, ids) == raw[first].responseBytes + SumBytes(raw, ids - {first});
    if first != id {
      assert ids - {first} - {id} == ids - {id} - {first};
      SumBytesSplit(raw, ids - {first}, id);
      SumBytesSplit(raw, ids - {id}, first);
    }
  }

  lemma InClassSplit(raw: RawTable, ids: set<EventId>, id: EventId, start: int)
    requires ids <= raw.Keys && id in ids
    ensures |InClass(raw, ids, start)|
         == |InClass(raw, ids - {id}, start)| + if start <= raw[id].status < start + 100 then 1 else 0
  {
    var rest := InClass(raw, ids - {id}, start);
    assert InClass(raw, ids, start) == if start <= raw[id].status < start + 100 then rest + {id} else rest;
  }

  lemma LimitedSplit(raw: RawTable, ids: set<EventId>, id: EventId)
    requires ids <= raw.Keys && id in ids
    ensures |Limited(raw, ids)| == |Limited(raw, ids - {id})| + if raw[id].rateLimited then 1 else 0
  {
    var rest := Limited(raw, ids - {id});
    assert Limited(raw, ids) == if raw[id].rateLimited then rest + {id} else rest;
  }

  lemma LongestSplit(raw: RawTable, ids: set<EventId>, id: EventId, ms: nat)
    requires ids <= raw.Keys && id in ids && IsLongest(raw, ids - {id}, ms)
    ensures IsLongest(raw, ids, Max(raw[id].durationMs, ms))
  {
    if raw[id].durationMs < ms {
      var other :| other in ids - {id} && raw[other].durationMs == ms;
      assert other in ids;
    }
  }

  /** The five classes of one status. */
  lemma OneIsInItsClass(r: Raw)
    ensures var one := OneRaw(r);
            && one.requests == 1
            && one.status1xx == (if 100 <= r.status < 200 then 1 else 0)
            && one.status2xx == (if 200 <= r.status < 300 then 1 else 0)
            && one.status3xx == (if 300 <= r.status < 400 then 1 else 0)
            && one.status4xx == (if 400 <= r.status < 500 then 1 else 0)
            && one.status5xx == (if 500 <= r.status < 600 then 1 else 0)
            && one.rateLimited == (if r.rateLimited then 1 else 0)
            && one.totalMs == one.maxMs == r.durationMs && one.bytes == r.responseBytes
  {}

  lemma DescribesOneMore(raw: RawTable, ids: set<EventId>, id: EventId, rest: Hourly)
    requires ids <= raw.Keys && id in ids && Describes(rest, raw, ids - {id})
    ensures Describes(Plus(OneRaw(raw[id]), rest), raw, ids)
  {
    hide OneRaw, InClass, Limited, SumMs, SumBytes, IsLongest;
    OneIsInItsClass(raw[id]);
    InClassSplit(raw, ids, id, 100);
    InClassSplit(raw, ids, id, 200);
    InClassSplit(raw, ids, id, 300);
    InClassSplit(raw, ids, id, 400);
    InClassSplit(raw, ids, id, 500);
    LimitedSplit(raw, ids, id);
    SumMsSplit(raw, ids, id);
    SumBytesSplit(raw, ids, id);
    LongestSplit(raw, ids, id, rest.maxMs);
  }

  lemma DescribesNone(raw: RawTable)
    ensures Describes(ZERO, raw, {})
  {
    assert InClass(raw, {}, 100) == InClass(raw, {}, 200) == InClass(raw, {}, 300) == {};
    assert InClass(raw, {}, 400) == InClass(raw, {}, 500) == {} == Limited(raw, {});
  }

  /** The sum of any rows describes them. */
  lemma {:induction false} TotalDescribes(raw: RawTable, ids: set<EventId>)
    requires ids <= raw.Keys
    ensures Describes(Total(raw, ids), raw, ids)
    decreases |ids|
  {
    hide Plus, OneRaw, Total, Describes;
    if ids == {} {
      EmptyTotal(raw);
      DescribesNone(raw);
    } else {
      var id :| id in ids;
      TotalSplit(raw, ids, id);
      TotalDescribes(raw, ids - {id});
      DescribesOneMore(raw, ids, id, Total(raw, ids - {id}));
    }
  }

  ghost function IdsOf(raw: RawTable, key: Key): (ids: set<EventId>)
    ensures ids <= raw.Keys
  {
    set id | id in raw && raw[id].Aggregated() && raw[id].GroupKey() == key
  }

  /** A group has a row exactly when it has events, and the row is their sum. */
  ghost predicate GroupOk(hourly: HourlyTable, raw: RawTable, key: Key) {
    && (key in hourly <==> IdsOf(raw, key) != {})
    && (key in hourly ==> hourly[key] == Total(raw, IdsOf(raw, key)))
  }

  /** The hourly table is the recomputation from the distinct stored events. */
  ghost predicate Aggregates(hourly: HourlyTable, raw: RawTable) {
    forall key :: GroupOk(hourly, raw, key)
  }

  /** There is only one such table. */
  lemma AggregateIsUnique(a: HourlyTable, b: HourlyTable, raw: RawTable)
    requires Aggregates(a, raw) && Aggregates(b, raw)
    ensures a == b
  {
    forall key ensures key in a <==> key in b {
      assert GroupOk(a, raw, key) && GroupOk(b, raw, key);
    }
    forall key | key in a ensures a[key] == b[key] {
      assert GroupOk(a, raw, key) && GroupOk(b, raw, key);
    }
  }

  /** In every hourly row the status classes add up to the number of its events. */
  lemma HourlyClassesAddUp(hourly: HourlyTable, raw: RawTable, key: Key)
    requires Aggregates(hourly, raw) && RawValid(raw) && key in hourly
    ensures hourly[key].ClassTotal() == hourly[key].requests == |IdsOf(raw, key)|
  {
    hide Total, Hourly.ClassTotal, Raw.Valid;
    assert GroupOk(hourly, raw, key);
    ClassesSumToRequests(raw, IdsOf(raw, key));
  }

  /** The event is of the key's project, route, prefix and method, in the hour that
      starts at its bucket. */
  predicate InGroup(row: Raw, key: Key) {
    && row.project == Some(key.project) && row.route == Some(key.route) && row.prefix == Some(key.prefix)
    && row.httpMethod == key.httpMethod
    && key.bucket % 3_600_000_000_000 == 0 && key.bucket <= row.occurredAt < key.bucket + 3_600_000_000_000
  }

  ghost function Group(raw: RawTable, key: Key): (ids: set<EventId>)
    ensures ids <= raw.Keys
  {
    set id | id in raw && InGroup(raw[id], key)
  }

  lemma InGroupIff(row: Raw, key: Key)
    ensures row.Aggregated() && row.GroupKey() == key <==> InGroup(row, key)
  {
    var t, b := row.occurredAt, key.bucket;
    assert FloorHour(t) == b <==> b % HOUR == 0 && b <= t < b + HOUR by {
      if b % HOUR == 0 && b <= t < b + HOUR { DivModUnique(t, HOUR, b / HOUR, t - b); }
    }
    hide FloorHour;
  }

  /** Every hourly row describes the stored events of its hour, route and method,
      and there is a row exactly for every such group with an event. */
  lemma HourlyRowsDescribe(hourly: HourlyTable, raw: RawTable, key: Key)
    requires Aggregates(hourly, raw)
    ensures key in hourly <==> Group(raw, key) != {}
    ensures key in hourly ==> Describes(hourly[key], raw, Group(raw, key))
  {
    hide Total, Describes, InGroup;
    forall id | id in raw ensures id in IdsOf(raw, key) <==> id in Group(raw, key) {
      InGroupIff(raw[id], key);
    }
    assert IdsOf(raw, key) == Group(raw, key);
    assert GroupOk(hourly, raw, key);
    TotalDescribes(raw, IdsOf(raw, key));
  }

  lemma AggregatesEmpty()
    ensures Aggregates(map[], map[])
  {}

  // ------------------------------------------------------ storing an event

  datatype Tables = Tables(raw: RawTable, hourly: HourlyTable)

  const NO_EVENTS := Tables(map[], map[])

  /** INSERT ... ON CONFLICT DO UPDATE. */
  function Upsert(hourly: HourlyTable, key: Key, one: Hourly): HourlyTable {
    hourly[key := if key in hourly then Plus(hourly[key], one) else one]
  }

  /** The committed effect of the transaction: a known id is left alone. */
  function Absorb(t: Tables, e: Event): Tables
    requires e.Valid()
  {
    if e.id in t.raw then t
    else
      Tables(t.raw[e.id := RawOf(e)],
             if e.ShouldAggregate()
             then Upsert(t.hourly, EventKey(e), One(e.status, e.rateLimited, e.durationMs, e.responseBytes))
             else t.hourly)
  }

  predicate RawValid(raw: RawTable) {
    forall id :: id in raw ==> raw[id].Valid()
  }

  lemma IdsAfterInsert(raw: RawTable, id: EventId, row: Raw, key: Key)
    requires id !in raw
    ensures IdsOf(raw[id := row], key)
         == IdsOf(raw, key) + if row.Aggregated() && row.GroupKey() == key then {id} else {}
  {}

  lemma TotalAfterInsert(raw: RawTable, id: EventId, row: Raw, key: Key)
    requires id !in raw
    ensures Total(raw[id := row], IdsOf(raw[id := row], key))
         == if row.Aggregated() && row.GroupKey() == key
            then Plus(OneRaw(row), Total(raw, IdsOf(raw, key))) else Total(raw, IdsOf(raw, key))
  {
    hide Plus, OneRaw;
    var raw' := raw[id := row];
    var ids := IdsOf(raw, key);
    IdsAfterInsert(raw, id, row, key);
    TotalSame(raw, raw', ids);
    if row.Aggregated() && row.GroupKey() == key {
      TotalSplit(raw', ids + {id}, id);
      assert ids + {id} - {id} == ids;
    } else {
      assert ids + {} == ids;
    }
  }

  lemma InsertKeepsGroup(raw: RawTable, hourly: HourlyTable, id: EventId, row: Raw, hourly': HourlyTable, key: Key)
    requires GroupOk(hourly, raw, key) && id !in raw
    requires hourly' == if row.Aggregated() then Upsert(hourly, row.GroupKey(), OneRaw(row)) else hourly
    ensures GroupOk(hourly', raw[id := row], key)
  {
    hide Plus, OneRaw, Total, IdsOf;
    var ids := IdsOf(raw, key);
    IdsAfterInsert(raw, id, row, key);
    TotalAfterInsert(raw, id, row, key);
    PlusSwaps(OneRaw(row), Total(raw, ids), ZERO);
    if ids == {} { EmptyTotal(raw); }
  }

  /** Inserting a row and adding it to its group keeps the aggregate. */
  lemma InsertKeepsAggregate(raw: RawTable, hourly: HourlyTable, id: EventId, row: Raw, hourly': HourlyTable)
    requires Aggregates(hourly, raw) && id !in raw
    requires hourly' == if row.Aggregated() then Upsert(hourly, row.GroupKey(), OneRaw(row)) else hourly
    ensures Aggregates(hourly', raw[id := row])
  {
    hide Plus, OneRaw, Total, IdsOf, Upsert;
    var raw' := raw[id := row];
    forall key ensures GroupOk(hourly', raw', key) {
      assert GroupOk(hourly, raw, key);
      InsertKeepsGroup(raw, hourly, id, row, hourly', key);
    }
  }

  lemma EmptyTotal(raw: RawTable)
    ensures Total(raw, {}) == ZERO
  {}

  /** Storing an event, new or not, keeps the hourly table equal to the
      recomputation from all distinct stored events. */
  lemma AbsorbKeepsAggregate(t: Tables, e: Event)
    requires e.Valid() && Aggregates(t.hourly, t.raw) && RawValid(t.raw)
    ensures Aggregates(Absorb(t, e).hourly, Absorb(t, e).raw) && RawValid(Absorb(t, e).raw)
  {
    hide Event.Valid, Event.ShouldAggregate, EventKey;
    if e.id !in t.raw {
      if e.ShouldAggregate() { EventKeyIsRawKey(e); }
      InsertKeepsAggregate(t.raw, t.hourly, e.id, RawOf(e), Absorb(t, e).hourly);
    }
  }
}
