/** Storing access events with retries, and the independence of the result from
    the order in which events arrive. */
module Ingestion {
  import opened Text
  import opened AccessStats

  // ------------------------------------------------------ a list of events

  ghost predicate AllValid(es: seq<Event>) {
    forall i :: 0 <= i < |es| ==> es[i].Valid()
  }

  /** The tables after storing the events one after the other. */
  ghost function AbsorbAll(t: Tables, es: seq<Event>): Tables
    requires AllValid(es)
  {
    if es == [] then t else Absorb(AbsorbAll(t, es[..|es| - 1]), es[|es| - 1])
  }

  lemma {:induction false} AbsorbAllKeepsAggregate(t: Tables, es: seq<Event>)
    requires AllValid(es) && Aggregates(t.hourly, t.raw) && RawValid(t.raw)
    ensures Aggregates(AbsorbAll(t, es).hourly, AbsorbAll(t, es).raw) && RawValid(AbsorbAll(t, es).raw)
  {
    if es != [] {
      AbsorbAllKeepsAggregate(t, es[..|es| - 1]);
      AbsorbKeepsAggregate(AbsorbAll(t, es[..|es| - 1]), es[|es| - 1]);
    }
  }

  ghost predicate Occurs(es: seq<Event>, id: EventId) {
    exists i :: 0 <= i < |es| && es[i].id == id
  }

  /** The first event with an id is the one that is stored. */
  lemma {:induction false} FirstWins(es: seq<Event>, id: EventId)
    requires AllValid(es)
    ensures id in AbsorbAll(NO_EVENTS, es).raw <==> Occurs(es, id)
    ensures Occurs(es, id) ==>
              exists i :: && 0 <= i < |es| && es[i].id == id && !Occurs(es[..i], id)
                          && AbsorbAll(NO_EVENTS, es).raw[id] == RawOf(es[i])
  {
    hide Event.Valid, Event.ShouldAggregate, EventKey, RawOf;
    if es != [] {
      var n := |es| - 1;
      var before := es[..n];
      FirstWins(before, id);
      if Occurs(before, id) {
        var i :| && 0 <= i < |before| && before[i].id == id && !Occurs(before[..i], id)
                 && AbsorbAll(NO_EVENTS, before).raw[id] == RawOf(before[i]);
        assert es[i] == before[i] && es[..i] == before[..i];
      } else if es[n].id == id {
        assert es[n].id == id && es[..n] == before;
      } else {
        assert forall i :: 0 <= i < n ==> es[i] == before[i];
      }
    }
  }

  /** Events with the same id are stored as the same row. */
  ghost predicate IdsDetermineRows(es: seq<Event>)
    requires AllValid(es)
  {
    forall i, j :: 0 <= i < |es| && 0 <= j < |es| && es[i].id == es[j].id ==> RawOf(es[i]) == RawOf(es[j])
  }

  /** When ids determine rows, lists with the same events give the same tables,
      whatever the order and however often each is repeated. */
  lemma SameEventsSameTables(es: seq<Event>, es': seq<Event>)
    requires AllValid(es) && AllValid(es') && IdsDetermineRows(es)
    requires forall e :: e in es <==> e in es'
    ensures AbsorbAll(NO_EVENTS, es) == AbsorbAll(NO_EVENTS, es')
  {
    hide Event.Valid, Event.ShouldAggregate, EventKey, RawOf;
    var t, t' := AbsorbAll(NO_EVENTS, es), AbsorbAll(NO_EVENTS, es');
    forall id ensures (id in t.raw <==> id in t'.raw) && (id in t.raw ==> t.raw[id] == t'.raw[id]) {
      SameRow(es, es', id);
    }
    AggregatesEmpty();
    AbsorbAllKeepsAggregate(NO_EVENTS, es);
    AbsorbAllKeepsAggregate(NO_EVENTS, es');
    assert t.raw == t'.raw;
    AggregateIsUnique(t.hourly, t'.hourly, t.raw);
  }

  lemma SameRow(es: seq<Event>, es': seq<Event>, id: EventId)
    requires AllValid(es) && AllValid(es') && IdsDetermineRows(es)
    requires forall e :: e in es <==> e in es'
    ensures id in AbsorbAll(NO_EVENTS, es).raw <==> id in AbsorbAll(NO_EVENTS, es').raw
    ensures id in AbsorbAll(NO_EVENTS, es).raw ==>
              AbsorbAll(NO_EVENTS, es).raw[id] == AbsorbAll(NO_EVENTS, es').raw[id]
  {
    hide Event.Valid, Absorb, RawOf;
    FirstWins(es, id);
    FirstWins(es', id);
    if Occurs(es', id) {
      var j :| && 0 <= j < |es'| && es'[j].id == id && !Occurs(es'[..j], id)
               && AbsorbAll(NO_EVENTS, es').raw[id] == RawOf(es'[j]);
      assert es'[j] in es;
      var k :| 0 <= k < |es| && es[k] == es'[j];
      assert Occurs(es, id);
    }
    if Occurs(es, id) {
      var i :| 0 <= i < |es| && es[i].id == id;
      assert es[i] in es';
    }
  }

  ghost predicate Permutation(es: seq<Event>, es': seq<Event>) {
    multiset(es) == multiset(es')
  }

  lemma PermutationSameEvents(es: seq<Event>, es': seq<Event>)
    requires Permutation(es, es')
    ensures forall e :: e in es <==> e in es'
    ensures AllValid(es) ==> AllValid(es')
  {
    forall e ensures e in es <==> e in es' {
      assert e in es <==> e in multiset(es);
      assert e in es' <==> e in multiset(es');
    }
    forall i | AllValid(es) && 0 <= i < |es'| ensures es'[i].Valid() {
      assert es'[i] in es;
    }
  }

  /** An event brought to the front of a list. */
  ghost function ToFront(es: seq<Event>, i: nat): seq<Event>
    requires i < |es|
  {
    [es[i]] + es[..i] + es[i + 1..]
  }

  lemma ToFrontPermutes(es: seq<Event>, i: nat)
    requires i < |es|
    ensures Permutation(es, ToFront(es, i))
  {
    assert es == es[..i] + ([es[i]] + es[i + 1..]);
    assert ToFront(es, i) == ([es[i]] + es[..i]) + es[i + 1..];
  }

  lemma FrontOccurs(es: seq<Event>, i: nat)
    requires i <= |es|
    ensures i > 0 ==> Occurs(es[..i], es[0].id)
  {}

  lemma FrontIsStored(es: seq<Event>)
    requires AllValid(es) && es != []
    ensures es[0].id in AbsorbAll(NO_EVENTS, es).raw
    ensures AbsorbAll(NO_EVENTS, es).raw[es[0].id] == RawOf(es[0])
  {
    hide Event.Valid, Absorb, RawOf;
    FirstWins(es, es[0].id);
    assert Occurs(es, es[0].id);
    var i :| && 0 <= i < |es| && es[i].id == es[0].id && !Occurs(es[..i], es[0].id)
             && AbsorbAll(NO_EVENTS, es).raw[es[0].id] == RawOf(es[i]);
    FrontOccurs(es, i);
  }

  ghost predicate OrderIrrelevant(es: seq<Event>)
    requires AllValid(es)
  {
    forall es' :: Permutation(es, es') && AllValid(es') ==> AbsorbAll(NO_EVENTS, es') == AbsorbAll(NO_EVENTS, es)
  }

  /** The tables do not depend on the delivery order exactly when ids determine
      the stored rows. */
  lemma OrderIrrelevantIff(es: seq<Event>)
    requires AllValid(es)
    ensures OrderIrrelevant(es) <==> IdsDetermineRows(es)
  {
    if IdsDetermineRows(es) {
      forall es' | Permutation(es, es') && AllValid(es')
        ensures AbsorbAll(NO_EVENTS, es') == AbsorbAll(NO_EVENTS, es)
      {
        PermutationSameEvents(es, es');
        SameEventsSameTables(es, es');
      }
    }
    if OrderIrrelevant(es) {
      forall i, j | 0 <= i < |es| && 0 <= j < |es| && es[i].id == es[j].id
        ensures RawOf(es[i]) == RawOf(es[j])
      {
        FrontWins(es, i);
        FrontWins(es, j);
      }
    }
  }

  /** The tables tell which of two events came first. */
  ghost predicate OrderShows(a: Event, b: Event) {
    a.Valid() && b.Valid() && AbsorbAll(NO_EVENTS, [a, b]) != AbsorbAll(NO_EVENTS, [b, a])
  }

  lemma DifferentRowsShowOrder(a: Event, b: Event)
    requires a.Valid() && b.Valid() && a.id == b.id && RawOf(a) != RawOf(b)
    ensures OrderShows(a, b)
  {
    hide Event.Valid, Absorb, RawOf;
    FrontIsStored([a, b]);
    FrontIsStored([b, a]);
  }

  /** An event of a client that asked for some path. */
  function Visit(path: string): Event {
    Event(1, "e", 0, "e", "", "", "", "GET", path, 200, 0, 0, "ip", "e", false, false, false)
  }

  lemma VisitIsValid(path: string)
    requires TrimSpace(path) != ""
    ensures Visit(path).Valid() && RawOf(Visit(path)).path == path
  {
    TrimFixedIff("e");
    TrimFixedIff("GET");
    TrimFixedIff("");
    hide TrimSpace, IsUuid, ToUpper, ToLower;
  }

  lemma PathsShowOrder(a: string, b: string)
    requires TrimSpace(a) != "" && TrimSpace(b) != "" && a != b
    ensures OrderShows(Visit(a), Visit(b))
  {
    VisitIsValid(a);
    VisitIsValid(b);
    hide Event.Valid, OrderShows, RawOf;
    DifferentRowsShowOrder(Visit(a), Visit(b));
  }

  /** One such pair: two events with one id that differ in the path only. */
  lemma OrderMatters()
    ensures Visit("/a").id == Visit("/b").id && OrderShows(Visit("/a"), Visit("/b"))
  {
    TrimFixedIff("/a");
    TrimFixedIff("/b");
    hide OrderShows;
    PathsShowOrder("/a", "/b");
  }

  lemma FrontWins(es: seq<Event>, i: nat)
    requires AllValid(es) && i < |es| && OrderIrrelevant(es)
    ensures es[i].id in AbsorbAll(NO_EVENTS, es).raw
    ensures AbsorbAll(NO_EVENTS, es).raw[es[i].id] == RawOf(es[i])
  {
    hide Event.Valid, Absorb, RawOf;
    ToFrontPermutes(es, i);
    PermutationSameEvents(es, ToFront(es, i));
    FrontIsStored(ToFront(es, i));
  }

  // --------------------------------------------------- one transaction, in place

  /** How the database answers a transaction. */
  datatype Database = Works | Breaks | CommitsSilently  // ... and reports an error

  datatype StoreResult = Duplicate | New(aggregated: bool) | Error

  /** A sum that leaves 64 bits makes the statement fail. */
  predicate Overflows(t: Tables, e: Event)
    requires e.Valid()
  {
    && e.id !in t.raw && e.ShouldAggregate()
    && !Absorb(t, e).hourly[EventKey(e)].Fits()
  }

  class Store {
    var tables: Tables

    constructor ()
      ensures tables == NO_EVENTS
    {
      tables := NO_EVENTS;
    }

    /** `StoreGatewayAccess`: either nothing happens or the whole effect does. */
    method StoreGatewayAccess(e: Event, database: Database) returns (r: StoreResult)
      requires e.Valid()
      modifies this
      ensures tables == if database.Breaks? || Overflows(old(tables), e) then old(tables) else Absorb(old(tables), e)
      ensures r.Error? <==>
                (database.Breaks? || Overflows(old(tables), e) || (database.CommitsSilently? && e.id !in old(tables.raw)))
      ensures !r.Error? ==> (r.Duplicate? <==> e.id in old(tables.raw))
      ensures r.New? ==> (r.aggregated <==> e.ShouldAggregate())
      ensures !r.Error? ==> e.id in tables.raw
    {
      if database.Breaks? {
        return Error;
      }
      if e.id in tables.raw {
        return Duplicate;
      }
      var raw := tables.raw[e.id := RawOf(e)];
      var hourly := tables.hourly;
      if e.ShouldAggregate() {
        hourly := Upsert(hourly, EventKey(e), One(e.status, e.rateLimited, e.durationMs, e.responseBytes));
        if !hourly[EventKey(e)].Fits() {
          return Error;
        }
      }
      tables := Tables(raw, hourly);
      r := if database.CommitsSilently? then Error else New(e.ShouldAggregate());
    }
  }

  // ------------------------------------------------------------- retry delays

  /** Durations are 64-bit counts of nanoseconds. */
  type Duration = int

  function NextRetryDelay(current: Duration, maximum: Duration): Duration {
    if current >= maximum then maximum
    else if current > maximum / 2 then maximum
    else current * 2
  }

  function Pow2(k: nat): (r: nat)
    ensures r >= 1
  {
    if k == 0 then 1 else 2 * Pow2(k - 1)
  }

  /** The k-th delay of the loop: doubled each time, up to the maximum. */
  function NthDelay(k: nat, retryMin: Duration, retryMax: Duration): Duration {
    Min(retryMin * Pow2(k), retryMax)
  }

  /** `nextRetryDelay` steps from one delay to the next without leaving 64 bits. */
  lemma DelayDoubles(k: nat, retryMin: Duration, retryMax: Duration)
    requires 0 < retryMin <= retryMax <= MAX_INT64
    ensures NextRetryDelay(NthDelay(k, retryMin, retryMax), retryMax) == NthDelay(k + 1, retryMin, retryMax)
    ensures 0 < NthDelay(k, retryMin, retryMax) <= retryMax
    ensures var d := NthDelay(k, retryMin, retryMax); d < retryMax && d <= retryMax / 2 ==> d * 2 <= MAX_INT64
  {}

  datatype Retried = Kept(result: StoreResult) | Invalid | GaveUp | Cancelled

  /** What the surroundings do on the k-th attempt. */
  datatype Weather = Weather(database: Database, cancelledByThen: bool, cancelledWhileWaiting: bool)

  const FINE := Weather(Works, false, false)

  /** What retries can have done to the tables: the event is in them once or not at all. */
  predicate StoredAtMostOnce(before: Tables, after: Tables, e: Event) {
    after == before || (e.Valid() && after == Absorb(before, e))
  }

  /** `processWithRetry`.  Whatever fails and however often, the tables end as if
      the event had been stored once or not at all; success means it is stored.
      It is retried until it is stored, the attempts are used up or the context is
      cancelled, and an attempt fails only if the database does or a sum overflows.
      Each wait is the next of the doubling delays. */
  method ProcessWithRetry(store: Store, e: Event, weather: nat -> Weather, retryMin: Duration, retryMax: Duration,
                          maxAttempts: int)
      returns (r: Retried, calls: nat, waits: seq<Duration>)
    requires 0 < retryMin <= retryMax <= MAX_INT64 && 0 < maxAttempts
    modifies store
    ensures StoredAtMostOnce(old(store.tables), store.tables, e)
    ensures r.Kept? ==> e.Valid() && e.id in store.tables.raw && !r.result.Error?
    ensures r.Invalid? <==> !e.Valid()
    ensures 1 <= calls <= maxAttempts
    ensures r.GaveUp? ==> calls == maxAttempts
    ensures |waits| == calls - 1 || (r.Cancelled? && |waits| == calls)
    ensures forall k :: 0 <= k < |waits| ==> waits[k] == NthDelay(k, retryMin, retryMax)
    ensures r.Cancelled? ==> weather(calls - 1).cancelledByThen || weather(calls - 1).cancelledWhileWaiting
    ensures forall k :: 0 <= k < calls - 1 ==> !weather(k).cancelledByThen && !weather(k).cancelledWhileWaiting
    ensures e.Valid() ==>
              forall k :: 0 <= k < (if r.Kept? then calls - 1 else calls) ==>
                !weather(k).database.Works? || Overflows(old(store.tables), e)
  {
    hide Absorb, Event.Valid, EventKey, Hourly.Fits;
    var delay, attempt := retryMin, 1;
    calls, waits := 0, [];
    while attempt <= maxAttempts
      invariant 1 <= attempt <= maxAttempts
      invariant calls == attempt - 1 == |waits|
      invariant delay == NthDelay(|waits|, retryMin, retryMax)
      invariant forall k :: 0 <= k < |waits| ==> waits[k] == NthDelay(k, retryMin, retryMax)
      invariant StoredAtMostOnce(old(store.tables), store.tables, e)
      invariant calls > 0 ==> e.Valid()
      invariant forall k :: 0 <= k < calls ==> !weather(k).cancelledByThen && !weather(k).cancelledWhileWaiting
      invariant e.Valid() ==> forall k :: 0 <= k < calls ==> !weather(k).database.Works? || Overflows(old(store.tables), e)
    {
      calls := calls + 1;
      if !e.Valid() {
        return Invalid, calls, waits;
      }
      var result := store.StoreGatewayAccess(e, weather(calls - 1).database);
      AbsorbTwice(old(store.tables), e);
      if !result.Error? {
        return Kept(result), calls, waits;
      }
      if weather(calls - 1).cancelledByThen {
        return Cancelled, calls, waits;
      }
      if attempt == maxAttempts {
        return GaveUp, calls, waits;
      }
      DelayDoubles(|waits|, retryMin, retryMax);
      waits := waits + [delay];
      if weather(calls - 1).cancelledWhileWaiting {
        return Cancelled, calls, waits;
      }
      delay := NextRetryDelay(delay, retryMax);
      attempt := attempt + 1;
    }
    // the loop is only left by a return
    assert false;
    r := GaveUp;
  }

  /** Replaying a stored event changes neither table. */
  lemma AbsorbTwice(t: Tables, e: Event)
    requires e.Valid()
    ensures e.id in t.raw ==> Absorb(t, e) == t
    ensures e.id in Absorb(t, e).raw
    ensures Absorb(Absorb(t, e), e) == Absorb(t, e)
    ensures !Overflows(Absorb(t, e), e)
  {}
}
