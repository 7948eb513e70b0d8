/** Consuming the access log: a partitioned log read at least once, tables
    filled by transactions, and offsets committed afterwards.

    Producers append, any number of consumer sessions read, store and commit in
    any order.  A session may stop between any two steps; a new one starts at
    the committed offset.  Sessions on the same partition may overlap, and a
    session that has lost its partition may still store and commit. */
module AccessLog {
  import opened Text
  import opened AccessStats
  import opened Ingestion

  type Partition = nat
  type SessionId = nat

  datatype Record = Garbage | Carries(event: Event) {
    /** Decodes and validates. */
    predicate Usable() {
      Carries? && event.Valid()
    }
  }

  datatype Phase =
    | Idle      // ready to poll
    | Holding   // the record at `position` has been fetched
    | Handled   // ... and stored, or skipped as invalid
    | Stopped

  datatype Session = Session(partition: Partition, position: nat, phase: Phase)

  datatype State = State(
    log: map<Partition, seq<Record>>,
    committed: map<Partition, nat>,
    tables: Tables,
    sessions: map<SessionId, Session>)
  {
    function Log(p: Partition): seq<Record> {
      if p in log then log[p] else []
    }

    /** A group without a committed offset starts at the beginning. */
    function Committed(p: Partition): nat {
      if p in committed then committed[p] else 0
    }

    predicate Holds(id: SessionId) {
      id in sessions && sessions[id].phase.Holding? && sessions[id].position < |Log(sessions[id].partition)|
    }

    function Held(id: SessionId): Record
      requires Holds(id)
    {
      Log(sessions[id].partition)[sessions[id].position]
    }

    function WithPhase(id: SessionId, phase: Phase): State
      requires id in sessions
    {
      this.(sessions := sessions[id := sessions[id].(phase := phase)])
    }
  }

  const START := State(map[], map[], NO_EVENTS, map[])

  datatype Step =
    | Append(partition: Partition, record: Record)
    | Open(id: SessionId, partition: Partition)
    | Poll(id: SessionId)
    | Skip(id: SessionId)                                    // the record is not usable
    | Transact(id: SessionId, commits: bool, reported: bool) // one call of StoreGatewayAccess
    | CommitOffset(id: SessionId, applied: bool, reported: bool)
    | Stop(id: SessionId)

  predicate Enabled(s: State, step: Step) {
    match step
    case Append(_, _) => true
    case Open(id, _) => id !in s.sessions
    case Poll(id) =>
      id in s.sessions && s.sessions[id].phase.Idle? && s.sessions[id].position < |s.Log(s.sessions[id].partition)|
    case Skip(id) => s.Holds(id) && !s.Held(id).Usable()
    case Transact(id, commits, reported) =>
      && s.Holds(id) && s.Held(id).Usable()
      && (commits ==> !Overflows(s.tables, s.Held(id).event))
      && (reported ==> commits)
    case CommitOffset(id, applied, reported) =>
      id in s.sessions && s.sessions[id].phase.Handled? && (reported ==> applied)
    case Stop(id) => id in s.sessions
  }

  function Apply(s: State, step: Step): State
    requires Enabled(s, step)
  {
    match step
    case Append(p, record) => s.(log := s.log[p := s.Log(p) + [record]])
    case Open(id, p) => s.(sessions := s.sessions[id := Session(p, s.Committed(p), Idle)])
    case Poll(id) => s.WithPhase(id, Holding)
    case Skip(id) => s.WithPhase(id, Handled)
    case Transact(id, commits, reported) =>
      // an unreported outcome leaves the session retrying
      (if reported then s.WithPhase(id, Handled) else s)
      .(tables := if commits then Absorb(s.tables, s.Held(id).event) else s.tables)
    case CommitOffset(id, applied, reported) =>
      var session := s.sessions[id];
      var next := if reported then session.(position := session.position + 1, phase := Idle)
                  else session.(phase := Stopped);
      s.(sessions := s.sessions[id := next],
         committed := if applied then s.committed[session.partition := session.position + 1] else s.committed)
    case Stop(id) => s.WithPhase(id, Stopped)
  }

  // ---------------------------------------------------------- the invariant

  /** Nothing is left to do for the record. */
  predicate Settled(raw: RawTable, record: Record) {
    record.Usable() ==> record.event.id in raw
  }

  ghost predicate SettledUpTo(raw: RawTable, log: seq<Record>, n: nat) {
    n <= |log| && forall i :: 0 <= i < n ==> Settled(raw, log[i])
  }

  ghost predicate SessionOk(s: State, session: Session) {
    && SettledUpTo(s.tables.raw, s.Log(session.partition), session.position)
    && (session.phase.Handled? ==> SettledUpTo(s.tables.raw, s.Log(session.partition), session.position + 1))
  }

  /** The row came from a record of the log. */
  ghost predicate FromLog(s: State, id: EventId, row: Raw) {
    exists p, i :: && p in s.log && 0 <= i < |s.log[p]| && s.log[p][i].Usable()
                   && s.log[p][i].event.id == id && RawOf(s.log[p][i].event) == row
  }

  ghost predicate Inv(s: State) {
    && Aggregates(s.tables.hourly, s.tables.raw) && RawValid(s.tables.raw)
    && (forall p: Partition :: SettledUpTo(s.tables.raw, s.Log(p), s.Committed(p)))
    && (forall id :: id in s.sessions ==> SessionOk(s, s.sessions[id]))
    && (forall id :: id in s.tables.raw ==> FromLog(s, id, s.tables.raw[id]))
  }

  lemma InitialInv()
    ensures Inv(START)
  {}

  /** Logs and the raw table only grow. */
  ghost predicate Grows(s: State, s': State) {
    && (forall p: Partition :: s.Log(p) <= s'.Log(p))
    && (forall id :: id in s.tables.raw ==> id in s'.tables.raw && s'.tables.raw[id] == s.tables.raw[id])
  }

  lemma StepGrows(s: State, step: Step)
    requires Enabled(s, step)
    ensures Grows(s, Apply(s, step))
  {}

  lemma SettledStable(s: State, s': State, p: Partition, n: nat)
    requires Grows(s, s') && SettledUpTo(s.tables.raw, s.Log(p), n)
    ensures SettledUpTo(s'.tables.raw, s'.Log(p), n)
  {}

  lemma FromLogStable(s: State, s': State, id: EventId, row: Raw)
    requires Grows(s, s') && FromLog(s, id, row)
    ensures FromLog(s', id, row)
  {
    var p, i :| && p in s.log && 0 <= i < |s.log[p]| && s.log[p][i].Usable()
                && s.log[p][i].event.id == id && RawOf(s.log[p][i].event) == row;
    assert s.Log(p) <= s'.Log(p);
    assert s'.log[p][i] == s.log[p][i];
  }

  lemma StepKeepsTables(s: State, step: Step)
    requires Inv(s) && Enabled(s, step)
    ensures Aggregates(Apply(s, step).tables.hourly, Apply(s, step).tables.raw)
    ensures RawValid(Apply(s, step).tables.raw)
  {
    hide Aggregates, RawValid, Event.Valid, Absorb;
    match step
    case Transact(id, _, _) => AbsorbKeepsAggregate(s.tables, s.Held(id).event);
    case _ =>
  }

  lemma StepKeepsCommitted(s: State, step: Step, p: Partition)
    requires Inv(s) && Enabled(s, step)
    ensures SettledUpTo(Apply(s, step).tables.raw, Apply(s, step).Log(p), Apply(s, step).Committed(p))
  {
    hide Aggregates, RawValid, Event.Valid, Absorb, FromLog;
    var s' := Apply(s, step);
    StepGrows(s, step);
    SettledStable(s, s', p, s.Committed(p));
    if step.CommitOffset? {
      var session := s.sessions[step.id];
      assert SessionOk(s, session);
      SettledStable(s, s', session.partition, session.position + 1);
    }
  }

  /** The record a session has just handled is settled. */
  lemma HandledIsSettled(s: State, step: Step, id: SessionId)
    requires Enabled(s, step) && id in s.sessions && id in Apply(s, step).sessions
    requires !s.sessions[id].phase.Handled? && Apply(s, step).sessions[id].phase.Handled?
    ensures s.Holds(id) && Settled(Apply(s, step).tables.raw, s.Held(id))
    ensures Apply(s, step).sessions[id] == s.sessions[id].(phase := Handled)
  {}

  lemma SessionMoves(s: State, step: Step, id: SessionId)
    requires Enabled(s, step) && id in s.sessions
    ensures id in Apply(s, step).sessions
    ensures var session, session' := s.sessions[id], Apply(s, step).sessions[id];
            && session'.partition == session.partition
            && (session'.position == session.position || (session.phase.Handled? && session'.position == session.position + 1))
            && (session'.phase.Handled? && session.phase.Handled? ==> session' == session)
  {}

  lemma StepKeepsSession(s: State, step: Step, id: SessionId)
    requires Inv(s) && Enabled(s, step) && id in Apply(s, step).sessions
    ensures SessionOk(Apply(s, step), Apply(s, step).sessions[id])
  {
    hide Aggregates, RawValid, Event.Valid, FromLog, Absorb;
    var s' := Apply(s, step);
    StepGrows(s, step);
    if id in s.sessions {
      hide Apply, Enabled;
      var session := s.sessions[id];
      assert SessionOk(s, session);
      SettledStable(s, s', session.partition, session.position);
      SessionMoves(s, step, id);
      if session.phase.Handled? {
        SettledStable(s, s', session.partition, session.position + 1);
      } else if s'.sessions[id].phase.Handled? {
        HandledIsSettled(s, step, id);
        assert s.Log(session.partition) <= s'.Log(session.partition);
      }
    } else {
      SettledStable(s, s', step.partition, s.Committed(step.partition));
    }
  }

  lemma StepKeepsOrigin(s: State, step: Step, id: EventId)
    requires Inv(s) && Enabled(s, step) && id in Apply(s, step).tables.raw
    ensures FromLog(Apply(s, step), id, Apply(s, step).tables.raw[id])
  {
    hide Aggregates, RawValid, Event.Valid, SessionOk, SettledUpTo;
    var s' := Apply(s, step);
    StepGrows(s, step);
    if id in s.tables.raw {
      FromLogStable(s, s', id, s.tables.raw[id]);
    } else {
      var session := s.sessions[step.id];
      assert s'.log[session.partition][session.position] == s.Held(step.id);
    }
  }

  lemma StepKeepsInv(s: State, step: Step)
    requires Inv(s) && Enabled(s, step)
    ensures Inv(Apply(s, step))
  {
    hide Apply, Enabled;
    var s' := Apply(s, step);
    StepKeepsTables(s, step);
    forall p: Partition { StepKeepsCommitted(s, step, p); }
    forall id | id in s'.sessions ensures SessionOk(s', s'.sessions[id]) { StepKeepsSession(s, step, id); }
    forall id | id in s'.tables.raw ensures FromLog(s', id, s'.tables.raw[id]) { StepKeepsOrigin(s, step, id); }
  }

  // -------------------------------------------------------------------- runs

  ghost predicate Legal(steps: seq<Step>)
    decreases |steps|, 0
  {
    steps == [] || (Legal(Init(steps)) && Enabled(After(Init(steps)), Last(steps)))
  }

  ghost function After(steps: seq<Step>): State
    requires Legal(steps)
    decreases |steps|, 1
  {
    if steps == [] then START else Apply(After(Init(steps)), Last(steps))
  }

  lemma {:induction false} ReachableInv(steps: seq<Step>)
    requires Legal(steps)
    ensures Inv(After(steps))
  {
    hide Apply, Enabled, Inv;
    if steps == [] {
      InitialInv();
    } else {
      ReachableInv(Init(steps));
      StepKeepsInv(After(Init(steps)), Last(steps));
    }
  }

  /** After any run of duplicates, failed and ambiguous transactions, retries,
      crashes and restarts, the hourly table is the recomputation from the
      distinct stored events: there is a row exactly for each group with an event,
      each number in it is the one its name says, taken over the group's events,
      and the status classes add up. */
  lemma HourlyTableIsExact(steps: seq<Step>, key: Key)
    requires Legal(steps)
    ensures var t := After(steps).tables;
            && Aggregates(t.hourly, t.raw)
            && (key in t.hourly <==> Group(t.raw, key) != {})
            && (key in t.hourly ==>
                  Describes(t.hourly[key], t.raw, Group(t.raw, key))
                  && t.hourly[key].ClassTotal() == t.hourly[key].requests)
  {
    hide Apply, Enabled, Aggregates, Hourly.ClassTotal, IdsOf, Describes, Group;
    ReachableInv(steps);
    var t := After(steps).tables;
    HourlyRowsDescribe(t.hourly, t.raw, key);
    if key in t.hourly { HourlyClassesAddUp(t.hourly, t.raw, key); }
  }

  /** A commit that is applied covers the record just handled, and a session that
      hears of it goes on with the next one. */
  lemma CommitCoversTheRecord(s: State, id: SessionId, applied: bool, reported: bool)
    requires Enabled(s, CommitOffset(id, applied, reported))
    ensures var s' := Apply(s, CommitOffset(id, applied, reported));
            var p, position := s.sessions[id].partition, s.sessions[id].position;
            && s'.Committed(p) == (if applied then position + 1 else s.Committed(p))
            && (forall other: Partition :: other != p ==> s'.Committed(other) == s.Committed(other))
            && (reported ==> s'.sessions[id] == Session(p, position + 1, Idle)) && s'.tables == s.tables && s'.log == s.log
  {}

  /** Every record below a committed offset is invalid or in the raw table. */
  lemma CommittedMeansStored(steps: seq<Step>, p: Partition, offset: nat)
    requires Legal(steps) && offset < After(steps).Committed(p)
    ensures var s := After(steps);
            && offset < |s.Log(p)|
            && (s.Log(p)[offset].Usable() ==> s.Log(p)[offset].event.id in s.tables.raw)
  {
    ReachableInv(steps);
    assert SettledUpTo(After(steps).tables.raw, After(steps).Log(p), After(steps).Committed(p));
    assert Settled(After(steps).tables.raw, After(steps).Log(p)[offset]);
  }

  /** The log has a usable record with this id. */
  ghost predicate Published(s: State, id: EventId) {
    exists p: Partition, i :: 0 <= i < |s.Log(p)| && s.Log(p)[i].Usable() && s.Log(p)[i].event.id == id
  }

  /** The raw table holds published events only, and once every partition is
      committed to its end, it holds every one of them. */
  lemma RawTableIsComplete(steps: seq<Step>, id: EventId)
    requires Legal(steps)
    ensures id in After(steps).tables.raw ==> Published(After(steps), id)
    ensures (forall p: Partition :: After(steps).Committed(p) == |After(steps).Log(p)|) ==>
              (id in After(steps).tables.raw <==> Published(After(steps), id))
  {
    var s := After(steps);
    ReachableInv(steps);
    if id in s.tables.raw {
      assert FromLog(s, id, s.tables.raw[id]);
      var p, i :| && p in s.log && 0 <= i < |s.log[p]| && s.log[p][i].Usable()
                  && s.log[p][i].event.id == id && RawOf(s.log[p][i].event) == s.tables.raw[id];
      assert s.Log(p)[i].Usable();
    }
    if Published(s, id) && (forall p: Partition :: s.Committed(p) == |s.Log(p)|) {
      var p: Partition, i :| 0 <= i < |s.Log(p)| && s.Log(p)[i].Usable() && s.Log(p)[i].event.id == id;
      CommittedMeansStored(steps, p, i);
    }
  }

  /** The log carries this event in a usable record. */
  ghost predicate Holds(s: State, e: Event) {
    e.Valid() && exists p, i :: p in s.log && 0 <= i < |s.log[p]| && s.log[p][i] == Carries(e)
  }

  /** Every partition is committed to its end. */
  ghost predicate Drained(s: State) {
    forall p: Partition :: s.Committed(p) == |s.Log(p)|
  }

  /** Events of the log with the same id are stored as the same row. */
  ghost predicate IdsDetermineRowsIn(s: State) {
    forall a, b :: Holds(s, a) && Holds(s, b) && a.id == b.id ==> RawOf(a) == RawOf(b)
  }

  /** In a drained log, the row of an event is its own. */
  lemma DrainedRow(steps: seq<Step>, e: Event)
    requires Legal(steps) && Drained(After(steps)) && IdsDetermineRowsIn(After(steps)) && Holds(After(steps), e)
    ensures e.id in After(steps).tables.raw && After(steps).tables.raw[e.id] == RawOf(e)
  {
    hide Legal, After, RawOf, Event.Valid;
    var s := After(steps);
    var p, i :| p in s.log && 0 <= i < |s.log[p]| && s.log[p][i] == Carries(e);
    assert s.Log(p)[i].Usable();
    CommittedMeansStored(steps, p, i);
    StoredFromLog(steps, e.id);
  }

  lemma StoredFromLog(steps: seq<Step>, id: EventId)
    requires Legal(steps) && id in After(steps).tables.raw
    ensures exists e :: Holds(After(steps), e) && e.id == id && After(steps).tables.raw[id] == RawOf(e)
  {
    hide Legal, After, RawOf, Event.Valid;
    var s := After(steps);
    assert FromLog(s, id, s.tables.raw[id]) by { ReachableInv(steps); }
    var p, i :| && p in s.log && 0 <= i < |s.log[p]| && s.log[p][i].Usable()
                && s.log[p][i].event.id == id && RawOf(s.log[p][i].event) == s.tables.raw[id];
    assert Holds(s, s.log[p][i].event);
  }

  /** Over every run, each row of the raw table keeps all that a published usable
      event with its id says, and only such events are stored. */
  lemma RowsRecordEvents(steps: seq<Step>, id: EventId)
    requires Legal(steps) && id in After(steps).tables.raw
    ensures exists e :: Holds(After(steps), e) && e.id == id && Records(After(steps).tables.raw[id], e)
  {
    hide Legal, After, RawOf, Records;
    StoredFromLog(steps, id);
    var e :| Holds(After(steps), e) && e.id == id && After(steps).tables.raw[id] == RawOf(e);
    RawOfRecords(e);
  }

  lemma RowsCarryOver(steps: seq<Step>, steps': seq<Step>, id: EventId)
    requires Legal(steps) && Legal(steps') && Drained(After(steps'))
    requires forall e :: Holds(After(steps), e) ==> Holds(After(steps'), e)
    requires IdsDetermineRowsIn(After(steps'))
    ensures id in After(steps).tables.raw ==>
              id in After(steps').tables.raw && After(steps').tables.raw[id] == After(steps).tables.raw[id]
  {
    hide Legal, After, RawOf, Event.Valid, Drained, IdsDetermineRowsIn;
    if id in After(steps).tables.raw {
      StoredFromLog(steps, id);
      var e :| Holds(After(steps), e) && e.id == id && After(steps).tables.raw[id] == RawOf(e);
      DrainedRow(steps', e);
    }
  }

  /** Two runs whose logs hold the same usable events, in any partitions and
      order and however often, end with the same tables once both are drained, if
      ids determine rows. */
  lemma SameLogSameTables(steps: seq<Step>, steps': seq<Step>)
    requires Legal(steps) && Legal(steps') && Drained(After(steps)) && Drained(After(steps'))
    requires forall e :: Holds(After(steps), e) <==> Holds(After(steps'), e)
    requires IdsDetermineRowsIn(After(steps))
    ensures After(steps).tables == After(steps').tables
  {
    hide Legal, After, RawOf, Holds, Drained;
    var t, t' := After(steps).tables, After(steps').tables;
    forall id ensures (id in t.raw <==> id in t'.raw) && (id in t.raw ==> t.raw[id] == t'.raw[id]) {
      RowsCarryOver(steps, steps', id);
      RowsCarryOver(steps', steps, id);
    }
    assert t.raw == t'.raw;
    assert Aggregates(t.hourly, t.raw) by { ReachableInv(steps); }
    assert Aggregates(t'.hourly, t'.raw) by { ReachableInv(steps'); }
    AggregateIsUnique(t.hourly, t'.hourly, t.raw);
  }

  /** Replaying a stored record changes neither table, in any state. */
  lemma ReplayIsHarmless(s: State, id: SessionId, commits: bool, reported: bool)
    requires Enabled(s, Transact(id, commits, reported)) && s.Held(id).event.id in s.tables.raw
    ensures Apply(s, Transact(id, commits, reported)).tables == s.tables
  {}

  /** Nothing is left to do for any record of the log. */
  ghost predicate AllSettled(s: State) {
    forall p: Partition, i :: 0 <= i < |s.Log(p)| ==> Settled(s.tables.raw, s.Log(p)[i])
  }

  lemma HeldIsSettled(s: State, id: SessionId)
    requires AllSettled(s) && s.Holds(id)
    ensures Settled(s.tables.raw, s.Held(id))
  {}

  lemma SameLogStaysSettled(s: State, s': State)
    requires AllSettled(s) && s'.log == s.log && s'.tables == s.tables
    ensures AllSettled(s')
  {
    assert forall p: Partition :: s'.Log(p) == s.Log(p);
  }

  lemma StepChangesNothing(s: State, step: Step)
    requires AllSettled(s) && Enabled(s, step) && !step.Append?
    ensures Apply(s, step).tables == s.tables && Apply(s, step).log == s.log && AllSettled(Apply(s, step))
  {
    hide AllSettled, Absorb, Overflows;
    if step.Transact? {
      HeldIsSettled(s, step.id);
      ReplayIsHarmless(s, step.id, step.commits, step.reported);
    }
    SameLogStaysSettled(s, Apply(s, step));
  }

  /** Once every record is stored, whatever is read again, retried, lost or
      restarted changes neither table, as long as nothing new is published. */
  lemma {:induction false} ReplaysAreHarmless(steps: seq<Step>, i: nat)
    requires Legal(steps) && i <= |steps| && Legal(steps[..i]) && AllSettled(After(steps[..i]))
    requires forall j :: i <= j < |steps| ==> !steps[j].Append?
    ensures After(steps).tables == After(steps[..i]).tables && After(steps).log == After(steps[..i]).log
    ensures AllSettled(After(steps))
  {
    hide Apply, Enabled, AllSettled;
    if i < |steps| {
      assert steps[..i] == Init(steps)[..i];
      ReplaysAreHarmless(Init(steps), i);
      StepChangesNothing(After(Init(steps)), Last(steps));
    } else {
      assert steps[..i] == steps;
    }
  }

  /** A stored row never changes and never goes away. */
  lemma {:induction false} RawRowsStay(steps: seq<Step>, i: nat, id: EventId)
    requires Legal(steps) && i <= |steps|
    ensures Legal(steps[..i])
    ensures id in After(steps[..i]).tables.raw ==>
              id in After(steps).tables.raw && After(steps).tables.raw[id] == After(steps[..i]).tables.raw[id]
  {
    hide Apply, Enabled;
    if i < |steps| {
      RawRowsStay(Init(steps), i, id);
      assert steps[..i] == Init(steps)[..i];
      StepGrows(After(Init(steps)), Last(steps));
    } else {
      assert steps[..i] == steps;
    }
  }

  // --------------------------------------------------- one consumer, in place

  /** The tables after the usable records have been stored in order. */
  ghost function AbsorbUsable(t: Tables, records: seq<Record>): Tables {
    if records == [] then t else
    var before := AbsorbUsable(t, records[..|records| - 1]);
    var record := records[|records| - 1];
    if record.Usable() then Absorb(before, record.event) else before
  }

  lemma AbsorbUsableStep(t: Tables, log: seq<Record>, from: nat, i: nat)
    requires from <= i < |log|
    ensures AbsorbUsable(t, log[from..i + 1])
         == if log[i].Usable() then Absorb(AbsorbUsable(t, log[from..i]), log[i].event)
            else AbsorbUsable(t, log[from..i])
  {
    hide Absorb, Event.Valid;
    assert log[from..i + 1][..i - from] == log[from..i];
  }

  lemma AbsorbNone(t: Tables, log: seq<Record>, from: nat)
    requires from <= |log|
    ensures AbsorbUsable(t, log[from..from]) == t
  {}

  /** How the broker answers an offset commit. */
  datatype CommitAnswer = Applied | Refused | AppliedSilently

  /** `Run` on one partition, from the offset it was assigned at.  The records it
      commits are exactly the ones whose effect is in the tables, except that the
      one it was working on when it stopped may be stored and not committed. */
  method Consume(store: Store, log: seq<Record>, from: nat, weather: (nat, nat) -> Weather,
                 answers: nat -> CommitAnswer, retryMin: Duration, retryMax: Duration, maxAttempts: int)
      returns (committed: nat, stopped: bool)
    requires from <= |log| && 0 < retryMin <= retryMax <= MAX_INT64 && 0 < maxAttempts
    modifies store
    ensures from <= committed <= |log|
    ensures !stopped ==> committed == |log|
    ensures var next := Min(committed + 1, |log|);
            || store.tables == AbsorbUsable(old(store.tables), log[from..committed])
            || store.tables == AbsorbUsable(old(store.tables), log[from..next])
    ensures forall i :: from <= i < committed ==> Settled(store.tables.raw, log[i])
    ensures stopped && (forall i, k :: weather(i, k) == FINE) && (forall i :: answers(i).Applied?) ==>
              && committed < |log| && log[committed].Usable()
              && Overflows(AbsorbUsable(old(store.tables), log[from..committed]), log[committed].event)
  {
    hide Absorb, AbsorbUsable, Event.Valid, NthDelay, Overflows;
    committed, stopped := from, false;
    AbsorbNone(store.tables, log, from);
    while committed < |log|
      invariant from <= committed <= |log|
      invariant store.tables == AbsorbUsable(old(store.tables), log[from..committed])
      invariant forall i :: from <= i < committed ==> Settled(store.tables.raw, log[i])
    {
      var record := log[committed];
      AbsorbUsableStep(old(store.tables), log, from, committed);
      if record.Usable() {
        ghost var before := store.tables;
        AbsorbGrows(before, record.event);
        AbsorbTwice(before, record.event);
        var here := (k: nat) => weather(committed, k);
        var r, calls, waits := ProcessWithRetry(store, record.event, here, retryMin, retryMax, maxAttempts);
        if !r.Kept? {
          assert here(0) == weather(committed, 0) && here(calls - 1) == weather(committed, calls - 1);
          return committed, true;
        }
        StoredMeansAbsorbed(before, store.tables, record.event);
      }
      if answers(committed).Refused? {
        return committed, true;
      }
      committed := committed + 1;
      if answers(committed - 1).AppliedSilently? {
        return committed, true;
      }
    }
  }

  lemma AbsorbGrows(t: Tables, e: Event)
    requires e.Valid()
    ensures forall id :: id in t.raw ==> id in Absorb(t, e).raw
  {}

  lemma StoredMeansAbsorbed(before: Tables, after: Tables, e: Event)
    requires e.Valid() && StoredAtMostOnce(before, after, e) && e.id in after.raw
    ensures after == Absorb(before, e)
  {}
}
