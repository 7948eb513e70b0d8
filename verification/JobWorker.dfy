/** The worker's and the submitter's own code, run on the job table in place,
    and how an undisturbed call of it shows up as a run of the protocol. */
module JobWorker {
  import opened Text
  import opened JobStore
  import opened JobBroker
  import opened JobProtocol
  import opened JobInvariants
  import opened JobTheorems

  // ---------------------------------------------------------- one delivery

  datatype Reply = SendAck | SendReject | SendRequeue | ReturnError

  /** The table a delivery leaves, the worker's reply, and whether the job was run. */
  datatype Handling = Handling(rows: Table, reply: Reply, ran: bool)

  predicate Fits(env: Envelope, attempt: int) {
    attempt <= MAX_INTEGER && env.maxAttempts <= MAX_INTEGER
  }

  function Handled(rows: Table, body: Body, attempt: int, outcome: Outcome, preparedAt: Time, recordedAt: Time)
    : Handling
  {
    if !body.Valid() then Handling(rows, SendReject, false)
    else if !Fits(body.env, attempt) then Handling(rows, ReturnError, false)
    else Worked(rows, body.env, attempt, outcome, preparedAt, recordedAt)
  }

  /** Prepare, and unless the job has already ended, run and record. */
  function Worked(rows: Table, env: Envelope, attempt: int, outcome: Outcome, preparedAt: Time, recordedAt: Time)
    : Handling
  {
    var prepared := PrepareAttempt(rows, env, attempt, preparedAt);
    match prepared[env.id].status
    case Succeeded => Handling(prepared, SendAck, false)
    case Failed => Handling(prepared, SendReject, false)
    case _ =>
      var (recorded, hit) := Recorded(prepared, env, attempt, outcome, recordedAt);
      Handling(recorded, if hit then ReplyFor(outcome, attempt, env.maxAttempts) else ReturnError, true)
  }

  function ReplyFor(outcome: Outcome, attempt: int, maxAttempts: int): Reply {
    match RecordedPhase(outcome, attempt, maxAttempts)
    case Acking => SendAck
    case Rejecting => SendReject
    case _ => SendRequeue
  }

  /** What the reply to a valid delivery says about the job's row. */
  predicate ReplyIsTrue(h: Handling, id: JobId, attempt: int, maxAttempts: int) {
    && (h.reply.SendAck? ==> HasStatus(h.rows, id, Succeeded))
    && (h.reply.SendReject? ==> HasStatus(h.rows, id, Failed))
    && (h.reply.SendRequeue? ==> h.ran && attempt < maxAttempts && HasStatus(h.rows, id, Retrying))
  }

  lemma WorkedReply(rows: Table, env: Envelope, attempt: int, outcome: Outcome, preparedAt: Time, recordedAt: Time)
    ensures var h := Worked(rows, env, attempt, outcome, preparedAt, recordedAt);
            && ReplyIsTrue(h, env.id, attempt, env.maxAttempts)
            && !h.reply.ReturnError?
            && (h.ran <==> !Ended(rows, env.id))
  {
    var prepared := PrepareAttempt(rows, env, attempt, preparedAt);
    assert Ended(rows, env.id) || Open(prepared, env.id);
  }

  lemma WorkedKeeps(rows: Table, env: Envelope, attempt: int, outcome: Outcome, preparedAt: Time, recordedAt: Time)
    requires attempt >= 1 && ConsistentTable(rows) && env.Valid()
    ensures var h := Worked(rows, env, attempt, outcome, preparedAt, recordedAt);
            TableEvolves(rows, h.rows) && ConsistentTable(h.rows)
  {
    PrepareKeeps(rows, env, attempt, preparedAt);
    var prepared := PrepareAttempt(rows, env, attempt, preparedAt);
    if !Ended(rows, env.id) {
      assert Started(prepared, env.id) && Open(prepared, env.id);
      RecordedKeeps(prepared, env, attempt, outcome, recordedAt);
      TableEvolvesTransitive(rows, prepared, Recorded(prepared, env, attempt, outcome, recordedAt).0);
    }
  }

  /** The row says what the processor returned, in which attempt and when: the
      result of a success; the error otherwise, final if it is permanent or the last
      attempt's. */
  predicate ShowsOutcome(rows: Table, env: Envelope, attempt: int, outcome: Outcome, at: Time) {
    && env.id in rows
    && rows[env.id].currentAttempt == Min(attempt, rows[env.id].maxAttempts)
    && rows[env.id].updatedAt == at && (rows[env.id].status != Retrying ==> rows[env.id].completedAt == Some(at))
    && match outcome
       case Completed(result) =>
         rows[env.id].status.Succeeded? && rows[env.id].result == result && rows[env.id].lastError == ""
       case Errored(error, permanent) =>
         && rows[env.id].lastError == TrimSpace(error)
         && rows[env.id].status == if permanent || attempt >= env.maxAttempts then Failed else Retrying
  }

  /** What the row says of the job itself is what it said before or, if there was no
      row, what the message says; it was first started now or earlier. */
  predicate KeepsOrigin(before: Table, after: Table, env: Envelope, startedAt: Time) {
    && env.id in after
    && (var row := after[env.id];
        if env.id in before then
          var earlier := before[env.id];
          && row.jobType == earlier.jobType && row.maxAttempts == earlier.maxAttempts
          && row.createdAt == earlier.createdAt && row.queuedAt == earlier.queuedAt
          && row.startedAt == (if earlier.startedAt.Some? then earlier.startedAt else Some(startedAt))
          && (row.status.Retrying? ==> row.completedAt == earlier.completedAt)
          && (!row.status.Succeeded? ==> row.result == earlier.result)
        else
          && row.jobType == env.jobType && row.maxAttempts == env.maxAttempts && row.createdAt == env.createdAt
          && row.queuedAt.None? && row.startedAt == Some(startedAt) && (row.status.Retrying? ==> row.completedAt.None?)
          && (!row.status.Succeeded? ==> row.result == NO_RESULT))
  }

  /** What the worker accepts as a message. */
  predicate WellFormed(body: Body) {
    && body.Json?
    && body.env.schemaVersion == 1 && body.env.payloadIsJson
    && TrimSpace(body.env.id) != "" && body.env.createdAt != ZERO_TIME
    && body.env.jobType in {"jobs.webhook.deliver", "jobs.report.generate", "jobs.cleanup.expired_tokens"}
    && 1 <= body.env.attempt <= body.env.maxAttempts
  }

  /** The reply that belongs to what the processor returned. */
  predicate ReplyFits(reply: Reply, attempt: int, maxAttempts: int, outcome: Outcome) {
    && (reply.SendAck? <==> outcome.Completed?)
    && (reply.SendReject? <==> outcome.Errored? && (outcome.permanent || attempt >= maxAttempts))
    && (reply.SendRequeue? <==> outcome.Errored? && !outcome.permanent && attempt < maxAttempts)
  }

  /** The row after `Process` says what it returned. */
  lemma RecordedGuarantees(rows: Table, env: Envelope, attempt: int, outcome: Outcome, at: Time)
    requires Open(rows, env.id)
    ensures var (rows', hit) := Recorded(rows, env, attempt, outcome, at);
            && hit
            && ShowsOutcome(rows', env, attempt, outcome, at)
  {}

  /** A delivery touches no row but its job's. */
  lemma HandledFrame(rows: Table, body: Body, attempt: int, outcome: Outcome, preparedAt: Time, recordedAt: Time,
                     other: JobId)
    requires body.Valid() ==> body.env.id != other
    ensures var h := Handled(rows, body, attempt, outcome, preparedAt, recordedAt);
            (other in h.rows <==> other in rows) && (other in rows ==> h.rows[other] == rows[other])
  {}

  lemma WorkedShowsOutcome(rows: Table, env: Envelope, attempt: int, outcome: Outcome, preparedAt: Time, recordedAt: Time)
    ensures var h := Worked(rows, env, attempt, outcome, preparedAt, recordedAt);
            h.ran ==>
              && ShowsOutcome(h.rows, env, attempt, outcome, recordedAt)
              && ReplyFits(h.reply, attempt, env.maxAttempts, outcome)
              && KeepsOrigin(rows, h.rows, env, preparedAt)
  {
    var prepared := PrepareAttempt(rows, env, attempt, preparedAt);
    if Open(prepared, env.id) { RecordedGuarantees(prepared, env, attempt, outcome, recordedAt); }
  }

  /** What one undisturbed delivery guarantees: the table stays in order and only
      the job's row changes; an unreadable message is rejected; the reply agrees
      with the row; the processor is called exactly if the job has not ended and
      its numbers fit; then the row says what it returned, and a permanent error or
      one on the last attempt ends the job. */
  lemma HandledGuarantees(rows: Table, body: Body, attempt: int, outcome: Outcome, preparedAt: Time, recordedAt: Time)
    requires attempt >= 1 && ConsistentTable(rows)
    ensures var h := Handled(rows, body, attempt, outcome, preparedAt, recordedAt);
            && TableEvolves(rows, h.rows) && ConsistentTable(h.rows)
            && (forall other :: (body.Valid() ==> body.env.id != other) ==>
                  (other in h.rows <==> other in rows) && (other in rows ==> h.rows[other] == rows[other]))
            && (!WellFormed(body) ==> h == Handling(rows, SendReject, false))
            && (WellFormed(body) ==>
                  && ReplyIsTrue(h, body.env.id, attempt, body.env.maxAttempts)
                  && (h.reply.ReturnError? <==> !Fits(body.env, attempt))
                  && (h.ran <==> Fits(body.env, attempt) && !Ended(rows, body.env.id))
                  && (h.ran ==>
                        && ShowsOutcome(h.rows, body.env, attempt, outcome, recordedAt)
                        && ReplyFits(h.reply, attempt, body.env.maxAttempts, outcome)
                        && KeepsOrigin(rows, h.rows, body.env, preparedAt))
                  && (!h.ran && Fits(body.env, attempt) ==> h.rows == rows))
  {
    forall other | body.Valid() ==> body.env.id != other
      ensures var h := Handled(rows, body, attempt, outcome, preparedAt, recordedAt);
              (other in h.rows <==> other in rows) && (other in rows ==> h.rows[other] == rows[other])
    {
      HandledFrame(rows, body, attempt, outcome, preparedAt, recordedAt, other);
    }
    if body.Valid() && Fits(body.env, attempt) {
      hide Worked, ShowsOutcome, ReplyFits, KeepsOrigin;
      WorkedReply(rows, body.env, attempt, outcome, preparedAt, recordedAt);
      WorkedKeeps(rows, body.env, attempt, outcome, preparedAt, recordedAt);
      WorkedShowsOutcome(rows, body.env, attempt, outcome, preparedAt, recordedAt);
    }
  }

  /** `outcome` is what the processor returns if it is called. */
  method HandleDelivery(store: Repository, body: Body, header: Option<HeaderValue>, outcome: Outcome,
                        preparedAt: Time, recordedAt: Time)
      returns (reply: Reply, ran: bool)
    modifies store
    ensures Handling(store.rows, reply, ran)
         == Handled(old(store.rows), body, DeliveryAttempt(header), outcome, preparedAt, recordedAt)
  {
    hide PrepareAttempt, MarkSucceeded, MarkFailed, MarkRetrying, OthersKept, InOrder, Envelope.Valid, DeliveryAttempt;
    ran := false;
    var attempt := DeliveryAttempt(header);
    if !body.Valid() {
      return SendReject, ran;
    }
    var env := body.env;
    var status := store.Prepare(env, attempt, preparedAt);
    if status.None? {
      return ReturnError, ran;
    }
    if status.value.Succeeded? {
      return SendAck, ran;
    }
    if status.value.Failed? {
      return SendReject, ran;
    }
    ran := true;
    var ok;
    if outcome.Completed? {
      ok := store.SetSucceeded(env.id, attempt, outcome.result, recordedAt);
      reply := if ok then SendAck else ReturnError;
    } else if outcome.permanent || attempt >= env.maxAttempts {
      ok := store.SetFailed(env.id, attempt, outcome.error, recordedAt);
      reply := if ok then SendReject else ReturnError;
    } else {
      ok := store.SetRetrying(env.id, attempt, outcome.error, recordedAt);
      reply := if ok then SendRequeue else ReturnError;
    }
  }

  // ---------------------------------------- deliveries as steps of the protocol

  /** Where the message is after the worker's reply. */
  predicate Lands(b: Broker, msg: MsgId, reply: Reply, count: nat) {
    match reply
    case SendAck => msg in b.acked
    case SendReject => msg in b.dead
    case SendRequeue => b.CanDeliver(msg) && b.counts[msg] == count
    case ReturnError => msg in b.unacked
  }

  /** The run goes on from the prior one, and no delivery is interrupted in it. */
  ghost predicate Undisturbed(prior: seq<Step>, run: seq<Step>) {
    && prior <= run
    && forall i :: |prior| <= i < |run| ==> !run[i].InterruptStep?
  }

  predicate InReplyPhase(s: System, tag: Tag, reply: Reply) {
    match reply
    case SendAck => s.InPhase(tag, Acking)
    case SendReject => s.InPhase(tag, Rejecting)
    case SendRequeue => s.InPhase(tag, Requeueing)
    case ReturnError => s.InPhase(tag, Aborted)
  }

  /** The broker takes the reply to a live delivery. */
  lemma SettleLive(prior: seq<Step>, tag: Tag, msg: MsgId, reply: Reply, count: nat) returns (run: seq<Step>)
    requires Legal(prior) && InReplyPhase(After(prior), tag, reply) && !reply.ReturnError?
    requires After(prior).workers[tag].msg == msg && After(prior).Live(tag)
    requires msg in After(prior).broker.counts && After(prior).broker.counts[msg] < count < MAX_INT64
    ensures Legal(run) && run == prior + [SettleStep(tag, count)]
    ensures After(run).rows == After(prior).rows
    ensures After(run).broker.bodies == After(prior).broker.bodies
    ensures Lands(After(run).broker, msg, reply, count)
  {
    Extend(prior, SettleStep(tag, count));
    run := prior + [SettleStep(tag, count)];
  }

  lemma DeliverAgain(prior: seq<Step>, tag: Tag, msg: MsgId) returns (run: seq<Step>)
    requires Legal(prior) && tag !in After(prior).workers && After(prior).broker.CanDeliver(msg)
    ensures Legal(run) && run == prior + [DeliverStep(tag, msg)]
    ensures var s, s' := After(prior), After(run);
            && s'.rows == s.rows && s'.broker == s.broker.Deliver(msg, tag)
            && tag in s'.workers && s'.Live(tag)
            && s'.workers[tag] == Worker(msg, s.broker.counts[msg] + 1, Received, None)
  {
    ReachableInv(prior);
    Extend(prior, DeliverStep(tag, msg));
    run := prior + [DeliverStep(tag, msg)];
  }

  lemma CallAndReturn(prior: seq<Step>, tag: Tag, outcome: Outcome) returns (run: seq<Step>)
    requires Legal(prior) && After(prior).InPhase(tag, Prepared)
    ensures Legal(run) && run == prior + [CallStep(tag)] + [ReturnStep(tag, outcome)]
    ensures var s := After(prior);
            After(run) == s.(workers := s.workers[tag := s.workers[tag].(phase := Finished, outcome := Some(outcome))])
  {
    hide Legal, After;
    Extend(prior, CallStep(tag));
    Extend(prior + [CallStep(tag)], ReturnStep(tag, outcome));
    run := prior + [CallStep(tag)] + [ReturnStep(tag, outcome)];
  }

  lemma RunAndRecord(prior: seq<Step>, tag: Tag, outcome: Outcome, at: Time) returns (run: seq<Step>)
    requires Legal(prior) && After(prior).InPhase(tag, Prepared)
    requires After(prior).broker.ValidMsg(After(prior).workers[tag].msg)
    ensures Legal(run) && Undisturbed(prior, run)
    ensures var s, s' := After(prior), After(run);
            var w := s.workers[tag];
            var env := s.broker.bodies[w.msg].env;
            var (rows, hit) := Recorded(s.rows, env, w.attempt, outcome, at);
            && s'.rows == rows && s'.broker == s.broker
            && tag in s'.workers && s'.workers[tag].msg == w.msg
            && InReplyPhase(s', tag, if hit then ReplyFor(outcome, w.attempt, env.maxAttempts) else ReturnError)
  {
    hide Legal, After, Recorded;
    run := CallAndReturn(prior, tag, outcome);
    Extend(run, RecordStep(tag, at));
    run := run + [RecordStep(tag, at)];
  }

  /** Preparing, running and recording, for a worker whose numbers fit. */
  lemma WorkThrough(prior: seq<Step>, tag: Tag, outcome: Outcome, preparedAt: Time, recordedAt: Time)
      returns (run: seq<Step>)
    requires Legal(prior) && Enabled(After(prior), PrepareStep(tag, preparedAt))
    requires var s := After(prior); Fits(s.broker.bodies[s.workers[tag].msg].env, s.workers[tag].attempt)
    ensures Legal(run) && Undisturbed(prior, run)
    ensures var s, s' := After(prior), After(run);
            var w := s.workers[tag];
            var h := Worked(s.rows, s.broker.bodies[w.msg].env, w.attempt, outcome, preparedAt, recordedAt);
            && s'.rows == h.rows && s'.broker == s.broker
            && tag in s'.workers && s'.workers[tag].msg == w.msg
            && InReplyPhase(s', tag, h.reply)
  {
    hide Recorded, PrepareAttempt, Legal, After;
    Extend(prior, PrepareStep(tag, preparedAt));
    run := prior + [PrepareStep(tag, preparedAt)];
    assert After(run) == AfterPrepare(After(prior), tag, preparedAt);
    if After(run).InPhase(tag, Prepared) {
      run := RunAndRecord(run, tag, outcome, recordedAt);
    }
  }

  lemma RefusalIsARun(prior: seq<Step>, tag: Tag, msg: MsgId, count: nat) returns (run: seq<Step>)
    requires Legal(prior) && tag !in After(prior).workers && After(prior).broker.CanDeliver(msg)
    requires !After(prior).broker.ValidMsg(msg) && After(prior).broker.counts[msg] < count < MAX_INT64
    ensures Legal(run) && Undisturbed(prior, run)
    ensures After(run).rows == After(prior).rows
    ensures After(run).broker.bodies == After(prior).broker.bodies
    ensures Lands(After(run).broker, msg, SendReject, count)
  {
    run := DeliverAgain(prior, tag, msg);
    Extend(run, RefuseStep(tag));
    run := run + [RefuseStep(tag)];
    run := SettleLive(run, tag, msg, SendReject, count);
  }

  lemma WorkIsARun(prior: seq<Step>, tag: Tag, msg: MsgId, outcome: Outcome,
                   preparedAt: Time, recordedAt: Time, count: nat)
      returns (run: seq<Step>)
    requires Legal(prior) && tag !in After(prior).workers && After(prior).broker.CanDeliver(msg)
    requires After(prior).broker.ValidMsg(msg) && After(prior).broker.counts[msg] < count < MAX_INT64
    requires Fits(After(prior).broker.bodies[msg].env, After(prior).broker.counts[msg] + 1)
    ensures Legal(run) && Undisturbed(prior, run)
    ensures var s, s' := After(prior), After(run);
            var h := Worked(s.rows, s.broker.bodies[msg].env, s.broker.counts[msg] + 1, outcome, preparedAt, recordedAt);
            && s'.rows == h.rows
            && s'.broker.bodies == s.broker.bodies
            && Lands(s'.broker, msg, h.reply, count)
  {
    hide Legal, After, Worked;
    var s := After(prior);
    var env, attempt := s.broker.bodies[msg].env, s.broker.counts[msg] + 1;
    var reply := Worked(s.rows, env, attempt, outcome, preparedAt, recordedAt).reply;
    WorkedReply(s.rows, env, attempt, outcome, preparedAt, recordedAt);
    var delivered := DeliverAgain(prior, tag, msg);
    var worked := WorkThrough(delivered, tag, outcome, preparedAt, recordedAt);
    assert After(worked).broker == After(delivered).broker;
    run := SettleLive(worked, tag, msg, reply, count);
  }

  /** An undisturbed delivery is a run of the protocol that changes the table as
      `HandleDelivery` does and moves the message where its reply says. */
  lemma DeliveryIsARun(prior: seq<Step>, tag: Tag, msg: MsgId, outcome: Outcome,
                       preparedAt: Time, recordedAt: Time, count: nat)
      returns (run: seq<Step>)
    requires Legal(prior) && tag !in After(prior).workers && After(prior).broker.CanDeliver(msg)
    requires msg in After(prior).broker.bodies && After(prior).broker.counts[msg] < count < MAX_INT64
    ensures Legal(run) && Undisturbed(prior, run)
    ensures var s, s' := After(prior), After(run);
            var h := Handled(s.rows, s.broker.bodies[msg], s.broker.counts[msg] + 1, outcome, preparedAt, recordedAt);
            && s'.rows == h.rows
            && s'.broker.bodies == s.broker.bodies
            && Lands(s'.broker, msg, h.reply, count)
  {
    hide Apply;
    var s := After(prior);
    if !s.broker.bodies[msg].Valid() {
      run := RefusalIsARun(prior, tag, msg, count);
    } else if Fits(s.broker.bodies[msg].env, s.broker.counts[msg] + 1) {
      run := WorkIsARun(prior, tag, msg, outcome, preparedAt, recordedAt, count);
    } else {
      run := DeliverAgain(prior, tag, msg);
    }
  }

  // ------------------------------------------------------- until it is settled

  /** Some tag has not been used. */
  lemma {:induction false} FreshTag(tags: set<Tag>, from: Tag) returns (tag: Tag)
    ensures tag !in tags && tag >= from
    decreases |set t | t in tags && t >= from|
  {
    tag := from;
    if from in tags {
      var above, rest := set t | t in tags && t >= from, set t | t in tags && t >= from + 1;
      assert above == rest + {from};
      tag := FreshTag(tags, from + 1);
    }
  }

  /** One more undisturbed delivery of a valid message, to a new worker. */
  lemma NextDelivery(prior: seq<Step>, msg: MsgId, outcome: Outcome, preparedAt: Time, recordedAt: Time)
      returns (run: seq<Step>)
    requires Legal(prior) && After(prior).broker.CanDeliver(msg) && After(prior).broker.ValidMsg(msg)
    requires Fits(After(prior).broker.bodies[msg].env, After(prior).broker.counts[msg] + 1)
    ensures Legal(run) && Undisturbed(prior, run)
    ensures var s, s' := After(prior), After(run);
            var env, count := s.broker.bodies[msg].env, s.broker.counts[msg];
            var h := Handled(s.rows, s.broker.bodies[msg], count + 1, outcome, preparedAt, recordedAt);
            && s'.rows == h.rows
            && s'.broker.bodies == s.broker.bodies
            && Lands(s'.broker, msg, h.reply, count + 1)
            && ReplyIsTrue(h, env.id, count + 1, env.maxAttempts)
            && !h.reply.ReturnError?
  {
    hide Legal, After, Handled;
    var s := After(prior);
    var count := s.broker.counts[msg];
    assert ConsistentTable(s.rows) by { ReachableInv(prior); }
    HandledGuarantees(s.rows, s.broker.bodies[msg], count + 1, outcome, preparedAt, recordedAt);
    var tag := FreshTag(s.workers.Keys, 0);
    run := DeliveryIsARun(prior, tag, msg, outcome, preparedAt, recordedAt, count + 1);
  }

  /** `run` goes on undisturbed from `prior` and has left the table and the message as the reply says. */
  ghost predicate Consuming(prior: seq<Step>, run: seq<Step>, rows: Table, body: Body, msg: MsgId,
                            reply: Reply, count: nat) {
    && Legal(run) && Undisturbed(prior, run) && After(run).rows == rows
    && msg in After(run).broker.bodies && After(run).broker.bodies[msg] == body
    && Lands(After(run).broker, msg, reply, count)
  }

  lemma ConsumeOnce(prior: seq<Step>, run: seq<Step>, rows: Table, body: Body, msg: MsgId, count: nat,
                    outcome: Outcome, preparedAt: Time, recordedAt: Time)
      returns (run': seq<Step>)
    requires Consuming(prior, run, rows, body, msg, SendRequeue, count)
    requires body.Valid() && Fits(body.env, count + 1)
    ensures var h := Handled(rows, body, count + 1, outcome, preparedAt, recordedAt);
            && Consuming(prior, run', h.rows, body, msg, h.reply, count + 1)
            && ReplyIsTrue(h, body.env.id, count + 1, body.env.maxAttempts)
            && !h.reply.ReturnError?
  {
    hide Legal, After, Handled;
    run' := NextDelivery(run, msg, outcome, preparedAt, recordedAt);
  }

  /** The worker's loop on one valid message when nothing is interrupted: it
      comes to an end whatever the processor returns each time, with the message
      acknowledged or dead-lettered and the row saying the same, after no more
      calls than attempts were left.  `prior` is any run of the protocol that has
      left the message in the queue. */
  method WorkUntilSettled(store: Repository, body: Body, count: nat, outcomes: nat -> Outcome, clock: nat -> Time,
                          ghost prior: seq<Step>, ghost msg: MsgId)
      returns (reply: Reply, calls: nat, ghost run: seq<Step>)
    requires body.Valid() && body.env.maxAttempts <= MAX_INTEGER && count < MAX_INTEGER
    requires Consuming(prior, prior, store.rows, body, msg, SendRequeue, count)
    modifies store
    ensures reply.SendAck? || reply.SendReject?
    ensures reply.SendAck? ==> HasStatus(store.rows, body.env.id, Succeeded)
    ensures reply.SendReject? ==> HasStatus(store.rows, body.env.id, Failed)
    ensures exists last :: Consuming(prior, run, store.rows, body, msg, reply, last)
    ensures calls <= Max(1, body.env.maxAttempts - count)
  {
    hide Consuming, Handled, Envelope.Valid;
    var delivered: nat := count;
    calls := 0;
    run := prior;
    reply := SendRequeue;
    while reply.SendRequeue?
      invariant Consuming(prior, run, store.rows, body, msg, reply, delivered)
      invariant !reply.ReturnError?
      invariant reply.SendAck? ==> HasStatus(store.rows, body.env.id, Succeeded)
      invariant reply.SendReject? ==> HasStatus(store.rows, body.env.id, Failed)
      invariant count <= delivered && (reply.SendRequeue? && delivered > count ==> delivered < body.env.maxAttempts)
      invariant calls <= delivered - count <= Max(1, body.env.maxAttempts - count)
      decreases reply.SendRequeue?, body.env.maxAttempts - delivered
    {
      var preparedAt, recordedAt := clock(2 * calls), clock(2 * calls + 1);
      ghost var rows := store.rows;
      run := ConsumeOnce(prior, run, rows, body, msg, delivered, outcomes(calls), preparedAt, recordedAt);
      var ran;
      reply, ran := HandleDelivery(store, body, CountHeader(delivered), outcomes(calls), preparedAt, recordedAt);
      calls := if ran then calls + 1 else calls;
      delivered := delivered + 1;
    }
  }
}
