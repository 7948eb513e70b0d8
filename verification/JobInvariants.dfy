/** What every step of the job protocol keeps. */
module JobInvariants {
  import opened Text
  import opened JobStore
  import opened JobBroker
  import opened JobProtocol

  type Bodies = map<MsgId, Body>

  // --------------------------------------------------------- the invariant

  predicate HasStatus(rows: Table, id: JobId, status: Status) {
    id in rows && rows[id].status == status
  }

  /** The processor returned an error that another attempt may overcome. */
  predicate HoldsPassingError(w: Worker) {
    w.outcome.Some? && w.outcome.value.Errored? && !w.outcome.value.permanent
  }

  /** The processor returned a permanent error, or one on the last attempt. */
  predicate HoldsFinalError(w: Worker, body: Body) {
    && body.Valid() && w.outcome.Some? && w.outcome.value.Errored?
    && (w.outcome.value.permanent || w.attempt >= body.env.maxAttempts)
  }

  predicate WorkerOk(rows: Table, bodies: Bodies, w: Worker) {
    && w.msg in bodies
    && w.attempt >= 1
    && (w.phase.Received? || w.phase.Prepared? || w.phase.Running? ==> w.outcome.None?)
    && (w.outcome.Some? || w.phase.Working() || w.phase.Acking? || w.phase.Requeueing? ==>
          bodies[w.msg].Valid())
    && (w.phase.Working() ==> Started(rows, bodies[w.msg].env.id))
    && (w.phase.Finished? ==> w.outcome.Some?)
    && (w.phase.Acking? ==> HasStatus(rows, bodies[w.msg].env.id, Succeeded))
    && (w.phase.Rejecting? && bodies[w.msg].Valid() ==> HasStatus(rows, bodies[w.msg].env.id, Failed))
    && (w.phase.Requeueing? ==> w.attempt < bodies[w.msg].env.maxAttempts && HoldsPassingError(w))
    && (w.phase.Acking? && w.outcome.Some? ==> w.outcome.value.Completed?)
    && (w.phase.Done? && HoldsFinalError(w, bodies[w.msg]) ==> HasStatus(rows, bodies[w.msg].env.id, Failed))
  }

  ghost predicate WorkersOk(s: System) {
    forall tag :: tag in s.workers ==> WorkerOk(s.rows, s.broker.bodies, s.workers[tag])
  }

  /** An outstanding delivery belongs to a worker that counted it right. */
  predicate HeldOk(b: Broker, workers: Workers, msg: MsgId)
    requires msg in b.unacked
  {
    && b.unacked[msg] in workers
    && workers[b.unacked[msg]].msg == msg
    && msg in b.counts
    && workers[b.unacked[msg]].attempt == b.counts[msg] + 1
  }

  ghost predicate DeliveriesOk(s: System) {
    forall msg :: msg in s.broker.unacked ==> HeldOk(s.broker, s.workers, msg)
  }

  /** Acknowledged means succeeded; dead-lettered means failed or unreadable. */
  predicate SettledOk(rows: Table, b: Broker, msg: MsgId) {
    && (msg in b.acked ==> b.ValidMsg(msg) && HasStatus(rows, b.bodies[msg].env.id, Succeeded))
    && (msg in b.dead && b.ValidMsg(msg) ==> HasStatus(rows, b.bodies[msg].env.id, Failed))
  }

  ghost predicate AllSettledOk(s: System) {
    forall msg :: SettledOk(s.rows, s.broker, msg)
  }

  /** A submission's message carries its envelope, and its row came first. */
  predicate SubmissionOk(rows: Table, b: Broker, sub: Submission) {
    && sub.env.Valid()
    && (!sub.phase.Refused? ==> sub.env.id in rows)
    && (sub.phase.Sent? ==> sub.phase.msg in b.sent)
    && (sub.phase.Sent? && sub.phase.msg in b.wire ==> b.wire[sub.phase.msg] == Json(sub.env))
    && (sub.phase.Sent? && sub.phase.msg in b.bodies ==> b.bodies[sub.phase.msg] == Json(sub.env))
    && (sub.phase.Confirmed? || sub.phase.Accepted? ==>
          sub.phase.msg in b.bodies && b.bodies[sub.phase.msg] == Json(sub.env))
  }

  ghost predicate SubmissionsOk(s: System) {
    forall sub :: sub in s.submits ==> SubmissionOk(s.rows, s.broker, s.submits[sub])
  }

  /** The worker ran this job to this outcome. */
  predicate Ran(bodies: Bodies, w: Worker, id: JobId, outcome: Outcome) {
    w.outcome == Some(outcome) && w.msg in bodies && bodies[w.msg].Valid() && bodies[w.msg].env.id == id
  }

  /** The worker's error was the job's last. */
  predicate RanOut(bodies: Bodies, w: Worker, id: JobId) {
    && w.outcome.Some?
    && Ran(bodies, w, id, w.outcome.value)
    && GivesUp(w.outcome.value, w.attempt, bodies[w.msg].env.maxAttempts)
  }

  ghost predicate Earned(s: System, id: JobId) {
    && (HasStatus(s.rows, id, Succeeded) ==>
          exists tag :: tag in s.workers && Ran(s.broker.bodies, s.workers[tag], id, Completed(s.rows[id].result)))
    && (HasStatus(s.rows, id, Failed) ==>
          exists tag :: tag in s.workers && RanOut(s.broker.bodies, s.workers[tag], id))
  }

  ghost predicate RowsEarned(s: System) {
    forall id :: Earned(s, id)
  }

  ghost predicate Inv(s: System) {
    && Conserved(s.broker)
    && ConsistentTable(s.rows)
    && WorkersOk(s)
    && DeliveriesOk(s)
    && AllSettledOk(s)
    && SubmissionsOk(s)
    && RowsEarned(s)
  }

  // ------------------------------------------------------------ step by step

  function TrafficOf(s: System, step: Step): Traffic
    requires Enabled(s, step)
  {
    match step
    case SendStep(sub, msg) => Sends(msg, Json(s.submits[sub].env))
    case InjectStep(msg, body) => Sends(msg, body)
    case AcceptStep(msg) => Stores(msg)
    case LoseStep(msg) => Loses(msg)
    case DeliverStep(tag, msg) => Hands(msg, tag)
    case InterruptStep(msg, count) => TakesBack(msg, count)
    case SettleStep(tag, count) =>
      if s.Live(tag) then Settles(s.workers[tag].msg, AnswerOf(s.workers[tag].phase, count)) else Quiet
    case _ => Quiet
  }

  lemma StepMovesBroker(s: System, step: Step)
    requires Enabled(s, step)
    ensures Possible(s.broker, TrafficOf(s, step))
    ensures Apply(s, step).broker == Moved(s.broker, TrafficOf(s, step))
  {}

  lemma KeepsConserved(s: System, step: Step)
    requires Conserved(s.broker) && Enabled(s, step)
    ensures Conserved(Apply(s, step).broker)
  {
    hide Apply, Enabled, TrafficOf, Moved, Possible;
    StepMovesBroker(s, step);
    MovedConserves(s.broker, TrafficOf(s, step));
  }

  lemma StepKeepsContent(s: System, step: Step)
    requires Conserved(s.broker) && Enabled(s, step)
    ensures BodiesGrow(s.broker.bodies, Apply(s, step).broker.bodies)
    ensures forall msg :: msg in s.broker.sent ==> KeepsContent(s.broker, Apply(s, step).broker, msg)
  {
    hide Apply, Enabled, TrafficOf, Moved, Possible;
    StepMovesBroker(s, step);
    MovedKeepsContent(s.broker, TrafficOf(s, step));
  }

  lemma RecordedKeeps(rows: Table, env: Envelope, attempt: int, outcome: Outcome, at: Time)
    requires ConsistentTable(rows) && attempt >= 1 && Started(rows, env.id)
    ensures var rows' := Recorded(rows, env, attempt, outcome, at).0;
            TableEvolves(rows, rows') && ConsistentTable(rows')
  {
    match outcome
    case Completed(result) => SucceededKeeps(rows, env.id, attempt, result, at);
    case Errored(error, _) =>
      FailedKeeps(rows, env.id, attempt, error, at);
      RetryingKeeps(rows, env.id, attempt, error, at);
  }

  /** The table after a step. */
  function RowsAfter(s: System, step: Step): Table
    requires Enabled(s, step)
  {
    match step
    case CreateStep(_, env, at) => CreateJob(s.rows, env, at)
    case MarkQueuedStep(sub, at, stored) => if stored then MarkQueued(s.rows, s.submits[sub].env.id, at) else s.rows
    case MarkSubmissionFailedStep(sub, at, stored) =>
      if stored then MarkSubmissionFailed(s.rows, s.submits[sub].env.id, s.submits[sub].phase.failure, at) else s.rows
    case PrepareStep(tag, at) =>
      var w := s.workers[tag];
      var env := s.broker.bodies[w.msg].env;
      if w.attempt > MAX_INTEGER || env.maxAttempts > MAX_INTEGER then s.rows
      else PrepareAttempt(s.rows, env, w.attempt, at)
    case RecordStep(tag, at) =>
      var w := s.workers[tag];
      Recorded(s.rows, s.broker.bodies[w.msg].env, w.attempt, w.outcome.value, at).0
    case _ => s.rows
  }

  lemma StepWritesRows(s: System, step: Step)
    requires Enabled(s, step)
    ensures Apply(s, step).rows == RowsAfter(s, step)
  {
    hide CreateJob, MarkQueued, MarkSubmissionFailed, PrepareAttempt, Recorded;
  }

  lemma StepKeepsTable(s: System, step: Step)
    requires ConsistentTable(s.rows) && WorkersOk(s) && SubmissionsOk(s) && Enabled(s, step)
    ensures TableEvolves(s.rows, Apply(s, step).rows)
    ensures ConsistentTable(Apply(s, step).rows)
  {
    hide Apply, TableEvolves, ConsistentTable, CreateJob, MarkQueued, MarkSubmissionFailed, PrepareAttempt, Recorded;
    StepWritesRows(s, step);
    TableEvolvesReflexive(s.rows);
    match step
    case CreateStep(_, env, at) => CreateKeeps(s.rows, env, at);
    case MarkQueuedStep(sub, at, _) => SubmitterKeeps(s.rows, s.submits[sub].env.id, "", at);
    case MarkSubmissionFailedStep(sub, at, _) =>
      SubmitterKeeps(s.rows, s.submits[sub].env.id, s.submits[sub].phase.failure, at);
    case PrepareStep(tag, at) =>
      var w := s.workers[tag];
      assert WorkerOk(s.rows, s.broker.bodies, w);
      PrepareKeeps(s.rows, s.broker.bodies[w.msg].env, w.attempt, at);
    case RecordStep(tag, at) =>
      var w := s.workers[tag];
      assert WorkerOk(s.rows, s.broker.bodies, w);
      RecordedKeeps(s.rows, s.broker.bodies[w.msg].env, w.attempt, w.outcome.value, at);
    case _ =>
  }

  /** The worker that takes the step. */
  function Actor(step: Step): Option<Tag> {
    match step
    case DeliverStep(tag, _) => Some(tag)
    case RefuseStep(tag) => Some(tag)
    case PrepareStep(tag, _) => Some(tag)
    case CallStep(tag) => Some(tag)
    case ReturnStep(tag, _) => Some(tag)
    case RecordStep(tag, _) => Some(tag)
    case SettleStep(tag, _) => Some(tag)
    case _ => None
  }

  lemma OnlyActorMoves(s: System, step: Step, tag: Tag)
    requires Enabled(s, step)
    requires Actor(step) != Some(tag)
    ensures tag in s.workers <==> tag in Apply(s, step).workers
    ensures tag in s.workers ==> Apply(s, step).workers[tag] == s.workers[tag]
  {}

  lemma WorkerOkStable(rows: Table, bodies: Bodies, rows': Table, bodies': Bodies, w: Worker)
    requires WorkerOk(rows, bodies, w)
    requires TableEvolves(rows, rows') && BodiesGrow(bodies, bodies')
    ensures WorkerOk(rows', bodies', w)
  {}

  lemma PreparedRow(rows: Table, env: Envelope, attempt: int, at: Time)
    requires ConsistentTable(rows)
    ensures env.id in PrepareAttempt(rows, env, attempt, at)
    ensures Started(PrepareAttempt(rows, env, attempt, at), env.id)
  {
    if env.id in rows { assert rows[env.id].Consistent(); }
  }

  lemma PreparedOk(s: System, tag: Tag, at: Time)
    requires Conserved(s.broker) && ConsistentTable(s.rows) && Enabled(s, PrepareStep(tag, at))
    requires WorkerOk(s.rows, s.broker.bodies, s.workers[tag])
    ensures var s' := Apply(s, PrepareStep(tag, at));
            tag in s'.workers && WorkerOk(s'.rows, s'.broker.bodies, s'.workers[tag])
  {
    hide PrepareAttempt, Conserved, ConsistentTable;
    var w := s.workers[tag];
    PreparedRow(s.rows, s.broker.bodies[w.msg].env, w.attempt, at);
  }

  lemma RecordedOk(s: System, tag: Tag, at: Time)
    requires Enabled(s, RecordStep(tag, at))
    requires WorkerOk(s.rows, s.broker.bodies, s.workers[tag])
    ensures var s' := Apply(s, RecordStep(tag, at));
            tag in s'.workers && WorkerOk(s'.rows, s'.broker.bodies, s'.workers[tag])
  {}

  lemma DeliveredOk(s: System, tag: Tag, msg: MsgId)
    requires Conserved(s.broker) && Enabled(s, DeliverStep(tag, msg))
    ensures var s' := Apply(s, DeliverStep(tag, msg));
            tag in s'.workers && WorkerOk(s'.rows, s'.broker.bodies, s'.workers[tag])
  {
    assert Copies(s.broker, msg) >= 1;
  }

  lemma SettlingEnds(s: System, tag: Tag, count: nat)
    requires Enabled(s, SettleStep(tag, count))
    ensures var s' := Apply(s, SettleStep(tag, count));
            && s'.rows == s.rows && s'.broker.bodies == s.broker.bodies && tag in s'.workers
            && s'.workers[tag] == s.workers[tag].(phase := if s.Live(tag) then Done else Aborted)
  {}

  lemma SettlingOk(s: System, tag: Tag, count: nat)
    requires Enabled(s, SettleStep(tag, count)) && WorkerOk(s.rows, s.broker.bodies, s.workers[tag])
    ensures var s' := Apply(s, SettleStep(tag, count));
            tag in s'.workers && WorkerOk(s'.rows, s'.broker.bodies, s'.workers[tag])
  {
    hide Apply;
    SettlingEnds(s, tag, count);
  }

  /** The steps of a worker that touch nothing but itself. */
  lemma MovedOnOk(s: System, step: Step, tag: Tag)
    requires Enabled(s, step) && Actor(step) == Some(tag)
    requires step.RefuseStep? || step.CallStep? || step.ReturnStep?
    requires tag in s.workers && WorkerOk(s.rows, s.broker.bodies, s.workers[tag])
    ensures var s' := Apply(s, step);
            tag in s'.workers && WorkerOk(s'.rows, s'.broker.bodies, s'.workers[tag])
  {}

  lemma ActorOk(s: System, step: Step, tag: Tag)
    requires Conserved(s.broker) && ConsistentTable(s.rows) && WorkersOk(s) && Enabled(s, step)
    requires Actor(step) == Some(tag)
    ensures var s' := Apply(s, step);
            tag in s'.workers && WorkerOk(s'.rows, s'.broker.bodies, s'.workers[tag])
  {
    hide Apply, WorkerOk;
    match step
    case PrepareStep(_, at) => PreparedOk(s, tag, at);
    case RecordStep(_, at) => RecordedOk(s, tag, at);
    case DeliverStep(_, msg) => DeliveredOk(s, tag, msg);
    case SettleStep(_, count) => SettlingOk(s, tag, count);
    case _ => MovedOnOk(s, step, tag);
  }

  lemma KeepsWorkersOk(s: System, step: Step)
    requires Conserved(s.broker) && ConsistentTable(s.rows) && WorkersOk(s) && SubmissionsOk(s) && Enabled(s, step)
    ensures WorkersOk(Apply(s, step))
  {
    hide Apply;
    var s' := Apply(s, step);
    StepKeepsTable(s, step);
    StepKeepsContent(s, step);
    forall tag | tag in s'.workers ensures WorkerOk(s'.rows, s'.broker.bodies, s'.workers[tag]) {
      if Actor(step) == Some(tag) {
        ActorOk(s, step, tag);
      } else {
        OnlyActorMoves(s, step, tag);
        WorkerOkStable(s.rows, s.broker.bodies, s'.rows, s'.broker.bodies, s.workers[tag]);
      }
    }
  }

  /** A worker keeps its delivery, its attempt number and, once it has one, its outcome. */
  predicate SameRun(w: Worker, w': Worker) {
    w'.msg == w.msg && w'.attempt == w.attempt && (w.outcome.Some? ==> w'.outcome == w.outcome)
  }

  lemma StepSameRun(s: System, step: Step, tag: Tag)
    requires WorkersOk(s) && Enabled(s, step) && tag in s.workers
    ensures tag in Apply(s, step).workers && SameRun(s.workers[tag], Apply(s, step).workers[tag])
  {
    assert WorkerOk(s.rows, s.broker.bodies, s.workers[tag]);
  }

  lemma KeepsDeliveriesOk(s: System, step: Step)
    requires Conserved(s.broker) && WorkersOk(s) && DeliveriesOk(s) && Enabled(s, step)
    ensures DeliveriesOk(Apply(s, step))
  {
    var s' := Apply(s, step);
    forall msg | msg in s'.broker.unacked ensures HeldOk(s'.broker, s'.workers, msg) {
      if msg in s.broker.unacked {
        StillHeld(s, step, msg);
      } else {
        NewlyHeld(s, step, msg);
      }
    }
  }

  lemma StillHeld(s: System, step: Step, msg: MsgId)
    requires Conserved(s.broker) && WorkersOk(s) && DeliveriesOk(s) && Enabled(s, step)
    requires msg in s.broker.unacked && msg in Apply(s, step).broker.unacked
    ensures HeldOk(Apply(s, step).broker, Apply(s, step).workers, msg)
  {
    hide Apply, Enabled, TrafficOf, Moved, Possible, WorkerOk;
    assert HeldOk(s.broker, s.workers, msg);
    StepMovesBroker(s, step);
    MovedOutstanding(s.broker, TrafficOf(s, step), msg);
    StepSameRun(s, step, s.broker.unacked[msg]);
  }

  lemma NewlyHeld(s: System, step: Step, msg: MsgId)
    requires Conserved(s.broker) && Enabled(s, step)
    requires msg !in s.broker.unacked && msg in Apply(s, step).broker.unacked
    ensures HeldOk(Apply(s, step).broker, Apply(s, step).workers, msg)
  {
    StepMovesBroker(s, step);
    MovedOutstanding(s.broker, TrafficOf(s, step), msg);
    assert step.DeliverStep?;
  }

  lemma SettledStable(rows: Table, rows': Table, b: Broker, b': Broker, msg: MsgId)
    requires SettledOk(rows, b, msg) && TableEvolves(rows, rows')
    requires msg in b.bodies ==> msg in b'.bodies && b'.bodies[msg] == b.bodies[msg]
    requires b'.acked[msg] == b.acked[msg] && b'.dead[msg] == b.dead[msg]
    requires msg in b.dead ==> msg in b.bodies
    ensures SettledOk(rows', b', msg)
  {}

  /** The step in which the broker takes the final answer for a message. */
  predicate Answers(s: System, step: Step, msg: MsgId)
    requires Enabled(s, step)
  {
    step.SettleStep? && s.workers[step.tag].msg == msg && s.Live(step.tag)
  }

  lemma OnlyAnswersSettle(s: System, step: Step, msg: MsgId)
    requires Enabled(s, step) && !Answers(s, step, msg)
    ensures Apply(s, step).broker.acked[msg] == s.broker.acked[msg]
    ensures Apply(s, step).broker.dead[msg] == s.broker.dead[msg]
  {}

  lemma AnswerSettles(s: System, step: Step, msg: MsgId)
    requires Enabled(s, step) && Answers(s, step, msg)
    requires Copies(s.broker, msg) == 1
    requires WorkerOk(s.rows, s.broker.bodies, s.workers[step.tag])
    ensures SettledOk(Apply(s, step).rows, Apply(s, step).broker, msg)
  {}

  lemma KeepsSettledOk(s: System, step: Step)
    requires Conserved(s.broker) && WorkersOk(s) && AllSettledOk(s) && Enabled(s, step)
    requires TableEvolves(s.rows, Apply(s, step).rows)
    ensures AllSettledOk(Apply(s, step))
  {
    var s' := Apply(s, step);
    StepKeepsContent(s, step);
    forall msg ensures SettledOk(s'.rows, s'.broker, msg) {
      assert Copies(s.broker, msg) == if msg in s.broker.bodies then 1 else 0;
      if Answers(s, step, msg) {
        AnswerSettles(s, step, msg);
      } else {
        OnlyAnswersSettle(s, step, msg);
        SettledStable(s.rows, s'.rows, s.broker, s'.broker, msg);
      }
    }
  }

  lemma SubmissionOkStable(rows: Table, rows': Table, b: Broker, b': Broker, sub: Submission)
    requires SubmissionOk(rows, b, sub) && TableEvolves(rows, rows')
    requires sub.phase.Sent? || sub.phase.Confirmed? || sub.phase.Accepted? ==>
               KeepsContent(b, b', sub.phase.msg)
    ensures SubmissionOk(rows', b', sub)
  {}

  lemma SubmitterOk(s: System, step: Step, sub: SubmitId)
    requires Conserved(s.broker) && Enabled(s, step)
    requires sub in s.submits ==> SubmissionOk(s.rows, s.broker, s.submits[sub])
    requires sub in Apply(s, step).submits && (sub in s.submits ==> Apply(s, step).submits[sub] != s.submits[sub])
    requires TableEvolves(s.rows, Apply(s, step).rows)
    ensures SubmissionOk(Apply(s, step).rows, Apply(s, step).broker, Apply(s, step).submits[sub])
  {}

  lemma KeepsSubmissionsOk(s: System, step: Step)
    requires Conserved(s.broker) && SubmissionsOk(s) && Enabled(s, step)
    requires TableEvolves(s.rows, Apply(s, step).rows)
    ensures SubmissionsOk(Apply(s, step))
  {
    var s' := Apply(s, step);
    forall sub | sub in s'.submits ensures SubmissionOk(s'.rows, s'.broker, s'.submits[sub]) {
      if sub in s.submits && s'.submits[sub] == s.submits[sub] {
        var phase := s.submits[sub].phase;
        if phase.Sent? || phase.Confirmed? || phase.Accepted? {
          StepKeepsContent(s, step);
        }
        SubmissionOkStable(s.rows, s'.rows, s.broker, s'.broker, s.submits[sub]);
      } else {
        SubmitterOk(s, step, sub);
      }
    }
  }

  lemma KeepsEarned(s: System, step: Step, id: JobId)
    requires Inv(s) && Enabled(s, step)
    requires id in s.rows && s.rows[id].status.Final()
    ensures Earned(Apply(s, step), id)
  {
    hide Apply, Enabled, WorkerOk;
    var s' := Apply(s, step);
    StepKeepsTable(s, step);
    StepKeepsContent(s, step);
    assert Earned(s, id) && Evolves(s.rows[id], s'.rows[id]);
    if s.rows[id].status.Succeeded? {
      var tag :| tag in s.workers && Ran(s.broker.bodies, s.workers[tag], id, Completed(s.rows[id].result));
      StepSameRun(s, step, tag);
      assert Ran(s'.broker.bodies, s'.workers[tag], id, Completed(s'.rows[id].result));
    } else {
      var tag :| tag in s.workers && RanOut(s.broker.bodies, s.workers[tag], id);
      StepSameRun(s, step, tag);
      assert RanOut(s'.broker.bodies, s'.workers[tag], id);
    }
  }

  lemma OnlyRecordingEnds(s: System, step: Step, id: JobId)
    requires Enabled(s, step)
    requires !(id in s.rows && s.rows[id].status.Final())
    requires id in Apply(s, step).rows && Apply(s, step).rows[id].status.Final()
    ensures step.RecordStep? && s.broker.bodies[s.workers[step.tag].msg].env.id == id
    ensures Open(s.rows, id)
  {}

  lemma KeepsRowsEarned(s: System, step: Step)
    requires Inv(s) && Enabled(s, step)
    ensures RowsEarned(Apply(s, step))
  {
    var s' := Apply(s, step);
    forall id ensures Earned(s', id) {
      if id in s.rows && s.rows[id].status.Final() {
        KeepsEarned(s, step, id);
      } else if id in s'.rows && s'.rows[id].status.Final() {
        OnlyRecordingEnds(s, step, id);
        var w := s'.workers[step.tag];
        if s'.rows[id].status.Succeeded? {
          assert Ran(s'.broker.bodies, w, id, Completed(s'.rows[id].result));
        } else {
          assert RanOut(s'.broker.bodies, w, id);
        }
      }
    }
  }

  lemma StepKeepsInv(s: System, step: Step)
    requires Inv(s) && Enabled(s, step)
    ensures Inv(Apply(s, step))
  {
    hide Apply;
    KeepsConserved(s, step);
    StepKeepsTable(s, step);
    KeepsWorkersOk(s, step);
    KeepsDeliveriesOk(s, step);
    KeepsSettledOk(s, step);
    KeepsSubmissionsOk(s, step);
    KeepsRowsEarned(s, step);
  }

  /** Every reachable state satisfies the invariant. */
  lemma {:induction false} ReachableInv(steps: seq<Step>)
    requires Legal(steps)
    ensures Inv(After(steps))
  {
    if steps != [] {
      ReachableInv(Init(steps));
      StepKeepsInv(After(Init(steps)), Last(steps));
    }
  }
}
