/** The background-job protocol as a state machine.

    Submitters, the job table, the broker and any number of workers take steps
    in any order.  A submitter or a worker may stop for good between any two
    steps; a worker whose delivery the broker has taken back may go on as a
    stale worker.  Every choice the code does not make (clock readings, broker
    answers, results of a job) is a parameter of a step, so a run is a sequence
    of steps and the state after it is a function of the run. */
module JobProtocol {
  import opened Text
  import opened JobStore
  import opened JobBroker

  type SubmitId = nat

  // ------------------------------------------------ the delivery header

  datatype HeaderValue = Signed(value: int) | Unsigned(value: int) | Other

  function HeaderInt64(header: Option<HeaderValue>): int {
    match header
    case None => 0
    case Some(Signed(v)) => v
    case Some(Unsigned(v)) => if v > MAX_INT64 then 0 else v
    case Some(Other) => 0
  }

  /** Two's complement wrap-around of a 64-bit sum. */
  function Wrap64(n: int): int {
    if n > MAX_INT64 then n - 0x1_0000_0000_0000_0000 else n
  }

  function DeliveryAttempt(header: Option<HeaderValue>): int {
    Wrap64(Max(HeaderInt64(header), 0) + 1)
  }

  /** What the broker puts in `x-delivery-count`: nothing on a first delivery. */
  function CountHeader(count: nat): Option<HeaderValue> {
    if count == 0 then None else Some(Signed(count))
  }

  // --------------------------------------------------------------- state

  /** What `Process` returned. */
  datatype Outcome = Completed(result: ExecutionResult) | Errored(error: string, permanent: bool)

  datatype SubmitPhase =
    | Persisted                // the row is in the table
    | Sent(msg: MsgId)         // the message has been written to the channel
    | Confirmed(msg: MsgId)    // the broker has confirmed it
    | Broken(failure: string)  // Publish has returned an error
    | Accepted(msg: MsgId)     // the caller holds a receipt
    | Refused                  // the caller holds an error

  datatype Submission = Submission(env: Envelope, phase: SubmitPhase)

  datatype WorkerPhase =
    | Received    // delivered, nothing done
    | Prepared    // attempt prepared
    | Running     // Process has been called
    | Finished    // Process has returned
    | Acking      // about to acknowledge
    | Rejecting   // about to reject to the dead-letter queue
    | Requeueing  // about to reject with requeue
    | Done        // the broker took the answer
    | Aborted     // handleDelivery returned an error
  {
    /** An attempt is prepared and not yet recorded. */
    predicate Working() {
      Prepared? || Running? || Finished?
    }
  }

  datatype Worker = Worker(msg: MsgId, attempt: int, phase: WorkerPhase, outcome: Option<Outcome>)
  {
    /** `Process` has been called in this delivery, whether or not it returned. */
    predicate HasCalled() {
      phase.Running? || outcome.Some?
    }
  }

  type Workers = map<Tag, Worker>

  datatype System = System(rows: Table, submits: map<SubmitId, Submission>, broker: Broker, workers: Workers)
  {
    predicate InPhase(tag: Tag, phase: WorkerPhase) {
      tag in workers && workers[tag].phase == phase
    }

    /** The broker still waits for this delivery's answer. */
    predicate Live(tag: Tag)
      requires tag in workers
    {
      broker.Outstanding(workers[tag].msg, tag)
    }

    function WithPhase(tag: Tag, phase: WorkerPhase): System
      requires tag in workers
    {
      this.(workers := workers[tag := workers[tag].(phase := phase)])
    }

    function WithSubmit(sub: SubmitId, phase: SubmitPhase): System
      requires sub in submits
    {
      this.(submits := submits[sub := submits[sub].(phase := phase)])
    }
  }

  const INITIAL := System(map[], map[], EMPTY_BROKER, map[])

  // --------------------------------------------------------------- steps

  datatype Step =
    | CreateStep(sub: SubmitId, env: Envelope, at: Time)
    | SendStep(sub: SubmitId, msg: MsgId)
    | PublishErrorStep(sub: SubmitId, failure: string)
    | ConfirmStep(sub: SubmitId)
    | MarkQueuedStep(sub: SubmitId, at: Time, stored: bool)
    | MarkSubmissionFailedStep(sub: SubmitId, at: Time, stored: bool)
    | InjectStep(msg: MsgId, body: Body)      // someone else publishes
    | AcceptStep(msg: MsgId)                  // the broker stores a sent message
    | LoseStep(msg: MsgId)                    // ... or never gets it
    | DeliverStep(tag: Tag, msg: MsgId)
    | InterruptStep(msg: MsgId, count: nat)   // the broker takes a delivery back
    | RefuseStep(tag: Tag)                    // malformed or invalid envelope
    | PrepareStep(tag: Tag, at: Time)
    | CallStep(tag: Tag)                      // Process is called
    | ReturnStep(tag: Tag, outcome: Outcome)  // ... and returns
    | RecordStep(tag: Tag, at: Time)          // MarkSucceeded, MarkFailed or MarkRetrying
    | SettleStep(tag: Tag, count: nat)        // Ack or Reject

  predicate Enabled(s: System, step: Step) {
    match step
    case CreateStep(sub, env, _) => sub !in s.submits && env.Valid()
    case SendStep(sub, msg) =>
      sub in s.submits && s.submits[sub].phase.Persisted? && s.broker.Unused(msg)
    case PublishErrorStep(sub, _) =>
      sub in s.submits && (s.submits[sub].phase.Persisted? || s.submits[sub].phase.Sent?)
    case ConfirmStep(sub) =>
      sub in s.submits && s.submits[sub].phase.Sent? && s.submits[sub].phase.msg in s.broker.bodies
    case MarkQueuedStep(sub, _, _) => sub in s.submits && s.submits[sub].phase.Confirmed?
    case MarkSubmissionFailedStep(sub, _, _) => sub in s.submits && s.submits[sub].phase.Broken?
    case InjectStep(msg, _) => s.broker.Unused(msg)
    case AcceptStep(msg) => msg in s.broker.wire
    case LoseStep(msg) => msg in s.broker.wire
    case DeliverStep(tag, msg) => tag !in s.workers && s.broker.CanDeliver(msg)
    case InterruptStep(msg, count) => s.broker.CanTakeBack(msg, count)
    case RefuseStep(tag) => s.InPhase(tag, Received) && !s.broker.ValidMsg(s.workers[tag].msg)
    case PrepareStep(tag, _) => s.InPhase(tag, Received) && s.broker.ValidMsg(s.workers[tag].msg)
    case CallStep(tag) => s.InPhase(tag, Prepared)
    case ReturnStep(tag, _) => s.InPhase(tag, Running)
    case RecordStep(tag, _) =>
      s.InPhase(tag, Finished) && s.workers[tag].outcome.Some? && s.broker.ValidMsg(s.workers[tag].msg)
    case SettleStep(tag, count) =>
      && (s.InPhase(tag, Acking) || s.InPhase(tag, Rejecting) || s.InPhase(tag, Requeueing))
      && (s.Live(tag) ==> s.broker.CanSettle(s.workers[tag].msg, AnswerOf(s.workers[tag].phase, count)))
  }

  function Apply(s: System, step: Step): System
    requires Enabled(s, step)
  {
    match step
    case CreateStep(sub, env, at) =>
      s.(rows := CreateJob(s.rows, env, at),
         submits := s.submits[sub := Submission(env, if env.id in s.rows then Refused else Persisted)])
    case SendStep(sub, msg) =>
      s.WithSubmit(sub, Sent(msg)).(broker := s.broker.Send(msg, Json(s.submits[sub].env)))
    case PublishErrorStep(sub, failure) => s.WithSubmit(sub, Broken(failure))
    case ConfirmStep(sub) => s.WithSubmit(sub, Confirmed(s.submits[sub].phase.msg))
    case MarkQueuedStep(sub, at, stored) =>
      s.WithSubmit(sub, Accepted(s.submits[sub].phase.msg))
       .(rows := if stored then MarkQueued(s.rows, s.submits[sub].env.id, at) else s.rows)
    case MarkSubmissionFailedStep(sub, at, stored) =>
      s.WithSubmit(sub, Refused)
       .(rows := if stored
                 then MarkSubmissionFailed(s.rows, s.submits[sub].env.id, s.submits[sub].phase.failure, at)
                 else s.rows)
    case InjectStep(msg, body) => s.(broker := s.broker.Send(msg, body))
    case AcceptStep(msg) => s.(broker := s.broker.Accept(msg))
    case LoseStep(msg) => s.(broker := s.broker.Lose(msg))
    case DeliverStep(tag, msg) =>
      s.(broker := s.broker.Deliver(msg, tag),
         workers := s.workers[tag := Worker(msg, DeliveryAttempt(CountHeader(s.broker.counts[msg])), Received, None)])
    case InterruptStep(msg, count) => s.(broker := s.broker.TakeBack(msg, count))
    case RefuseStep(tag) => s.WithPhase(tag, Rejecting)
    case PrepareStep(tag, at) => AfterPrepare(s, tag, at)
    case CallStep(tag) => s.WithPhase(tag, Running)
    case ReturnStep(tag, outcome) =>
      s.(workers := s.workers[tag := s.workers[tag].(phase := Finished, outcome := Some(outcome))])
    case RecordStep(tag, at) => AfterRecord(s, tag, at)
    case SettleStep(tag, count) =>
      // the broker refuses the answer to a delivery it has taken back
      if s.Live(tag)
      then s.WithPhase(tag, Done)
            .(broker := s.broker.Settle(s.workers[tag].msg, AnswerOf(s.workers[tag].phase, count)))
      else s.WithPhase(tag, Aborted)
  }

  function AfterPrepare(s: System, tag: Tag, at: Time): System
    requires Enabled(s, PrepareStep(tag, at))
  {
    var worker := s.workers[tag];
    var env := s.broker.bodies[worker.msg].env;
    if worker.attempt > MAX_INTEGER || env.maxAttempts > MAX_INTEGER then
      s.WithPhase(tag, Aborted)
    else
      var rows := PrepareAttempt(s.rows, env, worker.attempt, at);
      s.WithPhase(tag, PreparedPhase(rows[env.id].status)).(rows := rows)
  }

  function PreparedPhase(status: Status): WorkerPhase {
    match status
    case Succeeded => Acking
    case Failed => Rejecting
    case _ => Prepared
  }

  /** No further attempt is made after this error. */
  predicate GivesUp(outcome: Outcome, attempt: int, maxAttempts: int) {
    outcome.Errored? && (outcome.permanent || attempt >= maxAttempts)
  }

  /** The row write that follows `Process`, and whether a row was hit. */
  function Recorded(rows: Table, env: Envelope, attempt: int, outcome: Outcome, at: Time): (Table, bool) {
    match outcome
    case Completed(result) => (MarkSucceeded(rows, env.id, attempt, result, at), Open(rows, env.id))
    case Errored(error, _) =>
      if GivesUp(outcome, attempt, env.maxAttempts)
      then (MarkFailed(rows, env.id, attempt, error, at), Failable(rows, env.id))
      else (MarkRetrying(rows, env.id, attempt, error, at), Open(rows, env.id))
  }

  function RecordedPhase(outcome: Outcome, attempt: int, maxAttempts: int): WorkerPhase {
    if outcome.Completed? then Acking
    else if GivesUp(outcome, attempt, maxAttempts) then Rejecting
    else Requeueing
  }

  function AfterRecord(s: System, tag: Tag, at: Time): System
    requires Enabled(s, RecordStep(tag, at))
  {
    var worker := s.workers[tag];
    var env := s.broker.bodies[worker.msg].env;
    var (rows, hit) := Recorded(s.rows, env, worker.attempt, worker.outcome.value, at);
    s.WithPhase(tag, if hit then RecordedPhase(worker.outcome.value, worker.attempt, env.maxAttempts) else Aborted)
     .(rows := rows)
  }

  function AnswerOf(phase: WorkerPhase, count: nat): Answer {
    match phase
    case Acking => Ack
    case Rejecting => Reject
    case _ => Requeue(count)
  }

  // ---------------------------------------------------------------- runs

  ghost predicate Legal(steps: seq<Step>)
    decreases |steps|, 0
  {
    steps == [] || (Legal(Init(steps)) && Enabled(After(Init(steps)), Last(steps)))
  }

  /** The state after a run. */
  ghost function After(steps: seq<Step>): System
    requires Legal(steps)
    decreases |steps|, 1
  {
    if steps == [] then INITIAL else Apply(After(Init(steps)), Last(steps))
  }
}
