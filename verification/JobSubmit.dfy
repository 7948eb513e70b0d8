/** Submitting a job: persist the row, publish the message, mark the row. */
module JobSubmit {
  import opened Text
  import opened JobStore
  import opened JobBroker
  import opened JobProtocol
  import opened JobInvariants
  import opened JobTheorems

  const DEFAULT_MAX_ATTEMPTS := 5
  const MAX_MAX_ATTEMPTS := 10

  datatype SubmitError = InvalidMaxAttempts | InvalidEnvelope | NotPersisted | NotPublished(failure: string)

  datatype Receipt = Receipt(id: JobId, jobType: string, createdAt: Time)

  /** Zero asks for the default. */
  function NormalizeMaxAttempts(value: int): (r: Result<int, SubmitError>)
    ensures r.Ok? ==> 1 <= r.value <= MAX_MAX_ATTEMPTS && (value != 0 ==> r.value == value)
    ensures r.Err? <==> value < 0 || value > MAX_MAX_ATTEMPTS
    ensures value == 0 ==> r == Ok(DEFAULT_MAX_ATTEMPTS)
  {
    if value == 0 then Ok(DEFAULT_MAX_ATTEMPTS)
    else if value < 1 || value > MAX_MAX_ATTEMPTS then Err(InvalidMaxAttempts)
    else Ok(value)
  }

  /** The envelope of a first attempt at this job. */
  predicate Contains(env: Envelope, id: JobId, jobType: string, createdAt: Time, maxAttempts: int) {
    && env.id == id && env.jobType == jobType && env.createdAt == createdAt && env.maxAttempts == maxAttempts
    && env.attempt == 1 && env.schemaVersion == 1
  }

  function NewEnvelope(id: string, jobType: string, createdAt: Time, maxAttempts: int): (r: Result<Envelope, SubmitError>)
    ensures r.Ok? ==> r.value.Valid() && Contains(r.value, TrimSpace(id), jobType, createdAt, maxAttempts)
    ensures r.Err? ==> r.error.InvalidEnvelope?
    ensures r.Ok? <==> TrimSpace(id) != "" && jobType in JOB_TYPES && createdAt != ZERO_TIME && maxAttempts >= 1
  {
    TrimTwice(id);
    var env := Envelope(SCHEMA_VERSION, TrimSpace(id), jobType, createdAt, 1, maxAttempts, true);
    if env.Valid() then Ok(env) else Err(InvalidEnvelope)
  }

  /** What the publisher does with the message.  An error says nothing about
      whether the broker has stored it. */
  datatype Publication = Confirms | Fails(failure: string, stored: bool)

  /** The submitter's steps, up to the publisher's answer. */
  lemma PublishRun(prior: seq<Step>, sub: SubmitId, msg: MsgId, publication: Publication) returns (run: seq<Step>)
    requires Legal(prior) && After(prior).broker.Unused(msg)
    requires sub in After(prior).submits && After(prior).submits[sub].phase.Persisted?
    ensures Legal(run) && prior <= run
    ensures After(run).rows == After(prior).rows
    ensures sub in After(run).submits && After(run).submits[sub].env == After(prior).submits[sub].env
    ensures After(run).submits[sub].phase == if publication.Confirms? then Confirmed(msg) else Broken(publication.failure)
    ensures msg in After(run).broker.bodies <==> publication.Confirms? || publication.stored
    ensures msg in After(run).broker.bodies ==>
              After(run).broker.CanDeliver(msg) && After(run).broker.bodies[msg] == Json(After(prior).submits[sub].env)
  {
    assert msg !in After(prior).broker.bodies by { StoredIsConserved(prior); }
    Extend(prior, SendStep(sub, msg));
    run := prior + [SendStep(sub, msg)];
    if publication.Confirms? || publication.stored {
      run := StoreRun(run, sub, msg);
    }
    var answer := if publication.Confirms? then ConfirmStep(sub) else PublishErrorStep(sub, publication.failure);
    Extend(run, answer);
    run := run + [answer];
  }

  lemma StoreRun(prior: seq<Step>, sub: SubmitId, msg: MsgId) returns (run: seq<Step>)
    requires Legal(prior) && msg in After(prior).broker.wire
    ensures Legal(run) && prior <= run
    ensures After(run).rows == After(prior).rows && After(run).submits == After(prior).submits
    ensures msg in After(run).broker.bodies && After(run).broker.CanDeliver(msg)
    ensures After(run).broker.bodies[msg] == After(prior).broker.wire[msg]
  {
    Extend(prior, AcceptStep(msg));
    run := prior + [AcceptStep(msg)];
  }

  lemma CreateRun(prior: seq<Step>, sub: SubmitId, env: Envelope, at: Time) returns (run: seq<Step>)
    requires Legal(prior) && sub !in After(prior).submits && env.Valid()
    ensures Legal(run) && prior <= run
    ensures After(run).rows == CreateJob(After(prior).rows, env, at)
    ensures After(run).broker == After(prior).broker
    ensures sub in After(run).submits && After(run).submits[sub].env == env
    ensures After(run).submits[sub].phase == if env.id in After(prior).rows then Refused else Persisted
  {
    Extend(prior, CreateStep(sub, env, at));
    run := prior + [CreateStep(sub, env, at)];
  }

  lemma MarkRun(prior: seq<Step>, sub: SubmitId, at: Time, stored: bool) returns (run: seq<Step>)
    requires Legal(prior) && sub in After(prior).submits
    requires After(prior).submits[sub].phase.Confirmed? || After(prior).submits[sub].phase.Broken?
    ensures Legal(run) && prior <= run
    ensures var s, s' := After(prior), After(run);
            var id := s.submits[sub].env.id;
            && s'.broker == s.broker
            && sub in s'.submits && s'.submits[sub].env == s.submits[sub].env
            && (s.submits[sub].phase.Confirmed? ==>
                  && s'.submits[sub].phase == Accepted(s.submits[sub].phase.msg)
                  && s'.rows == if stored then MarkQueued(s.rows, id, at) else s.rows)
            && (s.submits[sub].phase.Broken? ==>
                  && s'.submits[sub].phase == Refused
                  && s'.rows == if stored then MarkSubmissionFailed(s.rows, id, s.submits[sub].phase.failure, at)
                                else s.rows)
  {
    var mark := if After(prior).submits[sub].phase.Confirmed?
                then MarkQueuedStep(sub, at, stored) else MarkSubmissionFailedStep(sub, at, stored);
    Extend(prior, mark);
    run := prior + [mark];
  }

  /** The table that the last update of a submission leaves. */
  function Marked(rows: Table, id: JobId, publication: Publication, at: Time, marked: bool): Table {
    if !marked then rows
    else if publication.Fails? then MarkSubmissionFailed(rows, id, publication.failure, at)
    else MarkQueued(rows, id, at)
  }

  /** Publishing and marking, from the inserted row on. */
  lemma PublishAndMarkRun(prior: seq<Step>, sub: SubmitId, msg: MsgId, publication: Publication, at: Time, marked: bool)
      returns (run: seq<Step>)
    requires Legal(prior) && After(prior).broker.Unused(msg)
    requires sub in After(prior).submits && After(prior).submits[sub].phase.Persisted?
    ensures Legal(run) && prior <= run && sub in After(run).submits
    ensures After(run).rows == Marked(After(prior).rows, After(prior).submits[sub].env.id, publication, at, marked)
    ensures publication.Confirms? ==> After(run).submits[sub].phase == Accepted(msg)
    ensures msg in After(run).broker.bodies <==> publication.Confirms? || publication.stored
    ensures msg in After(run).broker.bodies ==>
              After(run).broker.CanDeliver(msg) && After(run).broker.bodies[msg] == Json(After(prior).submits[sub].env)
  {
    hide Legal, After, MarkQueued, MarkSubmissionFailed;
    var published := PublishRun(prior, sub, msg, publication);
    run := MarkRun(published, sub, at, marked);
  }

  /** The row of a job that was submitted and not yet worked on. */
  predicate ShowsSubmission(rows: Table, id: JobId, jobType: string, createdAt: Time, maxAttempts: int,
                            publication: Publication, at: Time, marked: bool) {
    && id in rows
    && (var row := rows[id];
        && row.jobType == jobType && row.createdAt == createdAt && row.maxAttempts == maxAttempts
        && row.currentAttempt == 0 && row.startedAt.None? && row.result == NO_RESULT
        && row.status == (if !marked then Publishing else if publication.Fails? then PublishFailed else Queued)
        && row.queuedAt == (if row.status.Queued? then Some(at) else None)
        && row.completedAt == (if row.status.PublishFailed? then Some(at) else None)
        && row.updatedAt == (if marked then at else createdAt)
        && row.lastError == (if row.status.PublishFailed? && publication.Fails? then TrimSpace(publication.failure) else ""))
  }

  /** What a new row shows before and after it is marked. */
  lemma NewRowMarks(rows: Table, env: Envelope, publication: Publication, at: Time, marked: bool)
    ensures env.id in rows ==> CreateJob(rows, env, env.createdAt) == rows
    ensures env.id !in rows ==>
              var rows' := Marked(CreateJob(rows, env, env.createdAt), env.id, publication, at, marked);
              && ShowsSubmission(rows', env.id, env.jobType, env.createdAt, env.maxAttempts, publication, at, marked)
              && OthersKept(rows, rows', env.id)
  {}

  /** `submit`.  The row is written before anything is published; the caller
      gets a receipt exactly when the input is acceptable, the id new and the message
      confirmed by the broker, even if the row could not be marked; a refused caller
      may still have a stored message.  Row and message are of the job asked for.
      `marked` says whether the last update reached the database. */
  method Submit(store: Repository, id: string, jobType: string, maxAttempts: int, createdAt: Time,
                publication: Publication, markedAt: Time, marked: bool,
                ghost prior: seq<Step>, ghost sub: SubmitId, ghost msg: MsgId)
      returns (r: Result<Receipt, SubmitError>, ghost run: seq<Step>)
    requires Legal(prior) && After(prior).rows == store.rows
    requires sub !in After(prior).submits && After(prior).broker.Unused(msg)
    modifies store
    ensures Legal(run) && prior <= run && After(run).rows == store.rows
    ensures var acceptable := TrimSpace(id) != "" && jobType in JOB_TYPES && createdAt != ZERO_TIME;
            && (r == Err(InvalidMaxAttempts) <==> maxAttempts < 0 || maxAttempts > 10)
            && (r == Err(InvalidEnvelope) <==> 0 <= maxAttempts <= 10 && !acceptable)
            && (r == Err(NotPersisted) <==> 0 <= maxAttempts <= 10 && acceptable && TrimSpace(id) in old(store.rows))
            && (r.Err? && r.error.NotPublished? <==>
                  0 <= maxAttempts <= 10 && acceptable && TrimSpace(id) !in old(store.rows) && publication.Fails?)
    ensures r.Err? && (r.error.InvalidMaxAttempts? || r.error.InvalidEnvelope? || r.error.NotPersisted?) ==>
              store.rows == old(store.rows) && After(run).broker == After(prior).broker
    ensures r.Ok? ==>
              && publication.Confirms? && r.value == Receipt(TrimSpace(id), jobType, createdAt)
              && sub in After(run).submits && After(run).submits[sub].phase == Accepted(msg)
              && After(run).broker.CanDeliver(msg) && msg in After(run).broker.bodies
    ensures r.Err? && r.error.NotPublished? ==>
              && publication.Fails? && r.error.failure == publication.failure
              && (msg in After(run).broker.bodies <==> publication.stored)
    ensures var allowed := if maxAttempts == 0 then 5 else maxAttempts;
            r.Ok? || r.error.NotPublished? ==>
              && ShowsSubmission(store.rows, TrimSpace(id), jobType, createdAt, allowed, publication, markedAt, marked)
              && OthersKept(old(store.rows), store.rows, TrimSpace(id))
              && (msg in After(run).broker.bodies ==>
                    && After(run).broker.ValidMsg(msg)
                    && Contains(After(run).broker.bodies[msg].env, TrimSpace(id), jobType, createdAt, allowed))
  {
    run := prior;
    var attempts := NormalizeMaxAttempts(maxAttempts);
    if attempts.Err? {
      return Err(attempts.error), run;
    }
    var built := NewEnvelope(id, jobType, createdAt, attempts.value);
    if built.Err? {
      return Err(built.error), run;
    }
    var env := built.value;
    hide Legal, After, Envelope.Valid, CreateJob, MarkQueued, MarkSubmissionFailed, ShowsSubmission, OthersKept, Contains;
    NewRowMarks(store.rows, env, publication, markedAt, marked);
    run := CreateRun(prior, sub, env, createdAt);
    var ok := store.Create(env, createdAt);
    if !ok {
      return Err(NotPersisted), run;
    }
    run := PublishAndMarkRun(run, sub, msg, publication, markedAt, marked);
    if publication.Fails? {
      if marked {
        store.SetSubmissionFailed(env.id, publication.failure, markedAt);
      }
      return Err(NotPublished(publication.failure)), run;
    }
    if marked {
      store.SetQueued(env.id, markedAt);
    }
    r := Ok(Receipt(env.id, env.jobType, env.createdAt));
  }
}
