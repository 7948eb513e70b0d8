/** The `background_jobs` table: one row per job, and the guarded SQL statements
    that move a row from status to status.

    Each statement is a function from the table to the table, which the job
    protocol interleaves, and a method of `Repository` that runs it in place. */
module JobStore {
  import opened Text

  type JobId = string

  /** Nanoseconds since the Unix epoch. */
  type Time = int

  const SCHEMA_VERSION := 1

  /** The largest value of the SQL type `integer`. */
  const MAX_INTEGER := 0x7fff_ffff

  const JOB_TYPES := {"jobs.webhook.deliver", "jobs.report.generate", "jobs.cleanup.expired_tokens"}

  datatype Envelope = Envelope(
    schemaVersion: int,
    id: JobId,
    jobType: string,
    createdAt: Time,
    attempt: int,
    maxAttempts: int,
    payloadIsJson: bool)
  {
    predicate Valid() {
      && schemaVersion == SCHEMA_VERSION
      && TrimSpace(id) != ""
      && jobType in JOB_TYPES
      && createdAt != ZERO_TIME
      && attempt >= 1
      && maxAttempts >= attempt
      && payloadIsJson
    }
  }

  datatype Status = Publishing | PublishFailed | Queued | Processing | Retrying | Succeeded | Failed
  {
    predicate Final() {
      Succeeded? || Failed?
    }

    /** The statuses a worker writes. */
    predicate Worked() {
      Processing? || Retrying? || Final()
    }
  }

  datatype ExecutionResult = ExecutionResult(message: string, outputPath: string, affectedRows: int)

  const NO_RESULT := ExecutionResult("", "", 0)

  datatype Row = Row(
    jobType: string,
    status: Status,
    currentAttempt: int,
    maxAttempts: int,
    createdAt: Time,
    queuedAt: Option<Time>,
    startedAt: Option<Time>,
    completedAt: Option<Time>,
    updatedAt: Time,
    lastError: string,
    result: ExecutionResult)
  {
    /** The table's own check, and what the time stamps and the result say
        about the status. */
    predicate Consistent() {
      && 0 <= currentAttempt <= maxAttempts
      && 1 <= maxAttempts
      && (startedAt.Some? <==> status.Worked())
      && (status.Final() || status.PublishFailed? ==> completedAt.Some?)
      && (status.Queued? ==> queuedAt.Some?)
      && (status.Publishing? ==> queuedAt.None? && completedAt.None? && currentAttempt == 0)
      && (!status.Succeeded? ==> result == NO_RESULT)
    }
  }

  type Table = map<JobId, Row>

  /** SQL `COALESCE`. */
  function Coalesce(stored: Option<Time>, now: Time): Option<Time> {
    if stored.Some? then stored else Some(now)
  }

  // ------------------------------------------------------------ statements

  function NewRow(env: Envelope, now: Time): Row {
    Row(env.jobType, Publishing, 0, env.maxAttempts, env.createdAt, None, None, None, now, "", NO_RESULT)
  }

  /** INSERT of a new job: a taken id is refused by the primary key. */
  function CreateJob(rows: Table, env: Envelope, now: Time): Table {
    if env.id in rows then rows else rows[env.id := NewRow(env, now)]
  }

  function MarkQueued(rows: Table, id: JobId, at: Time): Table {
    if id in rows && rows[id].status.Publishing?
    then rows[id := rows[id].(status := Queued, queuedAt := Coalesce(rows[id].queuedAt, at),
                              updatedAt := at, lastError := "")]
    else rows
  }

  function MarkSubmissionFailed(rows: Table, id: JobId, failure: string, at: Time): Table {
    if id in rows && rows[id].status.Publishing?
    then rows[id := rows[id].(status := PublishFailed, completedAt := Some(at),
                              updatedAt := at, lastError := TrimSpace(failure))]
    else rows
  }

  /** The upsert that starts an attempt.  A missing row is inserted, a final
      row is left alone. */
  function PrepareAttempt(rows: Table, env: Envelope, attempt: int, at: Time): Table {
    if env.id !in rows then
      rows[env.id := Row(env.jobType, Processing, Min(attempt, env.maxAttempts), env.maxAttempts,
                         env.createdAt, None, Some(at), None, at, "", NO_RESULT)]
    else if rows[env.id].status.Final() then
      rows
    else
      rows[env.id := rows[env.id].(status := Processing,
                                   currentAttempt := Min(attempt, rows[env.id].maxAttempts),
                                   startedAt := Coalesce(rows[env.id].startedAt, at),
                                   updatedAt := at, lastError := "")]
  }

  /** The job has reached its end. */
  predicate Ended(rows: Table, id: JobId) {
    id in rows && rows[id].status.Final()
  }

  predicate Open(rows: Table, id: JobId) {
    id in rows && !rows[id].status.Final()
  }

  function MarkRetrying(rows: Table, id: JobId, attempt: int, failure: string, at: Time): Table {
    if Open(rows, id)
    then rows[id := rows[id].(status := Retrying, currentAttempt := Min(attempt, rows[id].maxAttempts),
                              updatedAt := at, lastError := TrimSpace(failure))]
    else rows
  }

  function MarkSucceeded(rows: Table, id: JobId, attempt: int, result: ExecutionResult, at: Time): Table {
    if Open(rows, id)
    then rows[id := rows[id].(status := Succeeded, currentAttempt := Min(attempt, rows[id].maxAttempts),
                              completedAt := Some(at), updatedAt := at, lastError := "",
                              result := result)]
    else rows
  }

  /** The one update whose guard lets a failed row through. */
  predicate Failable(rows: Table, id: JobId) {
    id in rows && !rows[id].status.Succeeded?
  }

  function MarkFailed(rows: Table, id: JobId, attempt: int, failure: string, at: Time): Table {
    if Failable(rows, id)
    then rows[id := rows[id].(status := Failed, currentAttempt := Min(attempt, rows[id].maxAttempts),
                              completedAt := Some(at), updatedAt := at,
                              lastError := TrimSpace(failure))]
    else rows
  }

  // ------------------------------------------------- what every write keeps

  /** How a row may have changed after any number of writes, by anyone. */
  predicate Evolves(before: Row, after: Row) {
    && before.jobType == after.jobType
    && before.maxAttempts == after.maxAttempts
    && before.createdAt == after.createdAt
    && (before.status.Succeeded? ==> after == before)
    && (before.status.Failed? ==> after.status.Failed?)
    && (before.status.Worked() ==> after.status.Worked())
    && (before.startedAt.Some? ==> after.startedAt == before.startedAt)
    && (before.queuedAt.Some? ==> after.queuedAt == before.queuedAt)
    && (before.completedAt.Some? ==> after.completedAt.Some?)
  }

  predicate TableEvolves(before: Table, after: Table) {
    forall id :: id in before ==> id in after && Evolves(before[id], after[id])
  }

  /** Some worker has prepared an attempt of this job. */
  predicate Started(rows: Table, id: JobId) {
    id in rows && rows[id].startedAt.Some?
  }

  predicate ConsistentTable(rows: Table) {
    forall id :: id in rows ==> rows[id].Consistent()
  }

  lemma TableEvolvesReflexive(rows: Table)
    ensures TableEvolves(rows, rows)
  {}

  lemma TableEvolvesTransitive(a: Table, b: Table, c: Table)
    requires TableEvolves(a, b) && TableEvolves(b, c)
    ensures TableEvolves(a, c)
  {}

  lemma CreateKeeps(rows: Table, env: Envelope, now: Time)
    requires ConsistentTable(rows) && env.Valid()
    ensures TableEvolves(rows, CreateJob(rows, env, now))
    ensures ConsistentTable(CreateJob(rows, env, now))
  {}

  lemma SubmitterKeeps(rows: Table, id: JobId, failure: string, at: Time)
    requires ConsistentTable(rows)
    ensures TableEvolves(rows, MarkQueued(rows, id, at)) && ConsistentTable(MarkQueued(rows, id, at))
    ensures TableEvolves(rows, MarkSubmissionFailed(rows, id, failure, at))
    ensures ConsistentTable(MarkSubmissionFailed(rows, id, failure, at))
  {
    if id in rows { assert rows[id].Consistent(); }
  }

  lemma PrepareKeeps(rows: Table, env: Envelope, attempt: int, at: Time)
    requires ConsistentTable(rows) && env.Valid() && attempt >= 1
    ensures TableEvolves(rows, PrepareAttempt(rows, env, attempt, at))
    ensures ConsistentTable(PrepareAttempt(rows, env, attempt, at))
  {
    if env.id in rows { assert rows[env.id].Consistent(); }
  }

  lemma SucceededKeeps(rows: Table, id: JobId, attempt: int, result: ExecutionResult, at: Time)
    requires ConsistentTable(rows) && attempt >= 1 && Started(rows, id)
    ensures TableEvolves(rows, MarkSucceeded(rows, id, attempt, result, at))
    ensures ConsistentTable(MarkSucceeded(rows, id, attempt, result, at))
  {}

  lemma FailedKeeps(rows: Table, id: JobId, attempt: int, failure: string, at: Time)
    requires ConsistentTable(rows) && attempt >= 1 && Started(rows, id)
    ensures TableEvolves(rows, MarkFailed(rows, id, attempt, failure, at))
    ensures ConsistentTable(MarkFailed(rows, id, attempt, failure, at))
  {}

  lemma RetryingKeeps(rows: Table, id: JobId, attempt: int, failure: string, at: Time)
    requires ConsistentTable(rows) && attempt >= 1 && Started(rows, id)
    ensures TableEvolves(rows, MarkRetrying(rows, id, attempt, failure, at))
    ensures ConsistentTable(MarkRetrying(rows, id, attempt, failure, at))
  {}

  /** Every other row is as it was. */
  ghost predicate OthersKept(before: Table, after: Table, id: JobId) {
    forall other :: other != id ==>
      (other in after <==> other in before) && (other in before ==> after[other] == before[other])
  }

  /** A write keeps the table in order. */
  ghost predicate InOrder(before: Table, after: Table) {
    ConsistentTable(before) ==> TableEvolves(before, after) && ConsistentTable(after)
  }

  /** The table as the service uses it: the object the methods update.  Each method
      runs one statement, and from an orderly table leaves an orderly one in which
      rows have only evolved. */
  class Repository {
    var rows: Table

    constructor ()
      ensures rows == map[]
    {
      rows := map[];
    }

    method Create(env: Envelope, now: Time) returns (ok: bool)
      modifies this
      ensures rows == CreateJob(old(rows), env, now)
      ensures ok <==> env.id !in old(rows)
      ensures env.Valid() ==> InOrder(old(rows), rows)
    {
      if ConsistentTable(rows) && env.Valid() { CreateKeeps(rows, env, now); }
      ok := env.id !in rows;
      rows := CreateJob(rows, env, now);
    }

    method SetQueued(id: JobId, at: Time)
      modifies this
      ensures rows == MarkQueued(old(rows), id, at) && OthersKept(old(rows), rows, id)
      ensures !(id in old(rows) && old(rows)[id].status.Publishing?) ==> rows == old(rows)
      ensures InOrder(old(rows), rows)
    {
      if ConsistentTable(rows) { SubmitterKeeps(rows, id, "", at); }
      rows := MarkQueued(rows, id, at);
    }

    method SetSubmissionFailed(id: JobId, failure: string, at: Time)
      modifies this
      ensures rows == MarkSubmissionFailed(old(rows), id, failure, at) && OthersKept(old(rows), rows, id)
      ensures !(id in old(rows) && old(rows)[id].status.Publishing?) ==> rows == old(rows)
      ensures InOrder(old(rows), rows)
    {
      if ConsistentTable(rows) { SubmitterKeeps(rows, id, failure, at); }
      rows := MarkSubmissionFailed(rows, id, failure, at);
    }

    /** `None` when the database refuses the numbers as SQL integers. */
    method Prepare(env: Envelope, attempt: int, at: Time) returns (status: Option<Status>)
      modifies this
      ensures status.None? <==> attempt > MAX_INTEGER || env.maxAttempts > MAX_INTEGER
      ensures status.None? ==> rows == old(rows)
      ensures status.Some? ==> rows == PrepareAttempt(old(rows), env, attempt, at)
      ensures status.Some? ==> env.id in rows && status.value == rows[env.id].status && OthersKept(old(rows), rows, env.id)
      ensures status.Some? && status.value in {Succeeded, Failed} ==> rows == old(rows)
      ensures status.Some? && status.value !in {Succeeded, Failed} ==>
                && status.value == Processing && rows[env.id].updatedAt == at && rows[env.id].lastError == ""
                && rows[env.id].currentAttempt == Min(attempt, rows[env.id].maxAttempts)
      ensures env.Valid() && attempt >= 1 ==> InOrder(old(rows), rows)
    {
      if attempt > MAX_INTEGER || env.maxAttempts > MAX_INTEGER {
        TableEvolvesReflexive(rows);
        return None;
      }
      if ConsistentTable(rows) && env.Valid() && attempt >= 1 { PrepareKeeps(rows, env, attempt, at); }
      rows := PrepareAttempt(rows, env, attempt, at);
      status := Some(rows[env.id].status);
    }

    method SetRetrying(id: JobId, attempt: int, failure: string, at: Time) returns (ok: bool)
      modifies this
      ensures rows == MarkRetrying(old(rows), id, attempt, failure, at) && OthersKept(old(rows), rows, id)
      ensures ok <==> id in old(rows) && old(rows)[id].status !in {Succeeded, Failed}
      ensures !ok ==> rows == old(rows)
      ensures Started(old(rows), id) && attempt >= 1 ==> InOrder(old(rows), rows)
    {
      if ConsistentTable(rows) && Started(rows, id) && attempt >= 1 { RetryingKeeps(rows, id, attempt, failure, at); }
      ok := Open(rows, id);
      rows := MarkRetrying(rows, id, attempt, failure, at);
    }

    method SetSucceeded(id: JobId, attempt: int, result: ExecutionResult, at: Time) returns (ok: bool)
      modifies this
      ensures rows == MarkSucceeded(old(rows), id, attempt, result, at) && OthersKept(old(rows), rows, id)
      ensures ok <==> id in old(rows) && old(rows)[id].status !in {Succeeded, Failed}
      ensures !ok ==> rows == old(rows)
      ensures Started(old(rows), id) && attempt >= 1 ==> InOrder(old(rows), rows)
    {
      if ConsistentTable(rows) && Started(rows, id) && attempt >= 1 { SucceededKeeps(rows, id, attempt, result, at); }
      ok := Open(rows, id);
      rows := MarkSucceeded(rows, id, attempt, result, at);
    }

    method SetFailed(id: JobId, attempt: int, failure: string, at: Time) returns (ok: bool)
      modifies this
      ensures rows == MarkFailed(old(rows), id, attempt, failure, at) && OthersKept(old(rows), rows, id)
      ensures ok <==> id in old(rows) && old(rows)[id].status != Succeeded
      ensures !ok ==> rows == old(rows)
      ensures Started(old(rows), id) && attempt >= 1 ==> InOrder(old(rows), rows)
    {
      if ConsistentTable(rows) && Started(rows, id) && attempt >= 1 { FailedKeeps(rows, id, attempt, failure, at); }
      ok := Failable(rows, id);
      rows := MarkFailed(rows, id, attempt, failure, at);
    }
  }
}
