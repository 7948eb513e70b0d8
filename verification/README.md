# EdgeGuard: protocols and data paths, in Dafny

EdgeGuard is an API gateway with a background-job service, an access-log
analytics pipeline and an authentication service. This project models the
places where several actors share one piece of state, or where text must mean
something, and proves what holds there for every input and every run.
`dafny verify dfyconfig.toml` checks it.

## What is modelled

**Background jobs** (`JobStore`, `JobBroker`, `JobProtocol`, `JobInvariants`,
`JobTheorems`, `JobCalls`, `JobWorker`, `JobSubmit`). The job table with its guarded SQL
statements, the broker's queue, any number of submitters and workers. They are
one state machine: a run is any sequence of enabled steps, so crashes between any
two steps (between the call of the processor and its return, too), redelivery,
ambiguous publishes and overlapping stale workers are all runs. `Repository`, `HandleDelivery`, `WorkUntilSettled` and `Submit` are the code
in imperative form. They are tied to the state machine: what they do to the
table is what a run of the protocol does.

**Access statistics** (`AccessStats`, `Ingestion`, `AccessLog`, `StatsQuery`). Raw
events, hourly rows as a commutative monoid, the storing transaction, the retry
loop, the partitioned log with committed offsets, and the queries over the hourly
table.

**Rate limiting and the gateway pipeline** (`RateLimit`, `Gateway`). Window
arithmetic in nanoseconds and milliseconds, counters that expire, the reported
headers; then resolve, authorize, limit and forward, with a limiter whose failures
let requests through. A run of the gateway is mapped to a run of the limiter.

**Refresh tokens** (`RefreshTokens`, `TokenProtocol`, `TokenCleanup`). Rotation,
revocation and batch cleanup on one table, as single calls and interleaved.

**Routes and API keys** (`Routing`, `Encoding`, `ApiKey`). Snapshot conversion,
segment matching, longest match, prefix stripping and joining; hexadecimal and
base64url text (sections 8 and 5 of RFC 4648) and the key printer and parser.

`Text` holds the string operations taken from Go's `strings` package.

## Where a natural expectation fails

Each of these is stated with an input on which it fails and with the condition
under which it holds.

- The processor is called for a job at most MaxAttempts times plus once per
  interrupted delivery: holds for every job about which only submitters publish,
  since such a job never has more than one message
  (`JobCalls.JobCallsWithinMaxAttempts`). If someone else publishes a second message
  about it, two workers can both call the processor (`JobCalls.TwoMessagesTwoCalls`);
  then the limits of the messages add up (`JobCalls.JobCallBound`).
- At most twice the limit per window length: fails when the window is two or
  more nanoseconds longer than whole milliseconds, because the limiter cuts the
  rest off (`RateLimit.TwiceTheLimitIff`, `RateLimit.ThreeBursts`). Every limit the
  control plane can store is whole seconds and is safe
  (`Gateway.StoredLimitsAreWhole`).
- Waiting exactly the `Retry-After` seconds of section 10.2.3 of RFC 9110: falls
  short exactly if the window's first call came with a fraction of a millisecond and
  this one is a positive whole number of seconds before the window's last millisecond
  (`RateLimit.WaitingIsEnoughIff`, `RateLimit.WaitingFallsShort`). One millisecond
  more is always enough.
- A report and a summary of the same interval cover the same hours: fails when the
  interval ends less than a microsecond past a whole hour
  (`StatsQuery.ReportMatchesSummaryIff`, `StatsQuery.ReportMissesABucket`).
- Delivery order does not matter for the tables: true exactly when event ids
  determine the stored rows, in all columns taken from the event
  (`Ingestion.OrderIrrelevantIff`, `Ingestion.OrderMatters`).
- Cleanup cannot be noticed by a later Refresh: true exactly when the job's time is
  at most one tick past the clock; a job may name a later time
  (`RefreshTokens.CleanupIsInvisibleIff`, `RefreshTokens.FutureCleanupIsSeen`). Logout
  does notice (`RefreshTokens.LogoutSeesCleanup`).
- Prefix plus upstream path is the original path: fails for a path equal to the
  prefix, and for a path without leading slash under the root prefix
  (`Routing.StrippingIsReversible`, `Routing.RootAddsASlash`; the second is about
  the function alone, since the router hands it no such path).
- Normalizing a path prefix twice is normalizing it once: fails when trimming
  slashes uncovers white space (`Routing.NormalizeTwiceIff`,
  `Routing.NormalizeUncoversASpace`).
- A route the control plane creates is one the gateway takes: fails for a prefix of
  two or more slashes and for an upstream that is not http or https
  (`Routing.CreatedConvertsIff`, `Routing.DoubleSlashIsRefused`); the gateway then
  refuses the whole snapshot (`Routing.ResponseToDomain`).
- A text the key parser accepts is one the generator can print: fails for white
  space around it, capital hexadecimal digits, line breaks inside the secret and
  spare bits in its last character (`ApiKey.AcceptedIsPrintedIff`,
  `ApiKey.PaddedKeyIsAccepted`, `ApiKey.BrokenKeyIsAccepted`).
- The upstream gets the forwarding headers the gateway sets: fails when the
  request's Connection header lists them (`Gateway.ForwardingHeadersIff`).
- The attempt number is the header plus one: fails for the largest 64-bit header
  (`JobTheorems.AttemptFollowsHeader`).

## Assumptions

- Clock readings of one component do not decrease where a lemma says "run";
  limiter readings are at or after the Unix epoch, and the script runs in the
  millisecond of the reading. A key is live up to and including its expiry
  millisecond.
- Ids and hashes drawn at random are new. SHA-256 is a parameter: counter keys
  treat it as injective, and `ApiKey.OnlyStoredKeysAuthenticate` names the
  collision it excludes.
- `prepareAttemptQuery` is atomic.
- The limit kept for a route key does not change during a run of the limiter;
  everything else in a route snapshot may.
- Header names are in canonical form, as Go's server makes them.
- PostgreSQL text holds no NUL, so projects and names of routes hold none.

## Model

| member | source | states |
|---|---|---|
| JobStore.CreateKeeps | internal/jobs/infrastructure/postgres/jobs.go:14-45 | inserting a job leaves every existing row as it is allowed to evolve, and every row consistent |
| JobStore.SubmitterKeeps | internal/jobs/infrastructure/postgres/jobs.go:47-78 | late writes of a submitter never take back what a worker wrote: rows only evolve and stay consistent |
| JobStore.PrepareKeeps | internal/jobs/infrastructure/postgres/jobs.go:133-185 | preparing an attempt keeps finished rows, first start time and 0 <= attempt <= max |
| JobStore.RetryingKeeps | internal/jobs/infrastructure/postgres/jobs.go:187-210 | recording a retry of a started job evolves its row only |
| JobStore.SucceededKeeps | internal/jobs/infrastructure/postgres/jobs.go:212-247 | recording success of a started job, even late, evolves its row only; a final row is kept |
| JobStore.FailedKeeps | internal/jobs/infrastructure/postgres/jobs.go:249-273 | recording failure of a started job evolves its row only; a succeeded row is kept |
| JobStore.Repository.Create | internal/jobs/infrastructure/postgres/jobs.go:31-45 | the insert in place: refusal of a used id; a valid job leaves an orderly table in which rows only evolved |
| JobStore.Repository.SetQueued | internal/jobs/infrastructure/postgres/jobs.go:47-60 | the guarded update in place; the table stays orderly and rows only evolve |
| JobStore.Repository.SetSubmissionFailed | internal/jobs/infrastructure/postgres/jobs.go:62-78 | the guarded update in place; the table stays orderly and rows only evolve |
| JobStore.Repository.Prepare | internal/jobs/infrastructure/postgres/jobs.go:133-185 | insert or guarded update, the status read back, refusal of numbers that are no SQL integer; the table stays orderly and rows only evolve |
| JobStore.Repository.SetRetrying | internal/jobs/infrastructure/postgres/jobs.go:187-210 | the guarded update in place and whether it found an open row; for a started job the table stays orderly |
| JobStore.Repository.SetSucceeded | internal/jobs/infrastructure/postgres/jobs.go:212-247 | the guarded update in place and whether it found an open row; for a started job the table stays orderly |
| JobStore.Repository.SetFailed | internal/jobs/infrastructure/postgres/jobs.go:249-273 | the guarded update in place and whether it found a row that has not succeeded; for a started job the table stays orderly |
| JobBroker.MovedConserves | internal/jobworker/infrastructure/rabbitmq/consumer.go:167-269 | every kind of broker traffic keeps each stored message in one place |
| JobInvariants.StepKeepsInv | internal/jobworker/infrastructure/rabbitmq/consumer.go:167-269 | every step of every actor keeps the joint invariant of table, broker, submitters and workers |
| JobInvariants.ReachableInv | internal/jobworker/infrastructure/rabbitmq/consumer.go:167-269 | the invariant holds in every reachable state |
| JobTheorems.EveryMessageInOnePlace | internal/jobworker/infrastructure/rabbitmq/consumer.go:186-268 | in every reachable state a stored message is in exactly one of queue, unacked, acked, dead-lettered; acked means succeeded, dead-lettered and valid means failed |
| JobTheorems.CallBound | internal/jobworker/infrastructure/rabbitmq/consumer.go:210-268 | over every run the processor is called for a valid message, returned or cut off, at most MaxAttempts times plus once per interrupted delivery, and requeues stay below MaxAttempts |
| JobCalls.JobCallBound | internal/jobworker/infrastructure/rabbitmq/consumer.go:210-268 | over every run the calls for a job are at most what its stored messages allow together, plus its interrupted deliveries |
| JobCalls.OneMessagePerJob | internal/jobs/usecase/submit.go:79-101 | a job about which only submitters publish has at most one message sent, lost or not, and at most one stored |
| JobCalls.JobCallsWithinMaxAttempts | internal/jobworker/infrastructure/rabbitmq/consumer.go:210-268 | so the processor is called for it at most MaxAttempts times, as its row has them, plus once per interrupted delivery, and never for a job without a row |
| JobCalls.TwoMessagesTwoCalls | internal/jobworker/infrastructure/rabbitmq/consumer.go:186-210 | for every job with one attempt, a run with two messages from elsewhere that calls the processor twice without interruption |
| JobTheorems.RequeueUsesAnAttempt | internal/jobworker/infrastructure/rabbitmq/consumer.go:238-268 | each requeue strictly lowers the attempts left and happens only while some are left |
| JobTheorems.DeliveryBalance | internal/jobworker/infrastructure/rabbitmq/consumer.go:89-123 | deliveries = requeues + interruptions + the one that is out or settled |
| JobTheorems.AttemptFollowsHeader | internal/jobworker/infrastructure/rabbitmq/consumer.go:325-363 | the attempt number is the header's count plus one, for every header type, if and only if the 64-bit sum does not wrap |
| JobTheorems.RowsOnlyEvolve | internal/jobs/infrastructure/postgres/jobs.go:47-71 | between any two moments of a run: succeeded rows frozen, failed rows stay failed, no submitter status after a worker started, first time stamps kept, rows consistent |
| JobTheorems.NoNewAttemptAfterTheEnd | internal/jobs/infrastructure/postgres/jobs.go:145-152 | once a job has ended, only a worker that had already prepared its attempt is still running it |
| JobTheorems.OutcomesWereProduced | internal/jobworker/infrastructure/rabbitmq/consumer.go:210-218 | every outcome a worker holds was returned by the processor at some step of the run |
| JobTheorems.SuccessWasEarned | internal/jobworker/infrastructure/rabbitmq/consumer.go:210-253 | a succeeded row carries the result of some successful call of the processor for that job |
| JobTheorems.FailureWasEarned | internal/jobworker/infrastructure/rabbitmq/consumer.go:219-253 | a failed row goes back to an error that was permanent or on the last attempt |
| JobTheorems.FinalErrorsEndTheJob | internal/jobworker/infrastructure/rabbitmq/consumer.go:238-268 | over every run a message is requeued only after an error that is not permanent, before the last attempt; once any other error is answered the row is failed |
| JobTheorems.ReceiptMeansStored | internal/jobs/usecase/submit.go:79-101 | a receipt means the row was inserted at one step, the broker stored the message at a later one, and the message is still accounted for |
| JobWorker.HandledGuarantees | internal/jobworker/infrastructure/rabbitmq/consumer.go:167-269 | what one delivery guarantees: malformed messages are rejected untouched, only the job's row changes, the processor runs exactly if the job is open and its numbers fit; then reply and row say what it returned, in which attempt and when, and a permanent error or one on the last attempt ends the job |
| JobWorker.HandleDelivery | internal/jobworker/infrastructure/rabbitmq/consumer.go:167-269 | the handler in place computes the specified table, reply and call |
| JobWorker.DeliveryIsARun | internal/jobworker/infrastructure/rabbitmq/consumer.go:167-269 | an undisturbed delivery is a run of the protocol with the same table, ending where its reply says |
| JobWorker.WorkUntilSettled | internal/jobworker/infrastructure/rabbitmq/consumer.go:89-123 | without interruptions the loop ends for any results of the processor, with message and row agreeing, after no more calls than attempts left |
| JobSubmit.NormalizeMaxAttempts | internal/jobs/domain/job.go:95-103 | zero becomes the default, values outside 1..max are refused, others are kept |
| JobSubmit.NewEnvelope | internal/platform/jobs/envelope.go:39-86 | which inputs are accepted, and what the envelope contains |
| JobSubmit.PublishRun | internal/jobs/infrastructure/rabbitmq/publisher.go:72-162 | every answer of the publisher is reached by a run in which the message is stored or not, as an error leaves open |
| JobSubmit.Submit | internal/jobs/usecase/submit.go:62-102 | exactly which input gets a receipt and which error; row and message are of the job asked for, with its attempts; every effect on table and broker is a run of the protocol |
| AccessStats.ClassesSumToRequests | internal/analytics/infrastructure/postgres/gateway_access.go:210-227 | over any set of valid events the five status classes add up to the number of events |
| AccessStats.EventKeyIsRawKey | internal/analytics/infrastructure/postgres/gateway_access.go:114-194 | the hour of the event is the hour of its stored row, although the database cuts to microseconds |
| AccessStats.AbsorbKeepsAggregate | internal/analytics/infrastructure/postgres/gateway_access.go:58-194 | storing any event, new or not, keeps the hourly table equal to the recomputation from distinct stored events |
| AccessStats.AggregateIsUnique | internal/analytics/infrastructure/postgres/gateway_access.go:58-112 | that recomputation determines the hourly table |
| AccessStats.HourlyRowsDescribe | internal/analytics/infrastructure/postgres/gateway_access.go:58-112 | an hourly row exists exactly for a group with events, and each of its numbers is the one its name says, counted, summed or maximized over the group's events |
| Ingestion.FirstWins | internal/analytics/infrastructure/postgres/gateway_access.go:152-154 | of several events with one id the first is stored, for every list |
| Ingestion.SameEventsSameTables | internal/analytics/infrastructure/postgres/gateway_access.go:114-194 | if ids determine rows, order and repetition do not matter |
| Ingestion.OrderIrrelevantIff | internal/analytics/infrastructure/postgres/gateway_access.go:152-154 | the tables do not depend on delivery order if and only if ids determine the stored rows in every column |
| Ingestion.OrderMatters | internal/analytics/infrastructure/postgres/gateway_access.go:131-154 | two valid events with one id and different paths whose order shows in the tables |
| Ingestion.Store.StoreGatewayAccess | internal/analytics/infrastructure/postgres/gateway_access.go:114-194 | all or nothing under failed and silently committed transactions; what the answer says about the tables |
| Ingestion.DelayDoubles | internal/analytics/infrastructure/kafka/consumer.go:341-350 | the next delay is min(min * 2^(k+1), max), without leaving 64 bits |
| Ingestion.ProcessWithRetry | internal/analytics/infrastructure/kafka/consumer.go:256-309 | stored at most once whatever fails, success means stored; retried until stored, cancelled or out of attempts, and an attempt fails only if the database does or a sum overflows; the k-th wait is the k-th doubling delay |
| Ingestion.AbsorbTwice | internal/analytics/infrastructure/postgres/gateway_access.go:145-158 | replaying a stored event changes nothing and cannot overflow |
| AccessLog.HourlyTableIsExact | internal/analytics/infrastructure/postgres/gateway_access.go:58-194 | after every run of duplicates, failures, ambiguous commits, crashes and restarts there is an hourly row exactly for each group of stored events, each number in it is taken over those events, and its classes add up |
| AccessLog.CommitCoversTheRecord | internal/analytics/infrastructure/kafka/consumer.go:311-327 | an applied commit covers the record just handled and no other partition, and the session goes on with the next record |
| AccessLog.CommittedMeansStored | internal/analytics/infrastructure/kafka/consumer.go:139-254 | every record below a committed offset is invalid or in the raw table |
| AccessLog.RawTableIsComplete | internal/analytics/infrastructure/kafka/consumer.go:139-254 | the raw table holds published events only, and all of them once every partition is committed to its end |
| AccessLog.RowsRecordEvents | internal/analytics/infrastructure/postgres/gateway_access.go:131-151 | over every run each stored row keeps, column by column, what a published usable event with its id says |
| AccessLog.SameLogSameTables | internal/analytics/infrastructure/kafka/consumer.go:139-254 | two runs whose logs hold the same usable events, in any order, partition and number, end with the same tables once drained, if ids determine rows |
| AccessLog.ReplaysAreHarmless | internal/analytics/infrastructure/postgres/gateway_access.go:152-154 | once all records are stored, no run of rereads, retries, crashes and restarts changes either table |
| AccessLog.RawRowsStay | internal/analytics/infrastructure/postgres/gateway_access.go:15-56 | a stored row never changes or disappears |
| AccessLog.ReachableInv | internal/analytics/infrastructure/kafka/consumer.go:139-327 | the invariant of log, sessions, offsets and tables holds in every reachable state |
| AccessLog.Consume | internal/analytics/infrastructure/kafka/consumer.go:139-327 | one partition's loop: committed records are exactly those absorbed, except that the last one may be stored and not committed; with a working database and broker it stops early only at an overflow |
| StatsQuery.NormalizeFilter | internal/analytics/usecase/query_stats.go:62-109 | an accepted interval becomes the smallest whole-hour interval around it; which filters are refused |
| Text.CaseFolds | internal/analytics/infrastructure/postgres/gateway_access.go:137-141 | folding case leaves no letter of the other case, keeps every other character and undoes a change of case |
| StatsQuery.SummaryIsExact | internal/analytics/infrastructure/postgres/stats.go:11-32 | for every accepted filter the summary is about exactly the stored events asked about: their counts by class, sums, maximum, and their total duration divided by their number |
| StatsQuery.StoredTimeSelectsTheSame | internal/analytics/usecase/query_stats.go:102-109 | selecting by event time or by stored time is the same on whole hours |
| StatsQuery.ReportMatchesSummaryIff | internal/jobworker/infrastructure/report/generator.go:156-161 | a report covers the summary's hours if and only if the interval does not end less than a microsecond past an hour |
| StatsQuery.ReportMissesABucket | internal/jobworker/infrastructure/report/generator.go:156-161 | one interval on which it does not |
| RateLimit.Limiter.Allow | internal/gateway/infrastructure/ratelimit/redis_limiter.go:115-172 | counter update and verdict; which refusal for which call; or an error with the counter untouched or, if the reply was lost, updated |
| RateLimit.ExpiryNearWindowEnd | internal/gateway/infrastructure/ratelimit/redis_limiter.go:126-142 | truncation and the clamp leave the expiry at the window's end or one millisecond before |
| RateLimit.CountersAreExact | internal/gateway/infrastructure/ratelimit/redis_limiter.go:18-25 | over every run with evictions a counter equals the calls so far of its route, client and window; a lost one is not needed again |
| RateLimit.CountIsExact | internal/gateway/infrastructure/ratelimit/redis_limiter.go:18-25 | the number judged is the number of calls of the window, this one included |
| RateLimit.AllowedPerWindow | internal/gateway/infrastructure/ratelimit/redis_limiter.go:115-172 | the allowed calls of a window are min(calls, limit) |
| RateLimit.VerdictIsExact | internal/gateway/infrastructure/ratelimit/redis_limiter.go:156-171 | over every run a call passes exactly while the window's calls are within the limit, and what it is told remains is the rest |
| RateLimit.IntervalBound | internal/gateway/infrastructure/ratelimit/redis_limiter.go:126-172 | at most twice the limit in any half-open interval of the window's length, for windows of nearly whole milliseconds |
| RateLimit.ThreeBursts | internal/gateway/infrastructure/ratelimit/redis_limiter.go:126-172 | for every other window a run that gets three times the limit through |
| RateLimit.TwiceTheLimitIff | internal/gateway/infrastructure/ratelimit/redis_limiter.go:126-172 | the bound of twice the limit holds over all runs if and only if less than two nanoseconds are cut off |
| RateLimit.VerdictIsTimely | internal/gateway/infrastructure/ratelimit/redis_limiter.go:152-170 | reset within a millisecond of the window's end, wait between a millisecond and the window, header seconds plus a millisecond reach a later window |
| RateLimit.ReportsAreTimely | internal/gateway/delivery/http/v1/handlers.go:123-136 | the same for every verdict of every run |
| RateLimit.WaitingIsEnoughIff | internal/gateway/delivery/http/v1/handlers.go:128-135 | over every run the header seconds alone are enough, unless the first call of the window had a fraction of a millisecond and this one is a positive whole number of seconds before the window's last millisecond; both directions |
| RateLimit.WaitingFallsShort | internal/gateway/delivery/http/v1/handlers.go:128-135 | a run in which they are not |
| Gateway.Handler.ProxyRequest | internal/gateway/delivery/http/v1/handlers.go:29-95 | the whole pipeline in place: response and counters for every route, authorization answer and limiter fault |
| Gateway.ForwardedAsPromised | internal/gateway/delivery/http/v1/handlers.go:89-95 | a forwarded request goes to the matching route with the most segments, with that route's prefix taken off the path if it says so, and with every header but the key's |
| Gateway.KeyNeverLeaves | internal/gateway/infrastructure/proxy/httputil_proxy.go:30-53 | whatever the request, the route and the limiter: after the director and the removal of connection headers the upstream gets no key header |
| Gateway.ForwardingHeadersIff | internal/gateway/infrastructure/proxy/httputil_proxy.go:33-47 | the upstream gets host and scheme from the gateway and never from the client, if and only if the request does not list those headers as connection headers |
| Gateway.ForwardedWasAuthorized | internal/gateway/usecase/authorize_route.go:11-42 | a request passes a protected route only on the answer of the authorization service, for the same project |
| Gateway.StatusTells | internal/gateway/delivery/http/v1/handlers.go:29-95 | for each refusal status, exactly which requests get it (500: the authorization service failed, or the route's limit is one the limiter does not accept) |
| Gateway.ClientsDoNotShare | internal/gateway/delivery/http/v1/handlers.go:97-121 | different keys never share a counter of a protected route, nor do a key and an address |
| Gateway.HostsDecide | internal/gateway/delivery/http/v1/handlers.go:97-121 | callers of an open route share its counter exactly if they have the same host, whatever their ports |
| Gateway.WholeAddresses | internal/gateway/delivery/http/v1/handlers.go:109-121 | an address without a host counts as a whole, a missing one as unknown |
| Gateway.ForwardedMeansAuthenticated | internal/gateway/usecase/authorize_route.go:11-42 | a request passes a protected route only if its key, trimmed, is the value of a stored, active key of the route's project |
| Gateway.KeysDecide | internal/gateway/usecase/authorize_route.go:11-42 | the value of a stored, active key of the route's project lets a request in, counted under that key; any other text gets 401 |
| Gateway.RouteKeyIsFaithful | internal/gateway/usecase/rate_limit.go:35-39 | equal route keys mean equal project, name and prefix |
| Gateway.TableAgrees | internal/gateway/usecase/rate_limit.go:35-39 | every accepted snapshot gives each route key one limit |
| Gateway.StoredLimitsAreWhole | internal/gateway/infrastructure/controlplane/dto.go:93-115 | every storable limit is accepted by the limiter and loses nothing to rounding |
| Gateway.SeenIsARun | internal/gateway/usecase/rate_limit.go:10-40 | every run of the gateway is a run of the limiter with the same counters |
| Gateway.ForwardedPerWindow | internal/gateway/delivery/http/v1/handlers.go:67-92 | over every run with limiter failures: forwarded requests of a window lie between min(requests, limit) and limit + failures, and are min(requests, limit) without failures |
| Gateway.RefusedLeaveNoTrace | internal/gateway/delivery/http/v1/handlers.go:29-61 | dropping all requests refused by routing or authorization from a run leaves a run with the same counters and the same forwarded requests |
| RefreshTokens.TokenRepository.GetByHash | internal/auth/infrastructure/postgres/refresh_tokens.go:42-77 | finds the token with the hash, or none |
| RefreshTokens.TokenRepository.RotateRefreshToken | internal/auth/infrastructure/postgres/refresh_tokens.go:79-126 | exactly if the token is unrevoked and unexpired, it is revoked and the replacement is in the table, in one transaction; nothing else changes |
| RefreshTokens.TokenRepository.RevokeByHash | internal/auth/infrastructure/postgres/refresh_tokens.go:128-157 | the token with the hash is revoked, at its first revocation time if it has one; nothing else changes; refusal exactly of unknown hashes |
| RefreshTokens.TokenRepository.Refresh | internal/auth/usecase/refresh.go:13-67 | hash, read, check, rotate: answer and table of an undisturbed call, blank texts and failing hashes refused |
| RefreshTokens.TokenRepository.CleanupExpiredTokens | internal/jobworker/infrastructure/postgres/cleanup.go:19-40 | deletes only tokens expired or revoked before the time, the oldest first, at most a batch, and all of them if there are fewer |
| RefreshTokens.PickBatch | internal/jobworker/infrastructure/postgres/cleanup.go:19-32 | picking the oldest one by one gives such a batch |
| RefreshTokens.RefreshOutcome | internal/auth/usecase/refresh.go:24-66 | Refresh succeeds exactly for an unrevoked, unexpired token of an enabled user; then that token is revoked, a token with what the answer grants is in the table and nothing else changes; otherwise nothing changes |
| RefreshTokens.GrantWorksOnce | internal/auth/infrastructure/postgres/refresh_tokens.go:79-126 | the granted token can be refreshed in its turn, in time and for an enabled user; the old one is refused |
| RefreshTokens.SessionGoesOn | internal/auth/usecase/refresh.go:24-66 | any number of refreshes in a row, each with what the one before granted, all succeed for the same user |
| RefreshTokens.RefreshCannotTell | internal/auth/usecase/refresh.go:24-36 | one Refresh answers alike on the cleaned and the uncleaned table, and keeps them in step |
| RefreshTokens.RunCannotTell | internal/auth/usecase/refresh.go:24-66 | along every later run of logins, refreshes and logouts Refresh answers alike |
| RefreshTokens.CleanupIsInvisible | internal/jobworker/infrastructure/postgres/cleanup.go:20-32 | any batch of a cleanup not later than the clock is invisible to every later Refresh |
| RefreshTokens.FutureCleanupIsSeen | internal/jobworker/infrastructure/postgres/cleanup.go:20-32 | a cleanup with a later time can delete a good token |
| RefreshTokens.CleanupIsInvisibleIff | internal/jobworker/infrastructure/postgres/cleanup.go:20-32 | cleanup is invisible on every table if and only if its time is at most one tick past the clock |
| RefreshTokens.LogoutSeesCleanup | internal/auth/usecase/logout.go:13-30 | Logout answers differently after a cleanup exactly for the deleted tokens |
| TokenProtocol.ReachableInv | internal/auth/infrastructure/postgres/refresh_tokens.go:79-133 | the invariant of tokens, families and calls in flight holds in every interleaving |
| TokenProtocol.AtMostOneOpenToken | internal/auth/infrastructure/postgres/refresh_tokens.go:79-133 | in every interleaving a login has at most one unrevoked token |
| TokenProtocol.TokensKept | internal/auth/infrastructure/postgres/refresh_tokens.go:79-133 | a revocation time never changes, a token is replaced at most once, deleted tokens stay away |
| TokenProtocol.DeadFamiliesStayDead | internal/auth/usecase/refresh.go:24-66 | once a login's last token is revoked or gone, no Refresh in flight brings the login back |
| TokenProtocol.LogoutEndsTheLogin | internal/auth/usecase/logout.go:13-30 | logging out with the open token ends the login |
| TokenProtocol.LoginStartsAFamily | internal/auth/usecase/login.go:14-53 | in any state a login adds one open token of a new family and touches no other |
| TokenProtocol.CheckDecides | internal/auth/usecase/refresh.go:33-51 | a call passes its check exactly if the token it read was unrevoked and unexpired and the user is enabled |
| TokenProtocol.RotationHandsOver | internal/auth/infrastructure/postgres/refresh_tokens.go:79-126 | in every interleaving a rotation that commits on an open token leaves the new one open, of the same family and user, and the old one revoked; any other changes no token |
| TokenProtocol.RefreshIsARun | internal/auth/usecase/refresh.go:13-67 | an undisturbed Refresh is a run with the specified table and replacement |
| TokenCleanup.CleanupCanBeErased | internal/jobworker/infrastructure/postgres/cleanup.go:20-32 | erasing every cleanup not past the clock from an interleaved run leaves a run in which every call has come equally far, the same tokens were issued and replaced, and the tables differ in useless tokens only |
| TokenCleanup.LaterRefreshIsKept | internal/auth/usecase/refresh.go:24-66 | in it every step of a Refresh that starts after the last cleanup is the same |
| Routing.SplitPrefix | internal/gateway/domain/route.go:19-27 | for all strings, equal or followed by a slash means segment list is a prefix of segment list |
| Routing.MatchesIsSegmentPrefix | internal/gateway/domain/route.go:19-27 | matching is matching of whole segments, and the root matches everything |
| Routing.NormalizedIsNormal | internal/gateway/infrastructure/controlplane/dto.go:117-124 | a normalized prefix is the root or has no trailing slash, exactly if it starts with a slash |
| Routing.NormalizeTwiceIff | internal/gateway/infrastructure/controlplane/dto.go:117-124 | normalizing is idempotent if and only if the text without outer white space and then without trailing slashes does not end in white space |
| Routing.NormalizeUncoversASpace | internal/gateway/infrastructure/controlplane/dto.go:117-124 | a prefix on which it is not |
| Routing.ToDomain | internal/gateway/infrastructure/controlplane/dto.go:46-115 | an accepted route has a normal prefix, a project, a name and an absolute upstream |
| Routing.CreatedConvertsIff | internal/controlplane/domain/route.go:34-61 | a route as the control plane creates it is taken by the gateway if and only if its upstream is an http or https URL and its prefix is not two or more slashes; what is carried over, the timeout's unit included |
| Routing.DoubleSlashIsRefused | internal/gateway/infrastructure/controlplane/dto.go:57-60 | such a prefix |
| Routing.ResponseToDomain | internal/gateway/infrastructure/controlplane/dto.go:25-44 | the loop accepts exactly the responses that convert to distinct prefixes, and otherwise names the first bad one |
| Routing.ResolveRoute | internal/gateway/usecase/resolve_route.go:9-30 | the loop computes the specified choice |
| Routing.ResolvedIsLongest | internal/gateway/usecase/resolve_route.go:15-29 | for every list the choice is a matching route with a longest prefix, or nothing matches |
| Routing.ResolvedIsFirst | internal/gateway/usecase/resolve_route.go:15-29 | of several longest matches the first in the list is chosen |
| Routing.ResolvedIsBest | internal/gateway/usecase/resolve_route.go:15-29 | on accepted snapshots it is the only matching route with the most segments; none exactly if nothing matches |
| Routing.ResolutionIgnoresOrder | internal/gateway/usecase/resolve_route.go:15-29 | on accepted snapshots any permutation gives the same route |
| Routing.StrippingIsReversible | internal/gateway/domain/route.go:29-46 | the upstream path starts with a slash, and prefix plus upstream path is the path if and only if the path goes on with a slash |
| Routing.RootAddsASlash | internal/gateway/domain/route.go:29-46 | the root prefix adds a slash to the path `*` |
| Routing.JoinMeetsInOneSlash | internal/gateway/infrastructure/proxy/httputil_proxy.go:56-76 | joined paths meet in exactly one slash |
| Routing.JoinIsAssociative | internal/gateway/infrastructure/proxy/httputil_proxy.go:56-76 | joining is associative with the empty path as identity |
| Routing.StripThenJoin | internal/gateway/domain/route.go:29-46 | stripping a prefix and joining it back is the path, up to the added slash |
| Routing.ForwardedPathIsReversible | internal/gateway/infrastructure/proxy/httputil_proxy.go:40-41 | for every path of the upstream URL: the forwarded path with the prefix put back behind that path is the whole request path there |
| Routing.ForwardedPathIsBasePlusRest | internal/gateway/infrastructure/proxy/httputil_proxy.go:40-41 | the forwarded path is the upstream's path, one slash and the rest of the request path |
| Encoding.HexRoundTrip | internal/auth/infrastructure/security/api_key_service.go:43-43 | decoding undoes encoding, for all bytes |
| Encoding.HexSpelling | internal/auth/infrastructure/security/api_key_service.go:43-43 | each byte is two digits of the alphabet, the high half first |
| Encoding.HexCanonicalIff | internal/auth/infrastructure/security/api_key_service.go:61-65 | encoding undoes decoding if and only if there is no capital digit |
| Encoding.Base64RoundTrip | internal/auth/infrastructure/security/api_key_service.go:44-44 | decoding undoes encoding, for all bytes |
| Encoding.AlphabetIsBase64Url | internal/auth/infrastructure/security/api_key_service.go:44-44 | the characters are those of section 5 of RFC 4648, in its order |
| Encoding.GroupSpelling | internal/auth/infrastructure/security/api_key_service.go:44-44 | the sextets of a group spell the number its bytes spell, the first digits first, short groups filled up with zero bits |
| Encoding.Base64CanonicalIff | internal/auth/infrastructure/security/api_key_service.go:67-70 | encoding undoes decoding if and only if there is no line break and no spare bit |
| ApiKey.GenerateAPIKey | internal/auth/infrastructure/security/api_key_service.go:32-52 | the key made of the first 8 and the next 32 random bytes, or an error if the reader ends early |
| ApiKey.ParseGenerated | internal/auth/infrastructure/security/api_key_service.go:32-76 | every printed key has the documented form and is read back with its prefix and hash, for all random bytes |
| ApiKey.ParseAcceptsIff | internal/auth/infrastructure/security/api_key_service.go:54-76 | exactly which texts are accepted |
| ApiKey.GoodPartsIff | internal/auth/infrastructure/security/api_key_service.go:61-70 | the parts are accepted exactly by lengths and characters: 16 hexadecimal digits of either case, 43 base64url characters besides line breaks, any spare bits |
| ApiKey.GeneratedDiffer | internal/auth/infrastructure/security/api_key_service.go:32-52 | different random bytes print different keys |
| ApiKey.AcceptedIsPrintedIff | internal/auth/infrastructure/security/api_key_service.go:54-76 | an accepted text can be printed if and only if it has no outer white space and its parts are spelled strictly |
| ApiKey.PaddedKeyIsAccepted | internal/auth/infrastructure/security/api_key_service.go:54-55 | white space in front of any printed key is accepted, and never printed |
| ApiKey.BrokenKeyIsAccepted | internal/auth/infrastructure/security/api_key_service.go:67-70 | a line break anywhere in the secret keeps a key accepted, and no such key is printed |
| ApiKey.MatchIsDigestEquality | internal/auth/infrastructure/security/api_key_service.go:78-90 | comparing printed hashes is comparing digests |
| ApiKey.StoredKeyAuthenticates | internal/auth/usecase/api_keys.go:140-179 | the value of a stored key, trimmed, is accepted as that key exactly while it is active and enabled |
| ApiKey.OnlyStoredKeysAuthenticate | internal/auth/usecase/api_keys.go:140-179 | no other text is accepted, barring a collision of the digest |

## Left out

- Client libraries of RabbitMQ, Kafka, Redis and PostgreSQL, and the topology and policies installed in them: only their steps and answers appear.
- Database failures of the job statements other than a refused integer and a missing row: the worker's paths on them end like an interruption.
- The statement snapshot inside `prepareAttemptQuery`, which a concurrent writer could make visible.
- Retention of the Kafka log and rebalancing callbacks; eviction from Redis for lack of memory.
- JSON, URL and address parsing: predicates or parameters.
- Gateway.Handler.ProxyRequest: leaves out response headers other than those of `RateLimit.Judge`, the access event, the joining with the upstream URL's own path (see `Routing.ForwardedPathIsBasePlusRest`) and what the upstream answers; a missing limiter or validator is not a case.
- Gateway.KeyNeverLeaves: parsing the Connection header and the values of the reverse proxy's own headers are parameters; headers that tracing adds are not modelled.
- Gateway.ForwardedPerWindow: takes requests in the order in which they reach the counter store, and one limit per route key over the run.
- RefreshTokens.CleanupIsInvisibleIff: clock, expiry and revocation times have one resolution; the database's microseconds are not modelled there.
- Ingestion.FirstWins: the column with the time of ingestion, which the database fills in, is not modelled.
- JobCalls.JobCallsWithinMaxAttempts: says nothing about messages that other programs publish about the job; `JobCalls.JobCallBound` covers those.
- RefreshTokens.PickBatch: picks among equally old tokens freely; choosing and deleting the batch are one step.
- Ingestion.OrderIrrelevantIff: sums do not overflow; `Ingestion.Store.StoreGatewayAccess` models the overflow of a 64-bit sum as a failed transaction.
- StatsQuery.SummaryIsExact: the per-route list with its order and limit is not modelled.
- Text.ToUpper: folds case on ASCII letters only, as `Text.ToLower` does; lengths are in code points where Go counts bytes, which changes no comparison made here.
- JobSubmit.Submit: the payload is not modelled beyond being JSON; failures of the id generator and of encoding the payload are not cases.
- ApiKey.StoredKeyAuthenticates: creation, listing and revocation of keys are not modelled, only the validation path.
- JWT signing, bcrypt and SHA-256 themselves; user, project, service and route administration; the demo backend: thin record passing.
- Webhook delivery, report files, metrics, tracing, logging, readiness and configuration: input and output, or easy members.
- The polling client that fetches route snapshots, and routes loaded from YAML, which are not converted by `Routing.ResponseToDomain`.
