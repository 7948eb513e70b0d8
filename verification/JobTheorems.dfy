/** What holds over every run of the job protocol. */
module JobTheorems {
  import opened Text
  import opened JobStore
  import opened JobBroker
  import opened JobProtocol
  import opened JobInvariants

  // ------------------------------------------------------- delivery counting

  /** The attempt number is one more than the header says, unless the header
      holds the largest 64-bit integer: then the sum wraps around. */
  lemma AttemptFollowsHeader(header: Option<HeaderValue>)
    requires HeaderInt64(header) <= MAX_INT64
    ensures DeliveryAttempt(header) == Max(HeaderInt64(header), 0) + 1 <==> HeaderInt64(header) != MAX_INT64
    ensures DeliveryAttempt(header) >= 1 <==> HeaderInt64(header) != MAX_INT64
    ensures HeaderInt64(header) == match header
                                   case Some(Signed(v)) => v
                                   case Some(Unsigned(v)) => if v <= MAX_INT64 then v else 0
                                   case _ => 0
  {}

  // --------------------------------------------------------- runs and prefixes

  lemma Extend(steps: seq<Step>, step: Step)
    requires Legal(steps) && Enabled(After(steps), step)
    ensures Legal(steps + [step]) && After(steps + [step]) == Apply(After(steps), step)
  {}

  lemma {:induction false} LegalPrefix(steps: seq<Step>, i: nat)
    requires Legal(steps) && i <= |steps|
    ensures Legal(steps[..i])
  {
    if i < |steps| {
      assert steps[..i] == Init(steps)[..i];
      LegalPrefix(Init(steps), i);
    } else {
      assert steps[..i] == steps;
    }
  }

  /** Between any two moments of a run, rows stay and only evolve: a succeeded
      row is frozen, a failed one stays failed, a job once started never shows
      a submitter's status again, and first time stamps are kept.  At every
      moment each row is consistent. */
  lemma {:induction false} RowsOnlyEvolve(steps: seq<Step>, i: nat)
    requires Legal(steps) && i <= |steps|
    ensures Legal(steps[..i])
    ensures TableEvolves(After(steps[..i]).rows, After(steps).rows)
    ensures ConsistentTable(After(steps).rows)
  {
    hide Apply;
    ReachableInv(steps);
    if i < |steps| {
      RowsOnlyEvolve(Init(steps), i);
      assert steps[..i] == Init(steps)[..i];
      ReachableInv(Init(steps));
      StepKeepsTable(After(Init(steps)), Last(steps));
      TableEvolvesTransitive(After(steps[..i]).rows, After(Init(steps)).rows, After(steps).rows);
    } else {
      assert steps[..i] == steps;
    }
  }

  /** Every message the broker has stored is in exactly one place; acknowledged
      ones have a succeeded row, dead-lettered valid ones a failed row. */
  lemma EveryMessageInOnePlace(steps: seq<Step>, msg: MsgId)
    requires Legal(steps)
    ensures var s := After(steps);
            && Copies(s.broker, msg) == (if msg in s.broker.bodies then 1 else 0)
            && (msg in s.broker.acked ==>
                  s.broker.ValidMsg(msg) && HasStatus(s.rows, s.broker.bodies[msg].env.id, Succeeded))
            && (msg in s.broker.dead && s.broker.ValidMsg(msg) ==>
                  HasStatus(s.rows, s.broker.bodies[msg].env.id, Failed))
  {
    ReachableInv(steps);
    assert SettledOk(After(steps).rows, After(steps).broker, msg);
  }

  // -------------------------------------------------- how often a job is run

  ghost function Deliveries(steps: seq<Step>, msg: MsgId): nat {
    if steps == [] then 0 else
    Deliveries(Init(steps), msg) + if Last(steps).DeliverStep? && Last(steps).msg == msg then 1 else 0
  }

  ghost function Interruptions(steps: seq<Step>, msg: MsgId): nat {
    if steps == [] then 0 else
    Interruptions(Init(steps), msg) + if Last(steps).InterruptStep? && Last(steps).msg == msg then 1 else 0
  }

  ghost function Requeues(steps: seq<Step>, msg: MsgId): nat
    requires Legal(steps)
  {
    if steps == [] then 0 else
    Requeues(Init(steps), msg) + if IsRequeue(After(Init(steps)), Last(steps), msg) then 1 else 0
  }

  /** Calls of `Process` made for the message, returned or not. */
  ghost function Calls(steps: seq<Step>, msg: MsgId): nat
    requires Legal(steps)
  {
    if steps == [] then 0 else
    Calls(Init(steps), msg) + if IsCall(After(Init(steps)), Last(steps), msg) then 1 else 0
  }

  predicate IsRequeue(s: System, step: Step, msg: MsgId)
    requires Enabled(s, step)
  {
    Answers(s, step, msg) && s.InPhase(step.tag, Requeueing)
  }

  predicate IsCall(s: System, step: Step, msg: MsgId)
    requires Enabled(s, step)
  {
    step.CallStep? && s.workers[step.tag].msg == msg
  }

  ghost function TagsOf(workers: Workers, msg: MsgId): set<Tag> {
    set tag | tag in workers && workers[tag].msg == msg
  }

  ghost function CalledTags(workers: Workers, msg: MsgId): set<Tag> {
    set tag | tag in workers && workers[tag].msg == msg && workers[tag].HasCalled()
  }

  lemma HasTagAfterStep(s: System, step: Step, msg: MsgId, tag: Tag)
    requires WorkersOk(s) && Enabled(s, step)
    ensures tag in TagsOf(Apply(s, step).workers, msg)
       <==> tag in TagsOf(s.workers, msg) || (step.DeliverStep? && step.msg == msg && step.tag == tag)
  {
    if tag in s.workers { StepSameRun(s, step, tag); }
    if Actor(step) != Some(tag) { OnlyActorMoves(s, step, tag); }
  }

  lemma StepTags(s: System, step: Step, msg: MsgId)
    requires WorkersOk(s) && Enabled(s, step)
    ensures TagsOf(Apply(s, step).workers, msg)
         == TagsOf(s.workers, msg) + if step.DeliverStep? && step.msg == msg then {step.tag} else {}
  {
    forall tag: Tag { HasTagAfterStep(s, step, msg, tag); }
  }

  lemma HasCalledAfterStep(s: System, step: Step, msg: MsgId, tag: Tag)
    requires WorkersOk(s) && Enabled(s, step)
    ensures tag in CalledTags(Apply(s, step).workers, msg)
       <==> tag in CalledTags(s.workers, msg) || (IsCall(s, step, msg) && step.tag == tag)
  {
    if tag in s.workers { StepSameRun(s, step, tag); }
    if Actor(step) != Some(tag) { OnlyActorMoves(s, step, tag); }
  }

  lemma StepCalledTags(s: System, step: Step, msg: MsgId)
    requires WorkersOk(s) && Enabled(s, step)
    ensures CalledTags(Apply(s, step).workers, msg)
         == CalledTags(s.workers, msg) + if IsCall(s, step, msg) then {step.tag} else {}
    ensures IsCall(s, step, msg) ==> step.tag !in CalledTags(s.workers, msg)
  {
    if step.CallStep? { assert WorkerOk(s.rows, s.broker.bodies, s.workers[step.tag]); }
    forall tag: Tag { HasCalledAfterStep(s, step, msg, tag); }
  }

  lemma {:induction false} TagsCountDeliveries(steps: seq<Step>, msg: MsgId)
    requires Legal(steps)
    ensures |TagsOf(After(steps).workers, msg)| == Deliveries(steps, msg)
    ensures |CalledTags(After(steps).workers, msg)| == Calls(steps, msg)
  {
    hide Apply;
    if steps != [] {
      TagsCountDeliveries(Init(steps), msg);
      ReachableInv(Init(steps));
      StepTags(After(Init(steps)), Last(steps), msg);
      StepCalledTags(After(Init(steps)), Last(steps), msg);
    }
  }

  lemma CallsNeedDeliveries(steps: seq<Step>, msg: MsgId)
    requires Legal(steps)
    ensures Calls(steps, msg) <= Deliveries(steps, msg)
  {
    TagsCountDeliveries(steps, msg);
    SubsetIsSmaller(CalledTags(After(steps).workers, msg), TagsOf(After(steps).workers, msg));
  }

  lemma {:induction false} SubsetIsSmaller(small: set<Tag>, large: set<Tag>)
    requires small <= large
    ensures |small| <= |large|
  {
    if small != {} {
      var tag :| tag in small;
      SubsetIsSmaller(small - {tag}, large - {tag});
    }
  }

  lemma StepBalance(s: System, step: Step, msg: MsgId)
    requires Conserved(s.broker) && Enabled(s, step)
    ensures Settling(Apply(s, step).broker, msg) - Settling(s.broker, msg)
         == (if step.DeliverStep? && step.msg == msg then 1 else 0)
          - (if step.InterruptStep? && step.msg == msg then 1 else 0)
          - (if IsRequeue(s, step, msg) then 1 else 0)
  {
    hide Apply, Moved, Possible;
    StepMovesBroker(s, step);
    MovedBalance(s.broker, TrafficOf(s, step), msg);
  }

  /** Every delivery ends in a requeue or an interruption, except the last. */
  lemma {:induction false} DeliveryBalance(steps: seq<Step>, msg: MsgId)
    requires Legal(steps)
    ensures Deliveries(steps, msg)
         == Requeues(steps, msg) + Interruptions(steps, msg) + Settling(After(steps).broker, msg)
  {
    hide Apply;
    if steps != [] {
      DeliveryBalance(Init(steps), msg);
      ReachableInv(Init(steps));
      StepBalance(After(Init(steps)), Last(steps), msg);
    }
  }

  /** What bounds the requeues: each one uses up an attempt number. */
  predicate Affordable(b: Broker, msg: MsgId, requeues: nat) {
    requeues > 0 ==>
      && msg in b.counts && requeues <= b.counts[msg]
      && b.ValidMsg(msg) && requeues < b.bodies[msg].env.maxAttempts
  }

  lemma RequeueAffordable(s: System, step: Step, msg: MsgId, requeues: nat)
    requires DeliveriesOk(s) && WorkersOk(s) && Enabled(s, step) && Affordable(s.broker, msg, requeues)
    requires IsRequeue(s, step, msg)
    ensures Affordable(Apply(s, step).broker, msg, requeues + 1)
  {
    assert HeldOk(s.broker, s.workers, msg);
    assert WorkerOk(s.rows, s.broker.bodies, s.workers[step.tag]);
  }

  lemma StepAffordable(s: System, step: Step, msg: MsgId, requeues: nat)
    requires Conserved(s.broker) && Enabled(s, step) && Affordable(s.broker, msg, requeues)
    ensures Affordable(Apply(s, step).broker, msg, requeues)
  {
    hide Apply, Enabled, TrafficOf, Moved, Possible;
    StepMovesBroker(s, step);
    MovedCounts(s.broker, TrafficOf(s, step), msg);
    MovedKeepsContent(s.broker, TrafficOf(s, step));
  }

  lemma {:induction false} RequeuesAffordable(steps: seq<Step>, msg: MsgId)
    requires Legal(steps)
    ensures Affordable(After(steps).broker, msg, Requeues(steps, msg))
  {
    hide Apply;
    if steps != [] {
      RequeuesAffordable(Init(steps), msg);
      ReachableInv(Init(steps));
      var s, step, requeues := After(Init(steps)), Last(steps), Requeues(Init(steps), msg);
      if IsRequeue(s, step, msg) {
        RequeueAffordable(s, step, msg, requeues);
      } else {
        StepAffordable(s, step, msg, requeues);
      }
    }
  }

  /** Whatever crashes, stale workers and duplicates a run contains, `Process`
      is called for a valid message at most MaxAttempts times plus once for each
      interrupted delivery, and requeued fewer than MaxAttempts times. */
  lemma CallBound(steps: seq<Step>, msg: MsgId)
    requires Legal(steps) && After(steps).broker.ValidMsg(msg)
    ensures var maxAttempts := After(steps).broker.bodies[msg].env.maxAttempts;
            && Requeues(steps, msg) < maxAttempts
            && Calls(steps, msg) <= maxAttempts + Interruptions(steps, msg)
  {
    CallsNeedDeliveries(steps, msg);
    DeliveryBalance(steps, msg);
    RequeuesAffordable(steps, msg);
  }

  /** The measure behind the bound: a requeue strictly lowers what is left of
      MaxAttempts for the next delivery, and is only made while some is left. */
  lemma RequeueUsesAnAttempt(steps: seq<Step>, step: Step, msg: MsgId)
    requires Legal(steps) && Enabled(After(steps), step) && IsRequeue(After(steps), step, msg)
    ensures var s, s' := After(steps), Apply(After(steps), step);
            && s.broker.ValidMsg(msg) && msg in s'.broker.counts
            && var left := s.broker.bodies[msg].env.maxAttempts - s.workers[step.tag].attempt;
            && 0 < left
            && s.broker.bodies[msg].env.maxAttempts - DeliveryAttempt(CountHeader(s'.broker.counts[msg])) < left
  {
    ReachableInv(steps);
    assert HeldOk(After(steps).broker, After(steps).workers, msg);
    assert WorkerOk(After(steps).rows, After(steps).broker.bodies, After(steps).workers[step.tag]);
  }

  /** The worker has prepared an attempt of the job and has not finished it. */
  predicate Runs(s: System, id: JobId, tag: Tag) {
    && (s.InPhase(tag, Prepared) || s.InPhase(tag, Running))
    && s.broker.ValidMsg(s.workers[tag].msg) && s.broker.bodies[s.workers[tag].msg].env.id == id
  }

  /** A job that has reached its end is only ever run again by a worker that
      had already prepared its attempt when the end came. */
  lemma {:induction false} NoNewAttemptAfterTheEnd(steps: seq<Step>, i: nat, id: JobId, tag: Tag)
    requires Legal(steps) && i <= |steps|
    ensures Legal(steps[..i])
    ensures Ended(After(steps[..i]).rows, id) && Runs(After(steps), id, tag) ==> Runs(After(steps[..i]), id, tag)
  {
    hide Apply, Runs;
    if i < |steps| {
      assert steps[..i] == Init(steps)[..i];
      NoNewAttemptAfterTheEnd(Init(steps), i, id, tag);
      RowsOnlyEvolve(Init(steps), i);
      ReachableInv(Init(steps));
      if Ended(After(steps[..i]).rows, id) {
        assert Evolves(After(steps[..i]).rows[id], After(Init(steps)).rows[id]);
        RunningWasRunning(After(Init(steps)), Last(steps), id, tag);
      }
    } else {
      assert steps[..i] == steps;
    }
  }

  lemma RunningWasRunning(s: System, step: Step, id: JobId, tag: Tag)
    requires Conserved(s.broker) && WorkersOk(s) && Enabled(s, step) && Ended(s.rows, id)
    ensures Runs(Apply(s, step), id, tag) ==> Runs(s, id, tag)
  {
    hide Apply, Enabled;
    if Runs(Apply(s, step), id, tag) {
      StepKeepsContent(s, step);
      if tag in s.workers { StepSameRun(s, step, tag); }
      if Actor(step) == Some(tag) {
        NobodyStartsRunning(s, step, id, tag);
      } else {
        OnlyActorMoves(s, step, tag);
      }
      assert WorkerOk(s.rows, s.broker.bodies, s.workers[tag]);
    }
  }

  lemma NobodyStartsRunning(s: System, step: Step, id: JobId, tag: Tag)
    requires Enabled(s, step) && Actor(step) == Some(tag)
    requires Ended(s.rows, id)
    requires tag in s.workers && s.broker.ValidMsg(s.workers[tag].msg) ==>
               s.broker.bodies[s.workers[tag].msg].env.id == id
    ensures !Apply(s, step).InPhase(tag, Prepared)
    ensures Apply(s, step).InPhase(tag, Running) ==> s.InPhase(tag, Prepared)
  {}

  // ------------------------------------------------------------- provenance

  lemma OutcomeOrigin(s: System, step: Step, tag: Tag)
    requires WorkersOk(s) && Enabled(s, step)
    requires tag in Apply(s, step).workers && Apply(s, step).workers[tag].outcome.Some?
    ensures var outcome := Apply(s, step).workers[tag].outcome;
            step == ReturnStep(tag, outcome.value) || (tag in s.workers && s.workers[tag].outcome == outcome)
  {
    if Actor(step) != Some(tag) { OnlyActorMoves(s, step, tag); }
  }

  lemma {:induction false} OutcomesWereProduced(steps: seq<Step>, tag: Tag)
    requires Legal(steps) && tag in After(steps).workers && After(steps).workers[tag].outcome.Some?
    ensures ReturnStep(tag, After(steps).workers[tag].outcome.value) in steps
  {
    hide Apply;
    ReachableInv(Init(steps));
    OutcomeOrigin(After(Init(steps)), Last(steps), tag);
    if Last(steps) != ReturnStep(tag, After(steps).workers[tag].outcome.value) {
      OutcomesWereProduced(Init(steps), tag);
    }
  }

  /** Over every run: a message is requeued only after an error that is not
      permanent, on an attempt before the last; and once the broker took the answer
      to any other error, the job's row is failed. */
  lemma FinalErrorsEndTheJob(steps: seq<Step>, tag: Tag)
    requires Legal(steps) && tag in After(steps).workers
    ensures var s := After(steps);
            var w := s.workers[tag];
            && w.msg in s.broker.bodies
            && (w.phase.Requeueing? ==>
                  && s.broker.ValidMsg(w.msg) && w.outcome.Some? && w.outcome.value.Errored?
                  && !w.outcome.value.permanent && w.attempt < s.broker.bodies[w.msg].env.maxAttempts)
            && (w.phase.Done? && HoldsFinalError(w, s.broker.bodies[w.msg]) ==>
                  HasStatus(s.rows, s.broker.bodies[w.msg].env.id, Failed))
  {
    ReachableInv(steps);
    assert WorkerOk(After(steps).rows, After(steps).broker.bodies, After(steps).workers[tag]);
  }

  /** The run contains a `Process` call for this job that returned this. */
  ghost predicate Produced(steps: seq<Step>, id: JobId, tag: Tag, outcome: Outcome)
    requires Legal(steps)
  {
    && ReturnStep(tag, outcome) in steps
    && tag in After(steps).workers
    && Ran(After(steps).broker.bodies, After(steps).workers[tag], id, outcome)
  }

  /** A succeeded row carries the result of a successful `Process` of its job. */
  lemma SuccessWasEarned(steps: seq<Step>, id: JobId)
    requires Legal(steps) && HasStatus(After(steps).rows, id, Succeeded)
    ensures exists tag :: Produced(steps, id, tag, Completed(After(steps).rows[id].result))
  {
    var s := After(steps);
    ReachableInv(steps);
    assert Earned(s, id);
    var tag :| tag in s.workers && Ran(s.broker.bodies, s.workers[tag], id, Completed(s.rows[id].result));
    OutcomesWereProduced(steps, tag);
    assert Produced(steps, id, tag, Completed(s.rows[id].result));
  }

  ghost predicate FailedFor(steps: seq<Step>, id: JobId, tag: Tag, outcome: Outcome)
    requires Legal(steps)
  {
    && Produced(steps, id, tag, outcome)
    && outcome.Errored?
    && (outcome.permanent ||
          After(steps).workers[tag].attempt
            >= After(steps).broker.bodies[After(steps).workers[tag].msg].env.maxAttempts)
  }

  /** A failed row goes back to a permanent error or to one on the last attempt. */
  lemma FailureWasEarned(steps: seq<Step>, id: JobId)
    requires Legal(steps) && HasStatus(After(steps).rows, id, Failed)
    ensures exists tag, outcome :: FailedFor(steps, id, tag, outcome)
  {
    var s := After(steps);
    ReachableInv(steps);
    assert Earned(s, id);
    var tag :| tag in s.workers && RanOut(s.broker.bodies, s.workers[tag], id);
    OutcomesWereProduced(steps, tag);
    assert FailedFor(steps, id, tag, s.workers[tag].outcome.value);
  }

  /** The submission inserted its row at step i. */
  ghost predicate CreatedAt(steps: seq<Step>, sub: SubmitId, env: Envelope, i: nat)
    requires Legal(steps)
  {
    && i < |steps|
    && steps[i].CreateStep? && steps[i].sub == sub && steps[i].env == env
    && Legal(steps[..i]) && env.id !in After(steps[..i]).rows
  }

  lemma SubmissionOrigin(s: System, step: Step, sub: SubmitId)
    requires Enabled(s, step)
    requires sub in Apply(s, step).submits && !Apply(s, step).submits[sub].phase.Refused?
    ensures var env := Apply(s, step).submits[sub].env;
            || (sub in s.submits && s.submits[sub].env == env && !s.submits[sub].phase.Refused?)
            || (step.CreateStep? && step.sub == sub && step.env == env && env.id !in s.rows)
  {}

  lemma {:induction false} WasCreated(steps: seq<Step>, sub: SubmitId) returns (i: nat)
    requires Legal(steps) && sub in After(steps).submits && !After(steps).submits[sub].phase.Refused?
    ensures CreatedAt(steps, sub, After(steps).submits[sub].env, i)
  {
    hide Apply, Enabled;
    var s := After(Init(steps));
    SubmissionOrigin(s, Last(steps), sub);
    if sub in s.submits && s.submits[sub].env == After(steps).submits[sub].env && !s.submits[sub].phase.Refused? {
      i := WasCreated(Init(steps), sub);
      assert steps[..i] == Init(steps)[..i];
    } else {
      i := |steps| - 1;
      assert steps[..i] == Init(steps);
    }
  }

  /** The submission has handed this message to the broker's channel. */
  predicate Carries(s: System, sub: SubmitId, env: Envelope, msg: MsgId) {
    && sub in s.submits
    && s.submits[sub].env == env
    && (var phase := s.submits[sub].phase;
        (phase.Sent? || phase.Confirmed? || phase.Accepted?) && phase.msg == msg)
  }

  lemma StoringStep(s: System, step: Step, sub: SubmitId, env: Envelope, msg: MsgId)
    requires Conserved(s.broker) && Enabled(s, step)
    requires Carries(Apply(s, step), sub, env, msg) && msg in Apply(s, step).broker.bodies
    ensures Carries(s, sub, env, msg)
    ensures msg in s.broker.bodies || step == AcceptStep(msg)
  {
  }

  lemma StoredIsConserved(steps: seq<Step>)
    requires Legal(steps)
    ensures Conserved(After(steps).broker)
  {
    ReachableInv(steps);
  }

  lemma {:induction false} StoredAfterCreated(steps: seq<Step>, sub: SubmitId, env: Envelope, msg: MsgId)
      returns (i: nat, j: nat)
    requires Legal(steps) && Carries(After(steps), sub, env, msg) && msg in After(steps).broker.bodies
    ensures CreatedAt(steps, sub, env, i) && i < j < |steps| && steps[j] == AcceptStep(msg)
  {
    hide Apply, Enabled, Inv;
    var s := After(Init(steps));
    assert Conserved(s.broker) by { StoredIsConserved(Init(steps)); }
    StoringStep(s, Last(steps), sub, env, msg);
    if msg in s.broker.bodies {
      i, j := StoredAfterCreated(Init(steps), sub, env, msg);
    } else {
      i := WasCreated(Init(steps), sub);
      j := |steps| - 1;
    }
    assert steps[..i] == Init(steps)[..i];
  }

  /** A caller that holds a receipt has a job whose row was inserted at some
      step, whose message the broker stored at a later one, and that message is
      still accounted for. */
  lemma ReceiptMeansStored(steps: seq<Step>, sub: SubmitId)
    requires Legal(steps) && sub in After(steps).submits && After(steps).submits[sub].phase.Accepted?
    ensures var s := After(steps);
            var env, msg := s.submits[sub].env, s.submits[sub].phase.msg;
            && (exists i: nat, j: nat :: CreatedAt(steps, sub, env, i) && i < j < |steps| && steps[j] == AcceptStep(msg))
            && msg in s.broker.bodies && s.broker.bodies[msg] == Json(env)
            && Copies(s.broker, msg) == 1
            && env.id in s.rows
  {
    var s := After(steps);
    ReachableInv(steps);
    assert SubmissionOk(s.rows, s.broker, s.submits[sub]);
    var i, j := StoredAfterCreated(steps, sub, s.submits[sub].env, s.submits[sub].phase.msg);
  }
}
