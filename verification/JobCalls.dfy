/** How often `Process` is called for a job, over all of its messages. */
module JobCalls {
  import opened Text
  import opened JobStore
  import opened JobBroker
  import opened JobProtocol
  import opened JobInvariants
  import opened JobTheorems

  // ------------------------------------------------------------- counting

  /** The broker has stored this valid message, and it is about the job. */
  predicate About(b: Broker, msg: MsgId, id: JobId) {
    b.ValidMsg(msg) && b.bodies[msg].env.id == id
  }

  ghost function StoredFor(b: Broker, id: JobId): set<MsgId> {
    set msg | msg in b.bodies && About(b, msg, id)
  }

  predicate IsJobCall(s: System, step: Step, id: JobId)
    requires Enabled(s, step)
  {
    step.CallStep? && About(s.broker, s.workers[step.tag].msg, id)
  }

  predicate IsJobInterruption(s: System, step: Step, id: JobId) {
    step.InterruptStep? && About(s.broker, step.msg, id)
  }

  /** Calls of `Process` for the job, returned or not. */
  ghost function JobCalls(steps: seq<Step>, id: JobId): nat
    requires Legal(steps)
  {
    if steps == [] then 0 else
    JobCalls(Init(steps), id) + if IsJobCall(After(Init(steps)), Last(steps), id) then 1 else 0
  }

  /** Deliveries of the job's messages that the broker took back. */
  ghost function JobInterruptions(steps: seq<Step>, id: JobId): nat
    requires Legal(steps)
  {
    if steps == [] then 0 else
    JobInterruptions(Init(steps), id) + if IsJobInterruption(After(Init(steps)), Last(steps), id) then 1 else 0
  }

  predicate IsCallIn(s: System, step: Step, msgs: set<MsgId>)
    requires Enabled(s, step)
  {
    step.CallStep? && s.workers[step.tag].msg in msgs
  }

  predicate IsInterruptionIn(step: Step, msgs: set<MsgId>) {
    step.InterruptStep? && step.msg in msgs
  }

  ghost function CallsIn(steps: seq<Step>, msgs: set<MsgId>): nat
    requires Legal(steps)
  {
    if steps == [] then 0 else
    CallsIn(Init(steps), msgs) + if IsCallIn(After(Init(steps)), Last(steps), msgs) then 1 else 0
  }

  ghost function InterruptionsIn(steps: seq<Step>, msgs: set<MsgId>): nat {
    if steps == [] then 0 else
    InterruptionsIn(Init(steps), msgs) + if IsInterruptionIn(Last(steps), msgs) then 1 else 0
  }

  lemma {:induction false} CallsSplit(steps: seq<Step>, msgs: set<MsgId>, msg: MsgId)
    requires Legal(steps) && msg in msgs
    ensures CallsIn(steps, msgs) == CallsIn(steps, msgs - {msg}) + Calls(steps, msg)
    ensures InterruptionsIn(steps, msgs) == InterruptionsIn(steps, msgs - {msg}) + Interruptions(steps, msg)
  {
    hide Apply;
    if steps != [] { CallsSplit(Init(steps), msgs, msg); }
  }

  lemma {:induction false} NoCallsInNone(steps: seq<Step>)
    requires Legal(steps)
    ensures CallsIn(steps, {}) == 0
  {
    hide Apply, Enabled;
    if steps != [] { NoCallsInNone(Init(steps)); }
  }

  /** The step treats a stored message as the set says. */
  ghost predicate Sorts(b: Broker, msgs: set<MsgId>, id: JobId) {
    forall msg :: msg in b.bodies ==> (msg in msgs <==> About(b, msg, id))
  }

  lemma StepSorts(s: System, step: Step, msgs: set<MsgId>, id: JobId)
    requires Inv(s) && Enabled(s, step) && Sorts(Apply(s, step).broker, msgs, id)
    ensures Sorts(s.broker, msgs, id)
    ensures IsJobCall(s, step, id) <==> IsCallIn(s, step, msgs)
    ensures IsJobInterruption(s, step, id) <==> IsInterruptionIn(step, msgs)
  {
    hide Apply;
    StepKeepsContent(s, step);
    if step.CallStep? { assert WorkerOk(s.rows, s.broker.bodies, s.workers[step.tag]); }
    if step.InterruptStep? { assert Copies(s.broker, step.msg) >= 1; }
  }

  /** Counting by job is counting over the messages stored for it. */
  lemma {:induction false} JobIsItsMessages(steps: seq<Step>, msgs: set<MsgId>, id: JobId)
    requires Legal(steps) && Sorts(After(steps).broker, msgs, id)
    ensures JobCalls(steps, id) == CallsIn(steps, msgs)
    ensures JobInterruptions(steps, id) == InterruptionsIn(steps, msgs)
  {
    hide Apply, Enabled, Sorts, Inv;
    if steps != [] {
      ReachableInv(Init(steps));
      StepSorts(After(Init(steps)), Last(steps), msgs, id);
      JobIsItsMessages(Init(steps), msgs, id);
    }
  }

  ghost function Pick(msgs: set<MsgId>): (msg: MsgId)
    requires msgs != {}
    ensures msg in msgs
  {
    var msg :| msg in msgs; msg
  }

  /** The attempts that the messages allow together. */
  ghost function Allowance(b: Broker, msgs: set<MsgId>): int
    requires forall msg :: msg in msgs ==> b.ValidMsg(msg)
  {
    if msgs == {} then 0 else
    var msg := Pick(msgs);
    assert b.ValidMsg(msg);
    b.bodies[msg].env.maxAttempts + Allowance(b, msgs - {msg})
  }

  lemma {:induction false} CallsInBound(steps: seq<Step>, msgs: set<MsgId>)
    requires Legal(steps) && forall msg :: msg in msgs ==> After(steps).broker.ValidMsg(msg)
    ensures CallsIn(steps, msgs) <= Allowance(After(steps).broker, msgs) + InterruptionsIn(steps, msgs)
    decreases |msgs|
  {
    hide Legal, After;
    if msgs == {} {
      NoCallsInNone(steps);
    } else {
      CallBound(steps, Pick(msgs));
      CallsSplit(steps, msgs, Pick(msgs));
      CallsInBound(steps, msgs - {Pick(msgs)});
    }
  }

  /** Over every run, `Process` is called for a job at most as often as the
      messages stored for it allow together, plus once for each interrupted
      delivery. */
  lemma JobCallBound(steps: seq<Step>, id: JobId)
    requires Legal(steps)
    ensures JobCalls(steps, id)
         <= Allowance(After(steps).broker, StoredFor(After(steps).broker, id)) + JobInterruptions(steps, id)
  {
    hide Legal, After, Allowance;
    var msgs := StoredFor(After(steps).broker, id);
    JobIsItsMessages(steps, msgs, id);
    CallsInBound(steps, msgs);
  }

  // --------------------------------------------------- one message for a job

  /** The body is about the job. */
  predicate Names(body: Body, id: JobId) {
    body.Json? && body.env.id == id
  }

  /** Only submitters publish messages about the job. */
  predicate NobodyElse(steps: seq<Step>, id: JobId) {
    forall i :: 0 <= i < |steps| && steps[i].InjectStep? ==> !Names(steps[i].body, id)
  }

  /** What is on its way or stored. */
  function Contents(b: Broker): map<MsgId, Body> {
    b.wire + b.bodies
  }

  predicate RowAllows(rows: Table, env: Envelope) {
    env.id in rows && rows[env.id].maxAttempts == env.maxAttempts
  }

  /** The row is there before any message, and its limit is the message's. */
  ghost predicate RowsFirst(rows: Table, submits: map<SubmitId, Submission>, contents: map<MsgId, Body>, id: JobId) {
    && (forall sub :: sub in submits && submits[sub].env.id == id ==>
          id in rows && (!submits[sub].phase.Refused? ==> RowAllows(rows, submits[sub].env)))
    && (forall msg :: msg in contents && Names(contents[msg], id) ==> RowAllows(rows, contents[msg].env))
  }

  /** Of two submissions of the job, one was refused; the job has at most one
      message, and none while a submission has still to send it. */
  ghost predicate OneEach(submits: map<SubmitId, Submission>, contents: map<MsgId, Body>, id: JobId) {
    && (forall a, b :: a in submits && b in submits && submits[a].env.id == id == submits[b].env.id ==>
          a == b || submits[a].phase.Refused? || submits[b].phase.Refused?)
    && (forall m, n :: m in contents && n in contents && Names(contents[m], id) && Names(contents[n], id) ==> m == n)
    && (forall sub, msg :: sub in submits && msg in contents && submits[sub].env.id == id && Names(contents[msg], id) ==>
          !submits[sub].phase.Persisted?)
  }

  ghost predicate Single(s: System, id: JobId) {
    RowsFirst(s.rows, s.submits, Contents(s.broker), id) && OneEach(s.submits, Contents(s.broker), id)
  }

  /** No submission starts and none goes back. */
  ghost predicate Settle(before: map<SubmitId, Submission>, after: map<SubmitId, Submission>) {
    forall sub :: sub in after ==>
      && sub in before && after[sub].env == before[sub].env
      && (before[sub].phase.Refused? ==> after[sub].phase.Refused?)
      && (after[sub].phase.Persisted? ==> before[sub].phase.Persisted?)
  }

  /** No message about the job is added. */
  ghost predicate NothingNew(before: map<MsgId, Body>, after: map<MsgId, Body>, id: JobId) {
    forall msg :: msg in after && Names(after[msg], id) ==> msg in before && before[msg] == after[msg]
  }

  lemma OtherStepSettles(s: System, step: Step)
    requires Enabled(s, step) && !step.CreateStep? && !step.SendStep?
    ensures Settle(s.submits, Apply(s, step).submits)
  {}

  lemma MovedContents(b: Broker, traffic: Traffic, msg: MsgId)
    requires Conserved(b) && Possible(b, traffic) && msg in Contents(Moved(b, traffic))
    ensures traffic.Sends? && traffic.msg == msg ==> Contents(Moved(b, traffic))[msg] == traffic.body
    ensures !(traffic.Sends? && traffic.msg == msg) ==>
              msg in Contents(b) && Contents(b)[msg] == Contents(Moved(b, traffic))[msg]
  {}

  lemma OtherStepAddsNothing(s: System, step: Step, id: JobId)
    requires Conserved(s.broker) && Enabled(s, step) && !step.SendStep?
    requires step.InjectStep? ==> !Names(step.body, id)
    ensures NothingNew(Contents(s.broker), Contents(Apply(s, step).broker), id)
  {
    hide Apply, Moved, Possible, Conserved, Contents;
    StepMovesBroker(s, step);
    var after := Contents(Apply(s, step).broker);
    forall msg | msg in after && Names(after[msg], id)
      ensures msg in Contents(s.broker) && Contents(s.broker)[msg] == after[msg]
    {
      MovedContents(s.broker, TrafficOf(s, step), msg);
    }
  }

  lemma OtherStepKeepsSingle(s: System, step: Step, id: JobId)
    requires Conserved(s.broker) && Enabled(s, step) && Single(s, id) && TableEvolves(s.rows, Apply(s, step).rows)
    requires !step.CreateStep? && !step.SendStep? && (step.InjectStep? ==> !Names(step.body, id))
    ensures Single(Apply(s, step), id)
  {
    hide Apply, Enabled, Contents, Names;
    OtherStepSettles(s, step);
    OtherStepAddsNothing(s, step, id);
    assert id in s.rows ==> id in Apply(s, step).rows && Evolves(s.rows[id], Apply(s, step).rows[id]);
  }

  lemma CreateKeepsOneEach(rows: Table, rows': Table, submits: map<SubmitId, Submission>, contents: map<MsgId, Body>,
                           sub: SubmitId, env: Envelope, id: JobId)
    requires RowsFirst(rows, submits, contents, id) && OneEach(submits, contents, id) && sub !in submits
    requires env.id in rows' && (env.id !in rows ==> rows'[env.id].maxAttempts == env.maxAttempts)
    requires id in rows ==> id in rows' && rows'[id].maxAttempts == rows[id].maxAttempts
    ensures var submits' := submits[sub := Submission(env, if env.id in rows then Refused else Persisted)];
            RowsFirst(rows', submits', contents, id) && OneEach(submits', contents, id)
  {}

  lemma CreateKeepsSingle(s: System, step: Step, id: JobId)
    requires Enabled(s, step) && Single(s, id) && step.CreateStep?
    ensures Single(Apply(s, step), id)
  {
    hide RowsFirst, OneEach;
    CreateKeepsOneEach(s.rows, Apply(s, step).rows, s.submits, Contents(s.broker), step.sub, step.env, id);
  }

  lemma SendKeepsOneEach(rows: Table, submits: map<SubmitId, Submission>, contents: map<MsgId, Body>,
                         sub: SubmitId, msg: MsgId, id: JobId)
    requires RowsFirst(rows, submits, contents, id) && OneEach(submits, contents, id)
    requires sub in submits && submits[sub].phase.Persisted? && msg !in contents
    ensures var submits', contents' := submits[sub := submits[sub].(phase := Sent(msg))], contents[msg := Json(submits[sub].env)];
            RowsFirst(rows, submits', contents', id) && OneEach(submits', contents', id)
  {}

  lemma SendKeepsSingle(s: System, step: Step, id: JobId)
    requires Conserved(s.broker) && Enabled(s, step) && Single(s, id) && step.SendStep?
    ensures Single(Apply(s, step), id)
  {
    hide RowsFirst, OneEach;
    var contents := Contents(s.broker);
    assert step.msg !in contents;
    SendKeepsOneEach(s.rows, s.submits, contents, step.sub, step.msg, id);
    assert Contents(Apply(s, step).broker) == contents[step.msg := Json(s.submits[step.sub].env)];
  }

  lemma {:induction false} ReachableSingle(steps: seq<Step>, id: JobId)
    requires Legal(steps) && NobodyElse(steps, id)
    ensures Single(After(steps), id)
  {
    if steps != [] {
      hide Apply, Enabled, Single, TableEvolves, Names;
      ReachableSingle(Init(steps), id);
      ReachableInv(Init(steps));
      var s, step := After(Init(steps)), Last(steps);
      StepKeepsTable(s, step);
      if step.CreateStep? {
        CreateKeepsSingle(s, step, id);
      } else if step.SendStep? {
        SendKeepsSingle(s, step, id);
      } else {
        OtherStepKeepsSingle(s, step, id);
      }
    }
  }

  predicate IsSend(s: System, step: Step, id: JobId)
    requires Enabled(s, step)
  {
    step.SendStep? && s.submits[step.sub].env.id == id
  }

  /** Messages sent for the job, lost ones included. */
  ghost function Sends(steps: seq<Step>, id: JobId): nat
    requires Legal(steps)
  {
    if steps == [] then 0 else
    Sends(Init(steps), id) + if IsSend(After(Init(steps)), Last(steps), id) then 1 else 0
  }

  /** Nobody has sent a message for the job yet. */
  ghost predicate Unsent(s: System, id: JobId) {
    id !in s.rows || exists sub :: sub in s.submits && s.submits[sub].phase.Persisted? && s.submits[sub].env.id == id
  }

  lemma StepUnsent(s: System, step: Step, id: JobId)
    requires Single(s, id) && Enabled(s, step) && TableEvolves(s.rows, Apply(s, step).rows)
    ensures Unsent(Apply(s, step), id) ==> Unsent(s, id) && !IsSend(s, step, id)
    ensures IsSend(s, step, id) ==> Unsent(s, id)
  {}

  /** In a run in which only submitters publish messages about a job, at most one
      is ever sent, and at most one is stored. */
  lemma {:induction false} OneMessagePerJob(steps: seq<Step>, id: JobId)
    requires Legal(steps) && NobodyElse(steps, id)
    ensures Sends(steps, id) <= 1 && (Unsent(After(steps), id) ==> Sends(steps, id) == 0)
    ensures forall m, n :: About(After(steps).broker, m, id) && About(After(steps).broker, n, id) ==> m == n
  {
    OneMessageStored(steps, id);
    if steps != [] {
      hide Apply, Enabled, Single, Unsent;
      OneMessagePerJob(Init(steps), id);
      ReachableSingle(Init(steps), id);
      ReachableInv(Init(steps));
      StepKeepsTable(After(Init(steps)), Last(steps));
      StepUnsent(After(Init(steps)), Last(steps), id);
    }
  }

  lemma OneMessageStored(steps: seq<Step>, id: JobId)
    requires Legal(steps) && NobodyElse(steps, id)
    ensures forall m, n :: About(After(steps).broker, m, id) && About(After(steps).broker, n, id) ==> m == n
    ensures forall m :: About(After(steps).broker, m, id) ==>
              RowAllows(After(steps).rows, After(steps).broker.bodies[m].env)
  {
    hide Legal, After;
    ReachableSingle(steps, id);
    var b := After(steps).broker;
    forall m | About(b, m, id) ensures m in Contents(b) && Contents(b)[m] == b.bodies[m] && Names(b.bodies[m], id) {}
  }

  lemma AllowanceOfOne(b: Broker, msg: MsgId)
    requires b.ValidMsg(msg)
    ensures Allowance(b, {msg}) == b.bodies[msg].env.maxAttempts
  {
    assert {msg} - {Pick({msg})} == {};
  }

  /** ... so that `Process` is called for it at most MaxAttempts times, as its row
      has them, plus once for each interrupted delivery; and never for a job
      that is not in the table. */
  lemma JobCallsWithinMaxAttempts(steps: seq<Step>, id: JobId)
    requires Legal(steps) && NobodyElse(steps, id)
    ensures id in After(steps).rows ==>
              JobCalls(steps, id) <= After(steps).rows[id].maxAttempts + JobInterruptions(steps, id)
    ensures id !in After(steps).rows ==> JobCalls(steps, id) == 0
  {
    hide Legal, After, JobCalls, JobInterruptions, Inv, NobodyElse;
    var s := After(steps);
    var msgs := StoredFor(s.broker, id);
    OneMessageStored(steps, id);
    if msgs == {} {
      JobIsItsMessages(steps, msgs, id);
      NoCallsInNone(steps);
      assert ConsistentTable(s.rows) by { ReachableInv(steps); ConsistentIn(s); }
    } else {
      var msg :| msg in msgs;
      assert msgs == {msg};
      AllowanceOfOne(s.broker, msg);
      JobCallBound(steps, id);
    }
  }

  lemma ConsistentIn(s: System)
    requires Inv(s)
    ensures ConsistentTable(s.rows)
  {}

  // ------------------------------------------------ two messages, two calls

  /** The worker is about to call `Process` for the job. */
  predicate Ready(s: System, tag: Tag, id: JobId) {
    s.InPhase(tag, Prepared) && About(s.broker, s.workers[tag].msg, id)
  }

  /** A step that is neither a call for the job nor an interruption of it. */
  predicate Silent(s: System, step: Step, id: JobId) {
    Enabled(s, step) && !IsJobCall(s, step, id) && !IsJobInterruption(s, step, id)
  }

  lemma ExtendSilently(steps: seq<Step>, step: Step, id: JobId)
    requires Legal(steps) && Silent(After(steps), step, id)
    ensures Legal(steps + [step]) && After(steps + [step]) == Apply(After(steps), step)
    ensures JobCalls(steps + [step], id) == JobCalls(steps, id)
    ensures JobInterruptions(steps + [step], id) == JobInterruptions(steps, id)
  {
    hide Apply, Enabled;
    assert Init(steps + [step]) == steps && Last(steps + [step]) == step;
  }

  ghost predicate SameCounts(prior: seq<Step>, run: seq<Step>, id: JobId) {
    && Legal(prior) && Legal(run)
    && JobCalls(run, id) == JobCalls(prior, id) && JobInterruptions(run, id) == JobInterruptions(prior, id)
  }

  lemma PublishingStores(s: System, msg: MsgId, env: Envelope)
    requires env.Valid() && s.broker.Unused(msg)
    ensures var sent := Apply(s, InjectStep(msg, Json(env)));
            && Enabled(sent, AcceptStep(msg))
            && (var s' := Apply(sent, AcceptStep(msg));
                && s'.rows == s.rows && s'.workers == s.workers && s'.broker.sent == s.broker.sent + {msg}
                && s'.broker.bodies == s.broker.bodies[msg := Json(env)]
                && s'.broker.CanDeliver(msg) && s'.broker.counts[msg] == 0)
  {}

  /** Someone publishes a message about the job, and the broker stores it. */
  lemma PublishAnother(prior: seq<Step>, msg: MsgId, env: Envelope) returns (run: seq<Step>)
    requires Legal(prior) && env.Valid() && After(prior).broker.Unused(msg)
    ensures SameCounts(prior, run, env.id) && run == prior + [InjectStep(msg, Json(env))] + [AcceptStep(msg)]
    ensures var s, s' := After(prior), After(run);
            && s'.rows == s.rows && s'.workers == s.workers && s'.broker.sent == s.broker.sent + {msg}
            && s'.broker.bodies == s.broker.bodies[msg := Json(env)]
            && s'.broker.CanDeliver(msg) && s'.broker.counts[msg] == 0
  {
    hide Apply, Legal, After, JobCalls, JobInterruptions;
    PublishingStores(After(prior), msg, env);
    ExtendSilently(prior, InjectStep(msg, Json(env)), env.id);
    var sent := prior + [InjectStep(msg, Json(env))];
    ExtendSilently(sent, AcceptStep(msg), env.id);
    run := sent + [AcceptStep(msg)];
  }

  /** The job may be worked on, under the envelope's limit. */
  predicate Workable(rows: Table, env: Envelope) {
    env.maxAttempts <= MAX_INTEGER && !Ended(rows, env.id) && (env.id in rows ==> RowAllows(rows, env))
  }

  /** What taking up a first delivery leaves. */
  ghost predicate TakenUp(s: System, s': System, tag: Tag, env: Envelope) {
    && Ready(s', tag, env.id) && Workable(s'.rows, env) && env.id in s'.rows
    && s'.workers.Keys == s.workers.Keys + {tag}
    && (forall other :: other in s.workers && other != tag ==> s'.workers[other] == s.workers[other])
    && s'.broker.sent == s.broker.sent && s'.broker.bodies == s.broker.bodies
  }

  lemma PreparingIsReady(s: System, tag: Tag)
    requires s.InPhase(tag, Received) && s.broker.ValidMsg(s.workers[tag].msg) && s.workers[tag].attempt == 1
    requires Workable(s.rows, s.broker.bodies[s.workers[tag].msg].env)
    ensures TakenUp(s, Apply(s, PrepareStep(tag, 0)), tag, s.broker.bodies[s.workers[tag].msg].env)
  {}

  lemma DeliveringReceives(s: System, tag: Tag, msg: MsgId)
    requires s.broker.ValidMsg(msg) && tag !in s.workers && s.broker.CanDeliver(msg) && s.broker.counts[msg] == 0
    ensures Enabled(s, DeliverStep(tag, msg))
    ensures var s' := Apply(s, DeliverStep(tag, msg));
            && s'.rows == s.rows && s'.broker.sent == s.broker.sent && s'.broker.bodies == s.broker.bodies
            && s'.workers == s.workers[tag := Worker(msg, 1, Received, None)]
            && s'.InPhase(tag, Received) && s'.broker.ValidMsg(msg)
  {}

  /** A worker takes it and prepares its first attempt. */
  lemma TakeUp(prior: seq<Step>, msg: MsgId, tag: Tag, env: Envelope) returns (run: seq<Step>)
    requires Legal(prior) && After(prior).broker.ValidMsg(msg) && After(prior).broker.bodies[msg] == Json(env)
    requires Workable(After(prior).rows, env) && tag !in After(prior).workers
    requires After(prior).broker.CanDeliver(msg) && After(prior).broker.counts[msg] == 0
    ensures SameCounts(prior, run, env.id) && prior <= run
    ensures TakenUp(After(prior), After(run), tag, env)
  {
    hide Apply, Legal, After, JobCalls, JobInterruptions, Workable, Ready;
    DeliveringReceives(After(prior), tag, msg);
    ExtendSilently(prior, DeliverStep(tag, msg), env.id);
    var delivered := prior + [DeliverStep(tag, msg)];
    PreparingIsReady(After(delivered), tag);
    ExtendSilently(delivered, PrepareStep(tag, 0), env.id);
    run := delivered + [PrepareStep(tag, 0)];
    assert After(run).workers.Keys == After(prior).workers.Keys + {tag};
  }

  lemma CallOnce(prior: seq<Step>, tag: Tag, id: JobId)
    requires Legal(prior) && Ready(After(prior), tag, id)
    ensures Legal(prior + [CallStep(tag)])
    ensures JobCalls(prior + [CallStep(tag)], id) == JobCalls(prior, id) + 1
    ensures JobInterruptions(prior + [CallStep(tag)], id) == JobInterruptions(prior, id)
    ensures After(prior + [CallStep(tag)]) == After(prior).WithPhase(tag, Running)
  {
    Extend(prior, CallStep(tag));
    assert Init(prior + [CallStep(tag)]) == prior && Last(prior + [CallStep(tag)]) == CallStep(tag);
  }

  /** Both, with the other workers left alone. */
  lemma Engage(prior: seq<Step>, msg: MsgId, tag: Tag, env: Envelope) returns (run: seq<Step>)
    requires Legal(prior) && env.Valid() && After(prior).broker.Unused(msg)
    requires Workable(After(prior).rows, env) && tag !in After(prior).workers
    ensures SameCounts(prior, run, env.id) && |prior| < |run| && prior <= run && run[|prior|] == InjectStep(msg, Json(env))
    ensures Ready(After(run), tag, env.id) && Workable(After(run).rows, env) && RowAllows(After(run).rows, env)
    ensures After(run).workers.Keys == After(prior).workers.Keys + {tag}
    ensures After(run).broker.sent == After(prior).broker.sent + {msg}
    ensures forall other :: other != tag && msg !in After(prior).broker.bodies && Ready(After(prior), other, env.id) ==>
              Ready(After(run), other, env.id)
  {
    hide Apply, Legal, After, JobCalls, JobInterruptions;
    var sent := PublishAnother(prior, msg, env);
    run := TakeUp(sent, msg, tag, env);
  }

  lemma TwoReady(env: Envelope) returns (run: seq<Step>)
    requires env.Valid() && env.maxAttempts == 1
    ensures Legal(run) && run != [] && run[0] == InjectStep(0, Json(env))
    ensures JobCalls(run, env.id) == JobInterruptions(run, env.id) == 0
    ensures Ready(After(run), 0, env.id) && Ready(After(run), 1, env.id) && RowAllows(After(run).rows, env)
  {
    var none: seq<Step> := [];
    assert Legal(none) && After(none) == INITIAL && JobCalls(none, env.id) == JobInterruptions(none, env.id) == 0;
    hide Legal, After, JobCalls, JobInterruptions, Apply, Ready, Workable, RowAllows;
    assert Workable(INITIAL.rows, env) by { NotYetThere(env); }
    var first := Engage(none, 0, 0, env);
    StoredIsConserved(first);
    run := Engage(first, 1, 1, env);
  }

  lemma NotYetThere(env: Envelope)
    requires env.maxAttempts == 1
    ensures Workable(INITIAL.rows, env)
  {}

  /** Without the condition the bound fails for every job: someone else publishes
      two messages about it, two workers prepare before either records, and the
      processor is called twice with no interruption, though one attempt is allowed. */
  lemma TwoMessagesTwoCalls(env: Envelope) returns (run: seq<Step>)
    requires env.Valid() && env.maxAttempts == 1
    ensures Legal(run) && !NobodyElse(run, env.id)
    ensures JobCalls(run, env.id) == 2 && JobInterruptions(run, env.id) == 0
    ensures env.id in After(run).rows && After(run).rows[env.id].maxAttempts == 1
  {
    hide Legal, After, JobCalls, JobInterruptions, Apply;
    var ready := TwoReady(env);
    CallOnce(ready, 0, env.id);
    CallOnce(ready + [CallStep(0)], 1, env.id);
    run := ready + [CallStep(0)] + [CallStep(1)];
    assert run[0] == InjectStep(0, Json(env));
  }
}
