/** The message broker as the job protocol needs it: a queue that delivers at
    least once, counts deliveries, takes answers only for outstanding
    deliveries, and a dead-letter queue. */
module JobBroker {
  import opened Text
  import opened JobStore

  type MsgId = nat

  /** One delivery of one message to one worker. */
  type Tag = nat

  datatype Body = Malformed | Json(env: Envelope) {
    predicate Valid() {
      Json? && env.Valid()
    }
  }

  datatype Answer = Ack | Reject | Requeue(count: nat)

  datatype Broker = Broker(
    sent: set<MsgId>,          // every message ever sent
    wire: map<MsgId, Body>,    // sent, and not yet stored by the broker
    bodies: map<MsgId, Body>,  // every message the broker has stored
    counts: map<MsgId, nat>,   // its x-delivery-count
    ready: multiset<MsgId>,    // the main queue
    unacked: map<MsgId, Tag>,  // out for delivery, and to whom
    acked: multiset<MsgId>,
    dead: multiset<MsgId>)     // the dead-letter queue
  {
    predicate Unused(msg: MsgId) {
      msg !in sent
    }

    /** A stored message the worker can decode and validate. */
    predicate ValidMsg(msg: MsgId) {
      msg in bodies && bodies[msg].Valid()
    }

    predicate Outstanding(msg: MsgId, tag: Tag) {
      msg in unacked && unacked[msg] == tag
    }

    function Send(msg: MsgId, body: Body): Broker {
      this.(sent := sent + {msg}, wire := wire[msg := body])
    }

    function Lose(msg: MsgId): Broker {
      this.(wire := wire - {msg})
    }

    function Accept(msg: MsgId): Broker
      requires msg in wire
    {
      this.(wire := wire - {msg}, bodies := bodies[msg := wire[msg]], counts := counts[msg := 0],
            ready := ready + multiset{msg})
    }

    predicate CanDeliver(msg: MsgId) {
      msg in ready && msg in counts
    }

    function Deliver(msg: MsgId, tag: Tag): Broker {
      this.(ready := ready - multiset{msg}, unacked := unacked[msg := tag])
    }

    /** A consumer that goes away gives the message back; the count may grow. */
    predicate CanTakeBack(msg: MsgId, count: nat) {
      msg in unacked && msg in counts && counts[msg] <= count < MAX_INT64
    }

    function TakeBack(msg: MsgId, count: nat): Broker {
      this.(unacked := unacked - {msg}, ready := ready + multiset{msg}, counts := counts[msg := count])
    }

    /** A requeue makes the count grow. */
    predicate CanSettle(msg: MsgId, answer: Answer) {
      && msg in unacked
      && (answer.Requeue? ==> msg in counts && counts[msg] < answer.count < MAX_INT64)
    }

    function Settle(msg: MsgId, answer: Answer): Broker {
      var rest := this.(unacked := unacked - {msg});
      match answer
      case Ack => rest.(acked := acked + multiset{msg})
      case Reject => rest.(dead := dead + multiset{msg})
      case Requeue(count) => rest.(ready := ready + multiset{msg}, counts := counts[msg := count])
    }
  }

  const EMPTY_BROKER := Broker({}, map[], map[], map[], multiset{}, map[], multiset{}, multiset{})

  // ---------------------------------------------- nothing lost, nothing doubled

  /** How many places hold the message. */
  function Copies(b: Broker, msg: MsgId): nat {
    b.ready[msg] + (if msg in b.unacked then 1 else 0) + b.acked[msg] + b.dead[msg]
  }

  ghost predicate Conserved(b: Broker) {
    && b.counts.Keys == b.bodies.Keys
    && b.wire.Keys !! b.bodies.Keys
    && b.wire.Keys + b.bodies.Keys <= b.sent
    && (forall msg :: msg in b.counts ==> b.counts[msg] < MAX_INT64)
    && (forall msg :: Copies(b, msg) == if msg in b.bodies then 1 else 0)
  }

  lemma SendConserves(b: Broker, msg: MsgId, body: Body)
    requires Conserved(b) && b.Unused(msg)
    ensures Conserved(b.Send(msg, body))
  {}

  lemma LoseConserves(b: Broker, msg: MsgId)
    requires Conserved(b)
    ensures Conserved(b.Lose(msg))
  {}

  lemma AcceptConserves(b: Broker, msg: MsgId)
    requires Conserved(b) && msg in b.wire
    ensures Conserved(b.Accept(msg))
  {}

  lemma DeliverConserves(b: Broker, msg: MsgId, tag: Tag)
    requires Conserved(b) && b.CanDeliver(msg)
    ensures msg !in b.unacked
    ensures Conserved(b.Deliver(msg, tag))
  {}

  lemma TakeBackConserves(b: Broker, msg: MsgId, count: nat)
    requires Conserved(b) && b.CanTakeBack(msg, count)
    ensures Conserved(b.TakeBack(msg, count))
  {}

  lemma SettleConserves(b: Broker, msg: MsgId, answer: Answer)
    requires Conserved(b) && b.CanSettle(msg, answer)
    ensures Conserved(b.Settle(msg, answer))
  {}

  // ------------------------------------------------------- one event at a time

  /** What a step of the protocol does to the broker. */
  datatype Traffic =
    | Quiet
    | Sends(msg: MsgId, body: Body)
    | Loses(msg: MsgId)
    | Stores(msg: MsgId)
    | Hands(msg: MsgId, tag: Tag)
    | TakesBack(msg: MsgId, count: nat)
    | Settles(msg: MsgId, answer: Answer)

  predicate Possible(b: Broker, traffic: Traffic) {
    match traffic
    case Quiet => true
    case Sends(msg, _) => b.Unused(msg)
    case Loses(msg) => msg in b.wire
    case Stores(msg) => msg in b.wire
    case Hands(msg, _) => b.CanDeliver(msg)
    case TakesBack(msg, count) => b.CanTakeBack(msg, count)
    case Settles(msg, answer) => b.CanSettle(msg, answer)
  }

  function Moved(b: Broker, traffic: Traffic): Broker
    requires Possible(b, traffic)
  {
    match traffic
    case Quiet => b
    case Sends(msg, body) => b.Send(msg, body)
    case Loses(msg) => b.Lose(msg)
    case Stores(msg) => b.Accept(msg)
    case Hands(msg, tag) => b.Deliver(msg, tag)
    case TakesBack(msg, count) => b.TakeBack(msg, count)
    case Settles(msg, answer) => b.Settle(msg, answer)
  }

  lemma MovedConserves(b: Broker, traffic: Traffic)
    requires Conserved(b) && Possible(b, traffic)
    ensures Conserved(Moved(b, traffic))
  {
    match traffic
    case Quiet =>
    case Sends(msg, body) => SendConserves(b, msg, body);
    case Loses(msg) => LoseConserves(b, msg);
    case Stores(msg) => AcceptConserves(b, msg);
    case Hands(msg, tag) => DeliverConserves(b, msg, tag);
    case TakesBack(msg, count) => TakeBackConserves(b, msg, count);
    case Settles(msg, answer) => SettleConserves(b, msg, answer);
  }

  ghost predicate BodiesGrow(bodies: map<MsgId, Body>, bodies': map<MsgId, Body>) {
    forall msg :: msg in bodies ==> msg in bodies' && bodies'[msg] == bodies[msg]
  }

  /** The broker never changes what it was sent. */
  predicate KeepsContent(b: Broker, b': Broker, msg: MsgId) {
    && msg in b'.sent
    && (msg in b'.wire ==> msg in b.wire && b'.wire[msg] == b.wire[msg])
    && (msg in b'.bodies ==>
          || (msg in b.bodies && b'.bodies[msg] == b.bodies[msg])
          || (msg in b.wire && b'.bodies[msg] == b.wire[msg]))
    && (msg in b.bodies ==> msg in b'.bodies && b'.bodies[msg] == b.bodies[msg])
  }

  lemma MovedKeepsContent(b: Broker, traffic: Traffic)
    requires Conserved(b) && Possible(b, traffic)
    ensures BodiesGrow(b.bodies, Moved(b, traffic).bodies)
    ensures forall msg :: msg in b.sent ==> KeepsContent(b, Moved(b, traffic), msg)
  {}

  /** An outstanding delivery keeps its holder and its count; a new one was just handed out. */
  lemma MovedOutstanding(b: Broker, traffic: Traffic, msg: MsgId)
    requires Conserved(b) && Possible(b, traffic) && msg in Moved(b, traffic).unacked
    ensures msg in b.unacked && msg in b.counts ==>
              && Moved(b, traffic).unacked[msg] == b.unacked[msg]
              && msg in Moved(b, traffic).counts && Moved(b, traffic).counts[msg] == b.counts[msg]
    ensures msg !in b.unacked ==>
              && traffic.Hands? && traffic.msg == msg && Moved(b, traffic).unacked[msg] == traffic.tag
              && msg in b.counts && Moved(b, traffic).counts == b.counts
  {}

  /** Where a stored message is not in the queue, one delivery is the last. */
  function Settling(b: Broker, msg: MsgId): int {
    if msg in b.bodies && msg !in b.ready then 1 else 0
  }

  lemma MovedBalance(b: Broker, traffic: Traffic, msg: MsgId)
    requires Conserved(b) && Possible(b, traffic)
    ensures Settling(Moved(b, traffic), msg) - Settling(b, msg)
         == (if traffic.Hands? && traffic.msg == msg then 1 else 0)
          - (if traffic.TakesBack? && traffic.msg == msg then 1 else 0)
          - (if traffic.Settles? && traffic.msg == msg && traffic.answer.Requeue? then 1 else 0)
  {}

  /** Counts never fall, and a requeue makes its message's grow. */
  lemma MovedCounts(b: Broker, traffic: Traffic, msg: MsgId)
    requires Conserved(b) && Possible(b, traffic)
    ensures msg in b.counts ==> msg in Moved(b, traffic).counts && Moved(b, traffic).counts[msg] >= b.counts[msg]
    ensures traffic.Settles? && traffic.msg == msg && traffic.answer.Requeue? ==>
              msg in b.counts && Moved(b, traffic).counts[msg] > b.counts[msg]
  {}
}
