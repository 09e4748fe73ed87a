/**
 Merchant webhooks: delivery with retries, backoff and a dead-letter queue, by a consumer that
 never crashes.  Every published event is accounted for exactly once.
 */
module Webhooks {
  import opened Tables

  const TWO_32 := 0x1_0000_0000

  type int32 = x: int | -0x8000_0000 <= x < 0x8000_0000

  /** The x-retry-count header as the consumer may find it. */
  datatype Header = NoHeader | Int32(n: int32) | PlainInt(m: int) | OtherType

  /** A queued message: the event, or a body that does not parse. */
  datatype Message = Message(event: Option<Id>, header: Header)

  const MAX_RETRIES := 3

  function ToInt32(n: int): int32 {
    (n + 0x8000_0000) % TWO_32 - 0x8000_0000
  }

  function RetryCount(header: Header): int32 {
    match header
    case Int32(n) => n
    case PlainInt(m) => ToInt32(m)
    case _ => 0
  }

  /** The count read is determined for every header: an int32 is itself, an int is the one int32 that agrees
      with it in the low 32 bits, and anything else is zero. */
  lemma CountReadIsDetermined(header: Header, r: int32)
    ensures r == RetryCount(header) <==>
      match header
      case Int32(n) => r == n
      case PlainInt(m) => (r - m) % TWO_32 == 0
      case _ => r == 0
  {
  }

  /** Published by EnqueueMerchantWebhook, or republished after `retries` failures. */
  function Outgoing(event: Id, retries: int32): Message {
    Message(Some(event), Int32(retries))
  }

  /** Seconds slept before the next attempt; time.Sleep of a negative duration returns at once. */
  function Backoff(retryCount: int): nat {
    if retryCount < 0 then 0 else (retryCount + 1) * 2
  }

  /** The queue and where events have ended: delivered (2xx, or no URL), dead-lettered, unparsable, or lost to
      an ignored publish error; and how often each was attempted and how long it was backed off. */
  datatype Broker = Broker(queue: seq<Message>, delivered: multiset<Id>, dead: multiset<Id>, rejected: nat,
                           lost: multiset<Id>, attempts: map<Id, nat>, waited: map<Id, nat>)

  function Times(counts: map<Id, nat>, event: Id): nat {
    if event in counts then counts[event] else 0
  }

  function Published(b: Broker, event: Id, publishOk: bool): Broker {
    if publishOk then b.(queue := b.queue + [Outgoing(event, 0)])
    else b.(lost := b.lost + multiset{event})
  }

  /** One pass of the consumer loop over the message at the head of the queue. */
  function Handled(b: Broker, sendOk: bool, publishOk: bool): Broker
    requires b.queue != []
  {
    var d, rest := b.queue[0], b.(queue := b.queue[1..]);
    if d.event.None? then rest.(rejected := b.rejected + 1)
    else
      var event, retryCount := d.event.value, RetryCount(d.header);
      var tried := rest.(attempts := b.attempts[event := Times(b.attempts, event) + 1]);
      if sendOk then tried.(delivered := b.delivered + multiset{event})
      else if retryCount < MAX_RETRIES then
        var slept := tried.(waited := b.waited[event := Times(b.waited, event) + Backoff(retryCount)]);
        if publishOk then slept.(queue := slept.queue + [Outgoing(event, retryCount + 1)])
        else slept.(lost := b.lost + multiset{event})
      else tried.(dead := b.dead + multiset{event})
  }

  class MerchantWebhookConsumer {
    var broker: Broker

    constructor ()
      ensures broker == Broker([], multiset{}, multiset{}, 0, multiset{}, map[], map[])
      ensures Sound(broker, multiset{})
    {
      broker := Broker([], multiset{}, multiset{}, 0, multiset{}, map[], map[]);
    }

    /** The durable half of EnqueueMerchantWebhook; a missing client or a publish error is only logged. */
    method Enqueue(event: Id, publishOk: bool)
      modifies this
      ensures broker == Published(old(broker), event, publishOk)
    {
      if publishOk {
        broker := broker.(queue := broker.queue + [Outgoing(event, 0)]);
      } else {
        broker := broker.(lost := broker.lost + multiset{event});
      }
    }

    method HandleDelivery(sendOk: bool, publishOk: bool)
      requires broker.queue != []
      modifies this
      ensures broker == Handled(old(broker), sendOk, publishOk)
    {
      var d, b := broker.queue[0], broker.(queue := broker.queue[1..]);
      if d.event.None? {
        broker := b.(rejected := b.rejected + 1);
        return;
      }
      var event := d.event.value;
      var retryCount := ReadRetryCount(d.header);
      b := b.(attempts := b.attempts[event := Times(b.attempts, event) + 1]);
      if sendOk {
        broker := b.(delivered := b.delivered + multiset{event});
      } else if retryCount < MAX_RETRIES {
        b := b.(waited := b.waited[event := Times(b.waited, event) + Backoff(retryCount)]);
        if publishOk {
          broker := b.(queue := b.queue + [Outgoing(event, retryCount + 1)]);
        } else {
          broker := b.(lost := b.lost + multiset{event});
        }
      } else {
        broker := b.(dead := b.dead + multiset{event});
      }
    }

    method ReadRetryCount(header: Header) returns (retryCount: int32)
      ensures retryCount == RetryCount(header)
    {
      retryCount := 0;
      if header.Int32? {
        retryCount := header.n;
      } else if header.PlainInt? {
        retryCount := ToInt32(header.m);
      }
    }

    /** The loop over deliveries, until the queue is empty; the i-th delivery has outcome (send, publish). */
    method ConsumeAll(outcomes: nat -> (bool, bool), ghost published: multiset<Id>)
      requires Sound(broker, published)
      modifies this
      ensures Sound(broker, published) && broker.queue == []
      ensures broker.delivered + broker.dead + broker.lost == published
      ensures (forall i: nat :: outcomes(i).1) ==> broker.lost == old(broker.lost)
    {
      var i := 0;
      while broker.queue != []
        invariant Sound(broker, published)
        invariant (forall i: nat :: outcomes(i).1) ==> broker.lost == old(broker.lost)
        decreases Work(broker.queue)
      {
        HandlingKeepsSound(broker, outcomes(i).0, outcomes(i).1, published);
        HandleDelivery(outcomes(i).0, outcomes(i).1);
        i := i + 1;
      }
    }
  }

  // ----- accounting -----

  function Events(queue: seq<Message>): multiset<Id> {
    if queue == [] then multiset{}
    else Events(queue[1..]) + if queue[0].event.Some? then multiset{queue[0].event.value} else multiset{}
  }

  /** Deliveries still possible: each message can be tried 4 - retries more times. */
  function Work(queue: seq<Message>): nat {
    if queue == [] then 0
    else
      var r := RetryCount(queue[0].header);
      Work(queue[1..]) + if r <= MAX_RETRIES then MAX_RETRIES + 1 - r else 1
  }

  /** The message is an event on its attempt number retries + 1, after backing off 2 + 4 + ... seconds. */
  ghost predicate InProgress(b: Broker, m: Message) {
    && m.event.Some? && m.header.Int32? && 0 <= m.header.n <= MAX_RETRIES
    && Times(b.attempts, m.event.value) == m.header.n
    && Times(b.waited, m.event.value) == m.header.n * (m.header.n + 1)
  }

  /** Each published event is exactly once in the queue, delivered, dead-lettered or lost. */
  ghost predicate Accounted(b: Broker, published: multiset<Id>) {
    && Everywhere(Events(b.queue), b) == published
    && (forall e :: published[e] <= 1)
    && (forall i | 0 <= i < |b.queue| :: InProgress(b, b.queue[i]))
  }

  /** No event is tried more than four times or backed off more than twelve seconds in all. */
  ghost predicate Bounded(b: Broker, published: multiset<Id>) {
    && (forall e :: Times(b.attempts, e) <= MAX_RETRIES + 1)
    && (forall e :: Times(b.waited, e) <= 12)
    && (forall e | e !in published :: Times(b.attempts, e) == 0)
    && (forall e | e !in published :: Times(b.waited, e) == 0)
  }

  /** Every dead-lettered event has been tried and backed off to the end. */
  ghost predicate DeadAreExhausted(b: Broker) {
    forall e | e in b.dead :: IsExhausted(b, e)
  }

  /** The event has been tried four times, with two, four and six seconds between. */
  ghost predicate IsExhausted(b: Broker, event: Id) {
    Times(b.attempts, event) == 4 && Times(b.waited, event) == 2 + 4 + 6
  }

  ghost predicate Sound(b: Broker, published: multiset<Id>) {
    Accounted(b, published) && Bounded(b, published) && DeadAreExhausted(b)
  }

  lemma {:induction false} EventsAppend(queue: seq<Message>, m: Message)
    ensures Events(queue + [m]) == Events(queue) + Events([m])
    ensures Work(queue + [m]) == Work(queue) + Work([m])
  {
    if queue == [] {
      assert queue + [m] == [m];
    } else {
      assert (queue + [m])[1..] == queue[1..] + [m];
      EventsAppend(queue[1..], m);
    }
  }

  lemma {:induction false} QueuedEvent(queue: seq<Message>, i: nat)
    requires i < |queue| && queue[i].event.Some?
    ensures Events(queue)[queue[i].event.value] >= 1
  {
    if i > 0 {
      QueuedEvent(queue[1..], i - 1);
    }
  }

  /** The event at the head of the queue is nowhere else. */
  lemma HeadIsAlone(b: Broker, published: multiset<Id>)
    requires Accounted(b, published) && b.queue != []
    ensures b.queue[0].event.Some?
    ensures forall i | 1 <= i < |b.queue| :: b.queue[i].event != b.queue[0].event
  {
    assert InProgress(b, b.queue[0]);
    forall i | 1 <= i < |b.queue| ensures b.queue[i].event != b.queue[0].event {
      assert InProgress(b, b.queue[i]);
      QueuedEvent(b.queue[1..], i - 1);
      assert published[b.queue[0].event.value] <= 1;
    }
  }

  /** Every place an event can be. */
  function Everywhere(queued: multiset<Id>, b: Broker): multiset<Id> {
    queued + b.delivered + b.dead + b.lost
  }

  /** A message that does not parse leaves the queue for good, whatever happens, and touches no event. */
  lemma UnparsableIsRejected(b: Broker, sendOk: bool, publishOk: bool)
    requires b.queue != [] && b.queue[0].event.None?
    ensures var b' := Handled(b, sendOk, publishOk);
      && b'.queue == b.queue[1..] && b'.rejected == b.rejected + 1 && Events(b'.queue) == Events(b.queue)
      && b'.delivered == b.delivered && b'.dead == b.dead && b'.lost == b.lost
      && b'.attempts == b.attempts && b'.waited == b.waited
  {
  }

  /** A count written by a republish is read back as it was written, one more than the count before. */
  lemma RepublishedCountIsRead(b: Broker)
    requires b.queue != [] && b.queue[0].event.Some? && RetryCount(b.queue[0].header) < MAX_RETRIES
    ensures var next := Handled(b, false, true).queue;
      && next == b.queue[1..] + [Outgoing(b.queue[0].event.value, RetryCount(b.queue[0].header) + 1)]
      && next[|next| - 1].event == b.queue[0].event
      && RetryCount(next[|next| - 1].header) == RetryCount(b.queue[0].header) + 1
  {
  }

  /** Where the handled event goes. */
  lemma HandledQueue(b: Broker, sendOk: bool, publishOk: bool)
    requires b.queue != [] && InProgress(b, b.queue[0])
    ensures var b', e, r := Handled(b, sendOk, publishOk), multiset{b.queue[0].event.value}, b.queue[0].header.n;
      && b'.queue == (if !sendOk && r < MAX_RETRIES && publishOk
                      then b.queue[1..] + [Outgoing(b.queue[0].event.value, r + 1)] else b.queue[1..])
      && b'.delivered == (if sendOk then b.delivered + e else b.delivered)
      && b'.dead == (if !sendOk && r == MAX_RETRIES then b.dead + e else b.dead)
      && b'.lost == (if !sendOk && r < MAX_RETRIES && !publishOk then b.lost + e else b.lost)
  {
  }

  /** The handled event leaves the head of the queue for exactly one other place. */
  lemma HandlingMovesOneEvent(b: Broker, sendOk: bool, publishOk: bool)
    requires b.queue != [] && InProgress(b, b.queue[0])
    ensures Everywhere(Events(Handled(b, sendOk, publishOk).queue), Handled(b, sendOk, publishOk))
      == Everywhere(Events(b.queue), b)
  {
    var event := b.queue[0].event.value;
    var next := Outgoing(event, b.queue[0].header.n + 1);
    HandledQueue(b, sendOk, publishOk);
    EventsAppend(b.queue[1..], next);
    assert Events([next]) == multiset{event};
    Regroup(Events(b.queue[1..]), b.delivered, b.dead, b.lost, multiset{event});
  }

  lemma Regroup(q: multiset<Id>, x: multiset<Id>, y: multiset<Id>, z: multiset<Id>, e: multiset<Id>)
    ensures q + (x + e) + y + z == (q + e) + x + y + z
    ensures q + x + (y + e) + z == (q + e) + x + y + z
    ensures q + x + y + (z + e) == (q + e) + x + y + z
  {
  }

  lemma HandlingDoesWork(b: Broker, sendOk: bool, publishOk: bool)
    requires b.queue != [] && InProgress(b, b.queue[0])
    ensures Work(Handled(b, sendOk, publishOk).queue) < Work(b.queue)
  {
    HandledQueue(b, sendOk, publishOk);
    if b.queue[0].header.n < MAX_RETRIES {
      EventsAppend(b.queue[1..], Outgoing(b.queue[0].event.value, b.queue[0].header.n + 1));
    }
  }

  lemma HandlingKeepsAccount(b: Broker, sendOk: bool, publishOk: bool, published: multiset<Id>)
    requires Accounted(b, published) && b.queue != []
    ensures Accounted(Handled(b, sendOk, publishOk), published)
  {
    var b' := Handled(b, sendOk, publishOk);
    HeadIsAlone(b, published);
    assert InProgress(b, b.queue[0]);
    HandlingMovesOneEvent(b, sendOk, publishOk);
    forall i | 0 <= i < |b'.queue| ensures InProgress(b', b'.queue[i]) {
      if i < |b.queue| - 1 {
        OthersStayInProgress(b, sendOk, publishOk, b.queue[i + 1]);
      } else {
        NextAttempt(b, sendOk, publishOk);
      }
    }
  }

  lemma OthersStayInProgress(b: Broker, sendOk: bool, publishOk: bool, m: Message)
    requires b.queue != [] && InProgress(b, m) && m.event != b.queue[0].event
    ensures InProgress(Handled(b, sendOk, publishOk), m)
  {
  }

  /** A republished message carries one more retry and the backoff slept so far. */
  lemma NextAttempt(b: Broker, sendOk: bool, publishOk: bool)
    requires b.queue != [] && InProgress(b, b.queue[0]) && !sendOk && publishOk && b.queue[0].header.n < MAX_RETRIES
    ensures InProgress(Handled(b, sendOk, publishOk), Outgoing(b.queue[0].event.value, b.queue[0].header.n + 1))
  {
  }

  /** Only the head's counts change: one attempt more, and the backoff of its retry count. */
  lemma HandlingCounts(b: Broker, sendOk: bool, publishOk: bool, e: Id)
    requires b.queue != [] && InProgress(b, b.queue[0])
    ensures var b', r := Handled(b, sendOk, publishOk), b.queue[0].header.n;
      if e == b.queue[0].event.value then
        Times(b'.attempts, e) == r + 1
        && Times(b'.waited, e) == if sendOk || r == MAX_RETRIES then r * (r + 1) else (r + 1) * (r + 2)
      else Times(b'.attempts, e) == Times(b.attempts, e) && Times(b'.waited, e) == Times(b.waited, e)
  {
  }

  lemma BackoffIsBounded(r: int)
    requires 0 <= r <= MAX_RETRIES
    ensures r * (r + 1) <= 12
    ensures r < MAX_RETRIES ==> (r + 1) * (r + 2) <= 12
  {
    assert r == 0 || r == 1 || r == 2 || r == 3;
  }

  lemma HandlingKeepsBounds(b: Broker, sendOk: bool, publishOk: bool, published: multiset<Id>)
    requires Sound(b, published) && b.queue != []
    ensures Bounded(Handled(b, sendOk, publishOk), published)
  {
    var b' := Handled(b, sendOk, publishOk);
    assert InProgress(b, b.queue[0]);
    QueuedEvent(b.queue, 0);
    assert b.queue[0].event.value in published;
    BackoffIsBounded(b.queue[0].header.n);
    forall e ensures Times(b'.attempts, e) <= MAX_RETRIES + 1 && Times(b'.waited, e) <= 12 {
      HandlingCounts(b, sendOk, publishOk, e);
      assert Times(b.attempts, e) <= MAX_RETRIES + 1 && Times(b.waited, e) <= 12;
    }
    forall e | e !in published ensures Times(b'.attempts, e) == 0 && Times(b'.waited, e) == 0 {
      HandlingCounts(b, sendOk, publishOk, e);
      assert Times(b.attempts, e) == 0 && Times(b.waited, e) == 0;
    }
  }

  lemma HeadIsNotDead(b: Broker, published: multiset<Id>)
    requires Accounted(b, published) && b.queue != []
    ensures b.queue[0].event.Some? && b.queue[0].event.value !in b.dead
  {
    assert InProgress(b, b.queue[0]);
    QueuedEvent(b.queue, 0);
    assert Everywhere(Events(b.queue), b)[b.queue[0].event.value] <= 1;
  }

  lemma DeadIsExhausted(b: Broker, sendOk: bool, publishOk: bool, published: multiset<Id>, e: Id)
    requires Sound(b, published) && b.queue != [] && e in Handled(b, sendOk, publishOk).dead
    ensures IsExhausted(Handled(b, sendOk, publishOk), e)
  {
    assert InProgress(b, b.queue[0]);
    HeadIsNotDead(b, published);
    HandledQueue(b, sendOk, publishOk);
    HandlingCounts(b, sendOk, publishOk, e);
    assert e != b.queue[0].event.value ==> IsExhausted(b, e);
  }

  /** One pass of the loop keeps the account, does part of the work left, and loses nothing unless a
      publish fails. */
  lemma HandlingKeepsSound(b: Broker, sendOk: bool, publishOk: bool, published: multiset<Id>)
    requires Sound(b, published) && b.queue != []
    ensures Sound(Handled(b, sendOk, publishOk), published)
    ensures Work(Handled(b, sendOk, publishOk).queue) < Work(b.queue)
    ensures publishOk ==> Handled(b, sendOk, publishOk).lost == b.lost
  {
    assert InProgress(b, b.queue[0]);
    HandlingDoesWork(b, sendOk, publishOk);
    HandlingKeepsAccount(b, sendOk, publishOk, published);
    HandlingKeepsBounds(b, sendOk, publishOk, published);
    forall e | e in Handled(b, sendOk, publishOk).dead ensures IsExhausted(Handled(b, sendOk, publishOk), e) {
      DeadIsExhausted(b, sendOk, publishOk, published, e);
    }
  }

  /** Publishing a new event keeps the account. */
  lemma PublishingKeepsSound(b: Broker, event: Id, publishOk: bool, published: multiset<Id>)
    requires Sound(b, published) && event !in published
    ensures Sound(Published(b, event, publishOk), published + multiset{event})
  {
    PublishingKeepsAccount(b, event, publishOk, published);
    PublishingKeepsBounds(b, event, publishOk, published);
    assert forall e | e in b.dead :: IsExhausted(b, e) && IsExhausted(Published(b, event, publishOk), e);
  }

  lemma PublishingKeepsBounds(b: Broker, event: Id, publishOk: bool, published: multiset<Id>)
    requires Bounded(b, published)
    ensures Bounded(Published(b, event, publishOk), published + multiset{event})
  {
  }

  lemma PublishingKeepsAccount(b: Broker, event: Id, publishOk: bool, published: multiset<Id>)
    requires Accounted(b, published) && Bounded(b, published) && event !in published
    ensures Accounted(Published(b, event, publishOk), published + multiset{event})
  {
    var b' := Published(b, event, publishOk);
    PublishedIsAccounted(b, event, publishOk, published);
    forall i | 0 <= i < |b'.queue| ensures InProgress(b', b'.queue[i]) {
      if i < |b.queue| {
        assert InProgress(b, b.queue[i]);
      }
    }
  }

  lemma PublishedIsAccounted(b: Broker, event: Id, publishOk: bool, published: multiset<Id>)
    requires Everywhere(Events(b.queue), b) == published
    ensures var b' := Published(b, event, publishOk);
      Everywhere(Events(b'.queue), b') == published + multiset{event}
  {
    var first := Outgoing(event, 0);
    EventsAppend(b.queue, first);
    assert Events([first]) == multiset{event};
    var q, x, y, z, e := Events(b.queue), b.delivered, b.dead, b.lost, multiset{event};
    assert q + x + y + (z + e) == (q + x + y + z) + e;
    assert (q + e) + x + y + z == (q + x + y + z) + e;
  }

  // ----- whole runs: publications and deliveries in any order -----

  datatype Happening = Publish(event: Id, ok: bool) | Deliver(sendOk: bool, publishOk: bool)

  /** A broker and the events published so far. */
  datatype Ledger = Ledger(broker: Broker, published: multiset<Id>)

  /** A delivery needs a message, and a published event is new. */
  ghost predicate CanHappen(l: Ledger, h: Happening) {
    match h
    case Publish(e, _) => e !in l.published
    case Deliver(_, _) => l.broker.queue != []
  }

  function Happened(l: Ledger, h: Happening): Ledger
    requires h.Deliver? ==> l.broker.queue != []
  {
    match h
    case Publish(e, ok) => Ledger(Published(l.broker, e, ok), l.published + multiset{e})
    case Deliver(sent, ok) => Ledger(Handled(l.broker, sent, ok), l.published)
  }

  lemma HappeningKeepsSound(l: Ledger, h: Happening)
    requires Sound(l.broker, l.published) && CanHappen(l, h)
    ensures Sound(Happened(l, h).broker, Happened(l, h).published)
  {
    match h
    case Publish(e, ok) => PublishingKeepsSound(l.broker, e, ok, l.published);
    case Deliver(sent, ok) => HandlingKeepsSound(l.broker, sent, ok, l.published);
  }

  /** This happening loses the event: its own publication fails, or its delivery fails with retries left and
      then its own republish fails. */
  predicate Loses(l: Ledger, h: Happening, event: Id) {
    match h
    case Publish(e, ok) => e == event && !ok
    case Deliver(sent, ok) =>
      && l.broker.queue != [] && l.broker.queue[0].event == Some(event) && !sent && !ok
      && RetryCount(l.broker.queue[0].header) < MAX_RETRIES
  }

  lemma LostByHappening(l: Ledger, h: Happening, event: Id)
    requires CanHappen(l, h)
    ensures event in Happened(l, h).broker.lost <==> event in l.broker.lost || Loses(l, h, event)
  {
  }

  ghost predicate Possible(l: Ledger, run: seq<Happening>)
    decreases |run|
  {
    run != [] ==> CanHappen(l, run[0]) && Possible(Happened(l, run[0]), run[1..])
  }

  ghost function LedgerAfter(l: Ledger, run: seq<Happening>): Ledger
    requires Possible(l, run)
    decreases |run|
  {
    if run == [] then l else LedgerAfter(Happened(l, run[0]), run[1..])
  }

  ghost predicate LosesAlong(l: Ledger, run: seq<Happening>, event: Id)
    requires Possible(l, run)
    decreases |run|
  {
    run != [] && (Loses(l, run[0], event) || LosesAlong(Happened(l, run[0]), run[1..], event))
  }

  /** After any run every published event is accounted for exactly once, within four attempts and twelve
      seconds of backoff; and an event counts as lost exactly when a publish of its own lost it. */
  lemma {:induction false} RunKeepsSound(l: Ledger, run: seq<Happening>)
    requires Sound(l.broker, l.published) && Possible(l, run)
    ensures Sound(LedgerAfter(l, run).broker, LedgerAfter(l, run).published)
    ensures forall e ::
      e in LedgerAfter(l, run).broker.lost <==> e in l.broker.lost || LosesAlong(l, run, e)
    decreases |run|
  {
    if run != [] {
      HappeningKeepsSound(l, run[0]);
      RunKeepsSound(Happened(l, run[0]), run[1..]);
      forall e
        ensures e in LedgerAfter(l, run).broker.lost <==> e in l.broker.lost || LosesAlong(l, run, e)
      {
        LostByHappening(l, run[0], e);
      }
    }
  }

  /** The event is at the head of the queue, and this delivery of it gets a 2xx answer. */
  predicate Delivers(l: Ledger, h: Happening, event: Id) {
    h.Deliver? && h.sendOk && l.broker.queue != [] && l.broker.queue[0].event == Some(event)
  }

  /** The event is at the head of the queue with no retry left, and this delivery of it fails too. */
  predicate Exhausts(l: Ledger, h: Happening, event: Id) {
    && h.Deliver? && !h.sendOk && l.broker.queue != [] && l.broker.queue[0].event == Some(event)
    && RetryCount(l.broker.queue[0].header) >= 3
  }

  ghost predicate DeliversAlong(l: Ledger, run: seq<Happening>, event: Id)
    requires Possible(l, run)
    decreases |run|
  {
    run != [] && (Delivers(l, run[0], event) || DeliversAlong(Happened(l, run[0]), run[1..], event))
  }

  ghost predicate ExhaustsAlong(l: Ledger, run: seq<Happening>, event: Id)
    requires Possible(l, run)
    decreases |run|
  {
    run != [] && (Exhausts(l, run[0], event) || ExhaustsAlong(Happened(l, run[0]), run[1..], event))
  }

  lemma OutcomeByHappening(l: Ledger, h: Happening, event: Id)
    requires CanHappen(l, h)
    ensures event in Happened(l, h).broker.delivered <==> event in l.broker.delivered || Delivers(l, h, event)
    ensures event in Happened(l, h).broker.dead <==> event in l.broker.dead || Exhausts(l, h, event)
  {
  }

  /** Over any run an event becomes delivered exactly when a delivery of it succeeds, and dead-lettered exactly
      when one fails with no retry left. */
  lemma {:induction false} OutcomesAlong(l: Ledger, run: seq<Happening>, event: Id)
    requires Possible(l, run)
    ensures event in LedgerAfter(l, run).broker.delivered
      <==> event in l.broker.delivered || DeliversAlong(l, run, event)
    ensures event in LedgerAfter(l, run).broker.dead <==> event in l.broker.dead || ExhaustsAlong(l, run, event)
    decreases |run|
  {
    if run != [] {
      OutcomeByHappening(l, run[0], event);
      OutcomesAlong(Happened(l, run[0]), run[1..], event);
    }
  }

  /** The event is in the queue, delivered or dead-lettered. */
  predicate IsFound(b: Broker, event: Id) {
    event in Events(b.queue) || event in b.delivered || event in b.dead
  }

  /** Exactly when an event is gone, without crashes: when its own publication failed, or its own republish
      after a failed delivery did. */
  lemma GoneIffLosesAlong(l: Ledger, run: seq<Happening>, event: Id)
    requires Sound(l.broker, l.published) && Possible(l, run)
    requires event in LedgerAfter(l, run).published && event !in l.broker.lost
    ensures !IsFound(LedgerAfter(l, run).broker, event) <==> LosesAlong(l, run, event)
  {
    RunKeepsSound(l, run);
    var b := LedgerAfter(l, run).broker;
    assert Everywhere(Events(b.queue), b)[event] == 1;
  }
}
