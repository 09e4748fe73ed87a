/**
 The webhook consumer with crashes: the broker redelivers unacknowledged messages, and because a
 retry is republished before the old copy is acknowledged, an event disappears only when its own
 publishes fail.
 */
module WebhookCrashes {
  import opened Tables
  import Webhooks

  /** A queued copy of an event, with its retry count. */
  datatype Copy = Copy(event: Id, retries: int)

  /** Where the consumer is in its loop body, on the first unacknowledged copy. */
  datatype Stage = Idle | Handling(copy: Copy) | Sent(copy: Copy, ok: bool) | Republished(copy: Copy, ok: bool)

  /** `ready` and `unacked` are the broker's; `lost` are the events one of whose publishes failed, which other
      copies may outlive. */
  datatype Sys = Sys(ready: seq<Copy>, unacked: seq<Copy>, stage: Stage,
                     published: set<Id>, delivered: set<Id>, dead: set<Id>, lost: set<Id>)

  const PREFETCH := 10

  datatype Step = Publish(event: Id, ok: bool) | Fetch | Take | Send(ok: bool) | Republish(ok: bool)
                | Ack | Nack | Crash

  const EMPTY := Sys([], [], Idle, {}, {}, {}, {})

  predicate Enabled(n: Sys, step: Step) {
    match step
    case Publish(_, _) => true
    case Fetch => n.ready != [] && |n.unacked| < PREFETCH
    case Take => n.stage.Idle? && n.unacked != []
    case Send(_) => n.stage.Handling?
    case Republish(_) => n.stage.Sent? && !n.stage.ok && n.stage.copy.retries < Webhooks.MAX_RETRIES
    case Ack => n.unacked != [] && ((n.stage.Sent? && n.stage.ok) || n.stage.Republished?)
    case Nack => n.unacked != [] && n.stage.Sent? && !n.stage.ok && n.stage.copy.retries >= Webhooks.MAX_RETRIES
    case Crash => true
  }

  function Apply(n: Sys, step: Step): Sys
    requires Enabled(n, step)
  {
    match step
    case Publish(e, ok) =>
      if ok then n.(ready := n.ready + [Copy(e, 0)], published := n.published + {e})
      else n.(published := n.published + {e}, lost := n.lost + {e})
    case Fetch => n.(ready := n.ready[1..], unacked := n.unacked + [n.ready[0]])
    case Take => n.(stage := Handling(n.unacked[0]))
    case Send(ok) =>
      n.(stage := Sent(n.stage.copy, ok),
         delivered := if ok then n.delivered + {n.stage.copy.event} else n.delivered)
    case Republish(ok) =>
      var c := n.stage.copy;
      if ok then n.(stage := Republished(c, true), ready := n.ready + [Copy(c.event, c.retries + 1)])
      else n.(stage := Republished(c, false), lost := n.lost + {c.event})
    case Ack => n.(stage := Idle, unacked := n.unacked[1..])
    case Nack => n.(stage := Idle, unacked := n.unacked[1..], dead := n.dead + {n.stage.copy.event})
    case Crash => n.(stage := Idle, ready := n.unacked + n.ready, unacked := [])
  }

  function EventsIn(copies: seq<Copy>): set<Id> {
    set c | c in copies :: c.event
  }

  /** Where an event can still be found, without the copy being handled. */
  function Elsewhere(n: Sys): set<Id> {
    EventsIn(n.ready) + (if n.unacked == [] then {} else EventsIn(n.unacked[1..])) + n.delivered + n.dead + n.lost
  }

  /** No published event has disappeared. */
  ghost predicate NothingDisappeared(n: Sys) {
    n.published <= EventsIn(n.ready) + EventsIn(n.unacked) + n.delivered + n.dead + n.lost
  }

  ghost predicate Inv(n: Sys) {
    && NothingDisappeared(n)
    && (forall c | c in n.ready + n.unacked :: 0 <= c.retries <= Webhooks.MAX_RETRIES)
    && |n.unacked| <= PREFETCH
    && (!n.stage.Idle? ==> n.unacked != [] && n.stage.copy == n.unacked[0])
    && (n.stage.Sent? && n.stage.ok ==> n.stage.copy.event in n.delivered)
    && (n.stage.Republished? ==> n.stage.copy.event in Elsewhere(n))
  }

  lemma EventsConcat(a: seq<Copy>, b: seq<Copy>)
    ensures EventsIn(a + b) == EventsIn(a) + EventsIn(b)
  {
    forall e | e in EventsIn(a) + EventsIn(b) ensures e in EventsIn(a + b) {
      var c :| c in a + b && c.event == e;
    }
  }

  /** The head of a queue and the rest of it. */
  lemma EventsSplit(a: seq<Copy>)
    requires a != []
    ensures EventsIn(a) == {a[0].event} + EventsIn(a[1..])
  {
    assert a == [a[0]] + a[1..];
    EventsConcat([a[0]], a[1..]);
    assert EventsIn([a[0]]) == {a[0].event} by {
      assert a[0] in [a[0]];
    }
  }

  lemma QueueStepKeepsInv(n: Sys, step: Step)
    requires Inv(n) && Enabled(n, step) && (step.Publish? || step.Fetch? || step.Crash?)
    ensures Inv(Apply(n, step))
  {
    match step
    case Publish(e, _) =>
      EventsConcat(n.ready, [Copy(e, 0)]);
      EventsSplit([Copy(e, 0)]);
    case Fetch =>
      EventsSplit(n.ready);
      EventsConcat(n.unacked, [n.ready[0]]);
      EventsSplit([n.ready[0]]);
      if n.unacked != [] {
        assert (n.unacked + [n.ready[0]])[1..] == n.unacked[1..] + [n.ready[0]];
        EventsConcat(n.unacked[1..], [n.ready[0]]);
      }
    case Crash =>
      EventsConcat(n.unacked, n.ready);
  }

  lemma ConsumerStepKeepsInv(n: Sys, step: Step)
    requires Inv(n) && Enabled(n, step) && !step.Publish? && !step.Fetch? && !step.Crash?
    ensures Inv(Apply(n, step))
  {
    match step
    case Republish(ok) =>
      var next := Copy(n.stage.copy.event, n.stage.copy.retries + 1);
      EventsConcat(n.ready, [next]);
      EventsSplit([next]);
      assert n.stage.copy in n.ready + n.unacked;
    case Ack => EventsSplit(n.unacked);
    case Nack => EventsSplit(n.unacked);
    case _ =>
  }

  lemma StepKeepsInv(n: Sys, step: Step)
    requires Inv(n) && Enabled(n, step)
    ensures Inv(Apply(n, step))
  {
    if step.Publish? || step.Fetch? || step.Crash? {
      QueueStepKeepsInv(n, step);
    } else {
      ConsumerStepKeepsInv(n, step);
    }
  }

  /** Only a copy that has been retried three times is dead-lettered. */
  lemma OnlyExhaustedIsRejected(n: Sys)
    requires Inv(n) && Enabled(n, Nack)
    ensures n.stage.copy == n.unacked[0] && n.unacked[0].retries == 3
    ensures n.unacked[0].event in Apply(n, Nack).dead && Apply(n, Nack).unacked == n.unacked[1..]
  {
    assert n.unacked[0] in n.ready + n.unacked;
  }

  ghost predicate Behaves(n: Sys, trace: seq<Step>)
    decreases |trace|
  {
    trace != [] ==> Enabled(n, trace[0]) && Behaves(Apply(n, trace[0]), trace[1..])
  }

  ghost function After(n: Sys, trace: seq<Step>): Sys
    requires Behaves(n, trace)
    decreases |trace|
  {
    if trace == [] then n else After(Apply(n, trace[0]), trace[1..])
  }

  lemma {:induction false} BehaviourKeepsInv(n: Sys, trace: seq<Step>)
    requires Inv(n) && Behaves(n, trace)
    ensures Inv(After(n, trace))
    decreases |trace|
  {
    if trace != [] {
      StepKeepsInv(n, trace[0]);
      BehaviourKeepsInv(Apply(n, trace[0]), trace[1..]);
    }
  }

  // ----- when an event disappears -----

  predicate Disappeared(event: Id, n: Sys) {
    event in n.published && event !in EventsIn(n.ready) + EventsIn(n.unacked) + n.delivered + n.dead
  }

  function CopiesOf(event: Id, copies: seq<Copy>): nat {
    if copies == [] then 0 else (if copies[0].event == event then 1 else 0) + CopiesOf(event, copies[1..])
  }

  lemma {:induction false} CopiesConcat(event: Id, a: seq<Copy>, b: seq<Copy>)
    ensures CopiesOf(event, a + b) == CopiesOf(event, a) + CopiesOf(event, b)
  {
    if a == [] {
      assert a + b == b;
    } else {
      assert (a + b)[1..] == a[1..] + b;
      CopiesConcat(event, a[1..], b);
    }
  }

  lemma {:induction false} FoundIffCopies(event: Id, copies: seq<Copy>)
    ensures event in EventsIn(copies) <==> CopiesOf(event, copies) > 0
  {
    if copies != [] {
      EventsSplit(copies);
      FoundIffCopies(event, copies[1..]);
    }
  }

  /** The copies of the event that the broker holds. */
  function Held(event: Id, n: Sys): nat {
    CopiesOf(event, n.ready) + CopiesOf(event, n.unacked)
  }

  /** What one step adds to the copies the broker holds. */
  function HeldChange(event: Id, n: Sys, step: Step): int
    requires Enabled(n, step)
  {
    match step
    case Publish(e, ok) => if ok && e == event then 1 else 0
    case Republish(ok) => if ok && n.stage.copy.event == event then 1 else 0
    case Ack => if n.stage.copy.event == event then -1 else 0
    case Nack => if n.stage.copy.event == event then -1 else 0
    case _ => 0
  }

  lemma StepChangesHeld(event: Id, n: Sys, step: Step)
    requires Inv(n) && Enabled(n, step)
    ensures Held(event, Apply(n, step)) == Held(event, n) + HeldChange(event, n, step)
  {
    match step
    case Publish(e, _) => CopiesConcat(event, n.ready, [Copy(e, 0)]);
    case Fetch => CopiesConcat(event, n.unacked, [n.ready[0]]);
    case Republish(_) =>
      CopiesConcat(event, n.ready, [Copy(n.stage.copy.event, n.stage.copy.retries + 1)]);
    case Crash => CopiesConcat(event, n.unacked, n.ready);
    case _ =>
  }

  /** Publications and republishes of the event that succeeded, less its acknowledgements and rejections. */
  ghost function Balance(event: Id, n: Sys, trace: seq<Step>): int
    requires Behaves(n, trace)
    decreases |trace|
  {
    if trace == [] then 0
    else HeldChange(event, n, trace[0]) + Balance(event, Apply(n, trace[0]), trace[1..])
  }

  lemma {:induction false} HeldIsBalance(event: Id, n: Sys, trace: seq<Step>)
    requires Inv(n) && Behaves(n, trace)
    ensures Held(event, After(n, trace)) == Held(event, n) + Balance(event, n, trace)
    decreases |trace|
  {
    if trace != [] {
      StepChangesHeld(event, n, trace[0]);
      StepKeepsInv(n, trace[0]);
      HeldIsBalance(event, Apply(n, trace[0]), trace[1..]);
    }
  }

  /** Exactly when an event has disappeared, whatever crashes: it was published, never delivered and never
      dead-lettered, and every copy that a publish or republish put in the queue has been taken off it. */
  lemma DisappearedIffBalanced(event: Id, trace: seq<Step>)
    requires Behaves(EMPTY, trace)
    ensures var n := After(EMPTY, trace);
      Disappeared(event, n)
      <==> event in n.published && event !in n.delivered && event !in n.dead && Balance(event, EMPTY, trace) == 0
  {
    var n := After(EMPTY, trace);
    HeldIsBalance(event, EMPTY, trace);
    FoundIffCopies(event, n.ready);
    FoundIffCopies(event, n.unacked);
  }

  /** A copy of the event has been republished and its old copy not yet acknowledged. */
  function Doubled(event: Id, n: Sys): nat {
    if n.stage.Republished? && n.stage.ok && n.stage.copy.event == event then 1 else 0
  }

  /** Copies that publications and crashes add, less those that failed republishes drop: a crash after a
      republish leaves the old copy in the queue as well, and an acknowledgement after a failed republish
      takes the only one. */
  function Cause(event: Id, n: Sys, step: Step): int
    requires Enabled(n, step)
  {
    match step
    case Publish(e, ok) => if ok && e == event then 1 else 0
    case Crash => Doubled(event, n)
    case Ack => if n.stage.Republished? && !n.stage.ok && n.stage.copy.event == event then -1 else 0
    case _ => 0
  }

  ghost function Causes(event: Id, n: Sys, trace: seq<Step>): int
    requires Behaves(n, trace)
    decreases |trace|
  {
    if trace == [] then 0 else Cause(event, n, trace[0]) + Causes(event, Apply(n, trace[0]), trace[1..])
  }

  lemma ChangeHasCause(event: Id, n: Sys, step: Step)
    requires Inv(n) && Enabled(n, step)
    requires event !in Apply(n, step).delivered && event !in Apply(n, step).dead
    ensures HeldChange(event, n, step)
      == Cause(event, n, step) + Doubled(event, Apply(n, step)) - Doubled(event, n)
    ensures event !in n.delivered && event !in n.dead
  {
  }

  lemma {:induction false} OutcomesStay(event: Id, n: Sys, trace: seq<Step>)
    requires Behaves(n, trace)
    ensures n.delivered <= After(n, trace).delivered && n.dead <= After(n, trace).dead
    decreases |trace|
  {
    if trace != [] {
      OutcomesStay(event, Apply(n, trace[0]), trace[1..]);
    }
  }

  lemma {:induction false} BalanceHasCauses(event: Id, n: Sys, trace: seq<Step>)
    requires Inv(n) && Behaves(n, trace)
    requires event !in After(n, trace).delivered && event !in After(n, trace).dead
    ensures Balance(event, n, trace)
      == Causes(event, n, trace) + Doubled(event, After(n, trace)) - Doubled(event, n)
    decreases |trace|
  {
    if trace != [] {
      var next := Apply(n, trace[0]);
      OutcomesStay(event, next, trace[1..]);
      ChangeHasCause(event, n, trace[0]);
      StepKeepsInv(n, trace[0]);
      BalanceHasCauses(event, next, trace[1..]);
    }
  }

  /** The same by cause: a published event that was neither delivered nor dead-lettered has disappeared if and
      only if failed republishes have dropped as many copies as publications, and crashes between a republish
      and its acknowledgement, have put in the queue. */
  lemma DisappearedIffDropped(event: Id, trace: seq<Step>)
    requires Behaves(EMPTY, trace)
    ensures var n := After(EMPTY, trace);
      Disappeared(event, n)
      <==> event in n.published && event !in n.delivered && event !in n.dead
           && Causes(event, EMPTY, trace) + Doubled(event, n) == 0
  {
    var n := After(EMPTY, trace);
    DisappearedIffBalanced(event, trace);
    if event !in n.delivered && event !in n.dead {
      BalanceHasCauses(event, EMPTY, trace);
    }
  }

  /** Somewhere along the trace a publish or a republish of this event failed. */
  ghost predicate PublishFailed(event: Id, n: Sys, trace: seq<Step>)
    requires Behaves(n, trace)
    decreases |trace|
  {
    trace != []
    && (trace[0] == Publish(event, false) || (trace[0] == Republish(false) && n.stage.copy.event == event)
        || PublishFailed(event, Apply(n, trace[0]), trace[1..]))
  }

  lemma {:induction false} LostIffPublishFailed(event: Id, n: Sys, trace: seq<Step>)
    requires Behaves(n, trace)
    ensures event in After(n, trace).lost <==> event in n.lost || PublishFailed(event, n, trace)
    decreases |trace|
  {
    if trace != [] {
      LostIffPublishFailed(event, Apply(n, trace[0]), trace[1..]);
    }
  }

  /** With crashes and redeliveries between any two steps, a published event none of whose own publishes and
      republishes failed is still queued, delivered or dead-lettered; and no copy is ever retried more than
      three times. */
  lemma NoEventDisappears(trace: seq<Step>, event: Id)
    requires Behaves(EMPTY, trace) && event in After(EMPTY, trace).published
    ensures !PublishFailed(event, EMPTY, trace) ==> !Disappeared(event, After(EMPTY, trace))
    ensures forall c | c in After(EMPTY, trace).ready + After(EMPTY, trace).unacked :: 0 <= c.retries <= 3
    ensures |After(EMPTY, trace).unacked| <= 10
  {
    BehaviourKeepsInv(EMPTY, trace);
    LostIffPublishFailed(event, EMPTY, trace);
  }

  /** The hypothesis is needed: a failed republish followed by its acknowledgement loses the event. */
  lemma FailedRepublishLosesEvent(event: Id)
    ensures exists trace :: Behaves(EMPTY, trace) && Disappeared(event, After(EMPTY, trace))
  {
    var copy := Copy(event, 0);
    var n1 := Sys([copy], [], Idle, {event}, {}, {}, {});
    var n2 := Sys([], [copy], Idle, {event}, {}, {}, {});
    var n6 := Sys([], [], Idle, {event}, {}, {}, {event});
    var tail := [Take, Send(false), Republish(false), Ack];
    assert Apply(EMPTY, Publish(event, true)) == n1 && Apply(n1, Fetch) == n2;
    LosingTail(n2, copy);
    var trace := [Publish(event, true), Fetch] + tail;
    assert trace[1..] == [Fetch] + tail && trace[1..][1..] == tail;
    assert Behaves(n1, trace[1..]) && After(n1, trace[1..]) == n6;
    assert Behaves(EMPTY, trace) && After(EMPTY, trace) == n6 && Disappeared(event, n6);
  }

  lemma LosingTail(n: Sys, copy: Copy)
    requires n.stage.Idle? && n.unacked == [copy] && copy.retries < Webhooks.MAX_RETRIES
    ensures Behaves(n, [Take, Send(false), Republish(false), Ack])
    ensures After(n, [Take, Send(false), Republish(false), Ack]) ==
      n.(unacked := [], lost := n.lost + {copy.event})
  {
    var t := [Take, Send(false), Republish(false), Ack];
    var a := Apply(n, Take);
    var b := Apply(a, Send(false));
    var c := Apply(b, Republish(false));
    var d := Apply(c, Ack);
    assert t[1..] == [Send(false), Republish(false), Ack];
    assert t[1..][1..] == [Republish(false), Ack];
    assert t[1..][1..][1..] == [Ack];
    assert t[1..][1..][1..][1..] == [];
    assert Behaves(d, []) && After(d, []) == d;
    assert Behaves(c, [Ack]) && After(c, [Ack]) == d;
    assert Behaves(b, [Republish(false), Ack]) && After(b, [Republish(false), Ack]) == d;
    assert Behaves(a, [Send(false), Republish(false), Ack]) && After(a, [Send(false), Republish(false), Ack]) == d;
  }
}
