/**
 Any number of transactions interleaved statement by statement under row locks, with
 commit publishing the overlay and rollback discarding it.  Every reachable committed
 state is the one-at-a-time replay of the committed operations in commit order.
 */
module Interleaving {
  import opened Tables
  import opened Programs
  import opened Specs
  import opened History

  datatype Phase = Running | Done(position: nat) | RolledBack

  /** One database transaction; `steps` counts its executed statements. */
  datatype Thread = Thread(op: Op, local: Local, steps: nat, phase: Phase)

  /** The committed tables, every transaction begun so far, and the operations in commit order. */
  datatype Sys = Sys(committed: DB, threads: seq<Thread>, log: seq<Op>)

  /** Rollback stands for every error return, for a SELECT that finds no row without waiting, for a
      failed commit and for a cancelled request: it is possible at any point. */
  datatype Step = Begin(op: Op) | Execute(thread: nat) | Commit(thread: nat) | Rollback(thread: nat)

  function Opening(base: DB): Sys {
    Sys(base, [], [])
  }

  predicate IsRunning(s: Sys, t: nat) {
    t < |s.threads| && s.threads[t].phase.Running?
  }

  /** The row the next statement of `t` must lock. */
  function Wants(th: Thread): RowId {
    Target(th.op, th.local.pc, th.local.memo)
  }

  ghost predicate Free(s: Sys, t: nat, id: RowId) {
    forall u: nat | u < |s.threads| && u != t :: id !in s.threads[u].local.locks
  }

  predicate AtEnd(th: Thread) {
    th.local.pc == End(th.op)
  }

  ghost predicate Enabled(s: Sys, step: Step) {
    match step
    case Begin(op) => Issued(op, s.committed)
    case Execute(t) => IsRunning(s, t) && !AtEnd(s.threads[t]) && Free(s, t, Wants(s.threads[t]))
    case Commit(t) => IsRunning(s, t) && AtEnd(s.threads[t])
    case Rollback(t) => IsRunning(s, t)
  }

  /** A finished transaction has released its locks and dropped its overlay. */
  function Finished(th: Thread, phase: Phase): Thread {
    th.(local := START, phase := phase)
  }

  function Executed(th: Thread, committed: DB): Thread {
    match Advance(th.op, committed, th.local)
    case Stopped(_) => Finished(th, RolledBack)
    case At(l) => th.(local := l, steps := th.steps + 1)
  }

  ghost function Apply(s: Sys, step: Step): Sys
    requires Enabled(s, step)
  {
    match step
    case Begin(op) => s.(threads := s.threads + [Thread(op, START, 0, Running)])
    case Execute(t) => s.(threads := s.threads[t := Executed(s.threads[t], s.committed)])
    case Commit(t) =>
      Sys(s.committed + s.threads[t].local.overlay,
          s.threads[t := Finished(s.threads[t], Done(|s.log|))],
          s.log + [s.threads[t].op])
    case Rollback(t) => s.(threads := s.threads[t := Finished(s.threads[t], RolledBack)])
  }

  ghost predicate Behaves(s: Sys, trace: seq<Step>)
    decreases |trace|
  {
    trace != [] ==> Enabled(s, trace[0]) && Behaves(Apply(s, trace[0]), trace[1..])
  }

  ghost function After(s: Sys, trace: seq<Step>): Sys
    requires Behaves(s, trace)
    decreases |trace|
  {
    if trace == [] then s else After(Apply(s, trace[0]), trace[1..])
  }

  /** What is known of one transaction: it has done, on the tables as they are committed now,
      exactly what its executed statements do alone. */
  ghost predicate ThreadInv(s: Sys, th: Thread) {
    match th.phase
    case Running => Issued(th.op, s.committed) && Prefix(th.op, s.committed, th.steps) == At(th.local)
    case Done(position) => position < |s.log| && s.log[position] == th.op && th.local == START
    case RolledBack => th.local == START
  }

  ghost predicate LocksAreExclusive(s: Sys) {
    forall t: nat, u: nat | t < u < |s.threads| :: s.threads[t].local.locks !! s.threads[u].local.locks
  }

  /** Log entry k was written by some transaction. */
  ghost predicate Logged(s: Sys, k: nat) {
    exists t: nat :: t < |s.threads| && s.threads[t].phase == Done(k)
  }

  /** The log has one entry for each committed transaction and no other. */
  ghost predicate LogIsOfThreads(s: Sys) {
    && (forall t: nat, u: nat | t < u < |s.threads| && s.threads[t].phase.Done? ::
          s.threads[u].phase != s.threads[t].phase)
    && (forall k: nat | k < |s.log| :: Logged(s, k))
  }

  ghost predicate Inv(base: DB, s: Sys) {
    && WellFormed(s.committed)
    && Replay(base, s.log) == Some(s.committed)
    && (forall t: nat | t < |s.threads| :: ThreadInv(s, s.threads[t]))
    && LocksAreExclusive(s)
    && LogIsOfThreads(s)
  }

  lemma OpeningHoldsInv(base: DB)
    requires WellFormed(base)
    ensures Inv(base, Opening(base))
  {
  }

  lemma BeginKeepsInv(base: DB, s: Sys, op: Op)
    requires Inv(base, s) && Enabled(s, Begin(op))
    ensures Inv(base, Apply(s, Begin(op)))
  {
    var s' := Apply(s, Begin(op));
    forall k: nat | k < |s'.log| ensures Logged(s', k) {
      assert Logged(s, k);
      var t: nat :| t < |s.threads| && s.threads[t].phase == Done(k);
      assert s'.threads[t].phase == Done(k);
    }
    forall t: nat | t < |s'.threads| ensures ThreadInv(s', s'.threads[t]) {
      if t < |s.threads| {
        assert ThreadInv(s, s.threads[t]);
      }
    }
  }

  lemma ReplaceKeepsLog(s: Sys, s': Sys, t: nat, th: Thread)
    requires LogIsOfThreads(s) && IsRunning(s, t) && !th.phase.Done?
    requires s'.threads == s.threads[t := th] && s'.log == s.log
    ensures LogIsOfThreads(s')
  {
    forall k: nat | k < |s'.log| ensures Logged(s', k) {
      assert Logged(s, k);
      var u: nat :| u < |s.threads| && s.threads[u].phase == Done(k);
      assert s'.threads[u].phase == Done(k);
    }
  }

  /** An executed statement extends the transaction's prefix, or ends it. */
  lemma ExecuteKeepsThread(s: Sys, t: nat)
    requires Enabled(s, Execute(t)) && ThreadInv(s, s.threads[t])
    ensures var th := Executed(s.threads[t], s.committed);
      && ThreadInv(s, th) && !th.phase.Done?
      && th.local.locks <= s.threads[t].local.locks + {Wants(s.threads[t])}
  {
  }

  lemma ExecuteKeepsInv(base: DB, s: Sys, t: nat)
    requires Inv(base, s) && Enabled(s, Execute(t))
    ensures Inv(base, Apply(s, Execute(t)))
  {
    var s' := Apply(s, Execute(t));
    var th := s'.threads[t];
    assert ThreadInv(s, s.threads[t]);
    ExecuteKeepsThread(s, t);
    ReplaceKeepsLog(s, s', t, th);
    forall u: nat | u < |s'.threads| ensures ThreadInv(s', s'.threads[u]) {
      if u != t {
        assert ThreadInv(s, s.threads[u]);
      }
    }
    LockingIsExclusive(s, s', t, th);
  }

  lemma LockingIsExclusive(s: Sys, s': Sys, t: nat, th: Thread)
    requires LocksAreExclusive(s) && t < |s.threads| && Free(s, t, Wants(s.threads[t]))
    requires s'.threads == s.threads[t := th]
    requires th.local.locks <= s.threads[t].local.locks + {Wants(s.threads[t])}
    ensures LocksAreExclusive(s')
  {
    forall u: nat, v: nat | u < v < |s'.threads|
      ensures s'.threads[u].local.locks !! s'.threads[v].local.locks
    {
      assert s.threads[u].local.locks !! s.threads[v].local.locks;
    }
  }

  lemma RollbackKeepsInv(base: DB, s: Sys, t: nat)
    requires Inv(base, s) && Enabled(s, Rollback(t))
    ensures Inv(base, Apply(s, Rollback(t)))
  {
    var s' := Apply(s, Rollback(t));
    ReplaceKeepsLog(s, s', t, s'.threads[t]);
    forall u: nat | u < |s'.threads| ensures ThreadInv(s', s'.threads[u]) {
      assert ThreadInv(s, s.threads[u]);
    }
  }

  /** The commit of a transaction that ran its whole program is its specified effect on the tables
      committed at that moment. */
  lemma CommitIsSpec(base: DB, s: Sys, t: nat)
    requires Inv(base, s) && Enabled(s, Commit(t))
    ensures Issued(s.threads[t].op, s.committed)
    ensures Spec(s.threads[t].op, s.committed) == Committed(s.committed + s.threads[t].local.overlay)
  {
    var th := s.threads[t];
    assert ThreadInv(s, th);
    FinishAfterPrefix(th.op, s.committed, th.steps);
    SoloIsSpec(th.op, s.committed);
  }

  /** Committing one transaction does not disturb what another has seen. */
  lemma CommitLeavesOthers(base: DB, s: Sys, t: nat, u: nat)
    requires Inv(base, s) && Enabled(s, Commit(t)) && IsRunning(s, u) && u != t
    ensures Issued(s.threads[u].op, Apply(s, Commit(t)).committed)
    ensures Prefix(s.threads[u].op, Apply(s, Commit(t)).committed, s.threads[u].steps) == At(s.threads[u].local)
  {
    var th, other := s.threads[t], s.threads[u];
    var after := Apply(s, Commit(t)).committed;
    assert ThreadInv(s, th) && ThreadInv(s, other);
    CommitIsSpec(base, s, t);
    CommitKeepsRows(th.op, s.committed);
    IssuedStaysTrue(other.op, s.committed, after);
    PrefixWritesOnlyLockedRows(th.op, s.committed, th.steps);
    assert th.local.locks !! other.local.locks;
    assert Agree(s.committed, after, other.local.locks);
    PrefixDependsOnLockedRows(other.op, s.committed, after, other.steps);
  }

  lemma CommitKeepsThreads(base: DB, s: Sys, t: nat, u: nat)
    requires Inv(base, s) && Enabled(s, Commit(t)) && u < |s.threads|
    ensures ThreadInv(Apply(s, Commit(t)), Apply(s, Commit(t)).threads[u])
  {
    assert ThreadInv(s, s.threads[u]);
    if u != t && IsRunning(s, u) {
      CommitLeavesOthers(base, s, t, u);
    }
  }

  /** The committed transaction takes the new place at the end of the log, and no other has it. */
  lemma CommitKeepsLog(s: Sys, t: nat)
    requires LogIsOfThreads(s) && Enabled(s, Commit(t))
    requires forall u: nat | u < |s.threads| && s.threads[u].phase.Done? :: s.threads[u].phase.position < |s.log|
    ensures LogIsOfThreads(Apply(s, Commit(t)))
  {
    var s' := Apply(s, Commit(t));
    forall k: nat | k < |s'.log| ensures Logged(s', k) {
      if k == |s.log| {
        assert s'.threads[t].phase == Done(k);
      } else {
        assert Logged(s, k);
        var u: nat :| u < |s.threads| && s.threads[u].phase == Done(k);
        assert s'.threads[u].phase == Done(k);
      }
    }
  }

  lemma CommitKeepsInv(base: DB, s: Sys, t: nat)
    requires Inv(base, s) && Enabled(s, Commit(t))
    ensures Inv(base, Apply(s, Commit(t)))
  {
    var s' := Apply(s, Commit(t));
    CommitIsSpec(base, s, t);
    CommitKeepsRows(s.threads[t].op, s.committed);
    ReplayExtends(base, s.log, s.threads[t].op);
    forall u: nat | u < |s'.threads| ensures ThreadInv(s', s'.threads[u]) {
      CommitKeepsThreads(base, s, t, u);
    }
    forall u: nat | u < |s.threads| && s.threads[u].phase.Done? ensures s.threads[u].phase.position < |s.log| {
      assert ThreadInv(s, s.threads[u]);
    }
    CommitKeepsLog(s, t);
  }

  lemma StepKeepsInv(base: DB, s: Sys, step: Step)
    requires Inv(base, s) && Enabled(s, step)
    ensures Inv(base, Apply(s, step))
  {
    match step
    case Begin(op) => BeginKeepsInv(base, s, op);
    case Execute(t) => ExecuteKeepsInv(base, s, t);
    case Commit(t) => CommitKeepsInv(base, s, t);
    case Rollback(t) => RollbackKeepsInv(base, s, t);
  }

  lemma {:induction false} BehaviourKeepsInv(base: DB, s: Sys, trace: seq<Step>)
    requires Inv(base, s) && Behaves(s, trace)
    ensures Inv(base, After(s, trace))
    decreases |trace|
  {
    if trace != [] {
      StepKeepsInv(base, s, trace[0]);
      BehaviourKeepsInv(base, Apply(s, trace[0]), trace[1..]);
    }
  }

  /** Serializability: after any interleaving of any number of transactions, the committed tables
      are the replay, in commit order, of exactly the transactions that committed. */
  lemma CommittedStateIsReplay(base: DB, trace: seq<Step>)
    requires WellFormed(base) && Behaves(Opening(base), trace)
    ensures var s := After(Opening(base), trace);
      && WellFormed(s.committed)
      && Replay(base, s.log) == Some(s.committed)
      && (forall t: nat | t < |s.threads| && s.threads[t].phase.Done? ::
            s.threads[t].phase.position < |s.log| && s.log[s.threads[t].phase.position] == s.threads[t].op)
      && LogIsOfThreads(s)
  {
    OpeningHoldsInv(base);
    BehaviourKeepsInv(base, Opening(base), trace);
    var s := After(Opening(base), trace);
    forall t: nat | t < |s.threads| && s.threads[t].phase.Done?
      ensures s.threads[t].phase.position < |s.log| && s.log[s.threads[t].phase.position] == s.threads[t].op
    {
      assert ThreadInv(s, s.threads[t]);
    }
  }

  /** No statement before the commit is visible to others, and a rollback leaves no trace. */
  lemma OnlyCommitChangesTables(s: Sys, step: Step)
    requires Enabled(s, step) && !step.Commit?
    ensures Apply(s, step).committed == s.committed && Apply(s, step).log == s.log
    ensures step.Rollback? ==> Apply(s, step).threads[step.thread].local == START
  {
  }
}
