/**
 The converse of serializability: every history of committed operations is the log of some
 interleaving.  So the reachable committed states are exactly the replays.
 */
module Reachability {
  import opened Tables
  import opened Programs
  import opened Specs
  import opened History
  import opened Interleaving
  import opened Deadlock

  /** The statements of a program that commits, from `l` on. */
  lemma {:induction false} StagesToEnd(op: Op, db: DB, l: Local) returns (stages: seq<Local>)
    requires Finish(op, db, l).Committed?
    ensures stages != [] && stages[0] == l && stages[|stages| - 1].pc == End(op)
    ensures forall i | 0 < i < |stages| :: Moves(op, db, stages[i - 1], stages[i])
    ensures Finish(op, db, l).db == db + stages[|stages| - 1].overlay
    decreases Limit(op) - l.pc
  {
    if l.pc == End(op) {
      stages := [l];
    } else {
      var next := Advance(op, db, l).local;
      assert Moves(op, db, l, next);
      var rest := StagesToEnd(op, db, next);
      stages := [l] + rest;
    }
  }

  /** Every transaction has finished, and holds nothing. */
  ghost predicate Quiet(s: Sys) {
    forall t: nat | t < |s.threads| :: !s.threads[t].phase.Running? && s.threads[t].local == START
  }

  /** The trace takes `s` to a quiet state in which `op` is the one operation committed since. */
  ghost predicate Commits(s: Sys, trace: seq<Step>, op: Op) {
    && Behaves(s, trace) && Quiet(After(s, trace))
    && Spec(op, s.committed) == Committed(After(s, trace).committed)
    && After(s, trace).log == s.log + [op]
  }

  /** The last step of a transaction that has run alone. */
  lemma CommitAlone(s: Sys, t: nat)
    requires IsRunning(s, t) && AtEnd(s.threads[t])
    requires forall u: nat | u < |s.threads| && u != t :: !s.threads[u].phase.Running? && s.threads[u].local == START
    ensures Enabled(s, Commit(t)) && Quiet(Apply(s, Commit(t)))
  {
  }

  /** An operation that commits when run alone can be run alone. */
  lemma RunsAlone(s: Sys, op: Op) returns (trace: seq<Step>)
    requires WellFormed(s.committed) && Quiet(s) && Issued(op, s.committed) && Spec(op, s.committed).Committed?
    ensures Commits(s, trace, op)
  {
    SoloIsSpec(op, s.committed);
    var stages := StagesToEnd(op, s.committed, START);
    var t, last := |s.threads|, stages[|stages| - 1];
    var begun := Apply(s, Begin(op));
    assert Uncontended(begun, t, last.locks);
    var run := RunsUncontended(begun, t, stages);
    Chain(s, Begin(op), run);
    var s' := Ran(begun, t, last, |stages| - 1);
    CommitAlone(s', t);
    Append(s, [Begin(op)] + run, Commit(t));
    trace := [Begin(op)] + run + [Commit(t)];
  }

  /** The trace is a run of the system whose log is `log` and whose committed tables are `db`. */
  ghost predicate Reaches(base: DB, trace: seq<Step>, log: seq<Op>, db: DB) {
    Behaves(Opening(base), trace) && After(Opening(base), trace).log == log
    && After(Opening(base), trace).committed == db
  }

  lemma {:induction false} ReplayIsReachable(base: DB, log: seq<Op>) returns (trace: seq<Step>)
    requires WellFormed(base) && Replay(base, log).Some?
    ensures Reaches(base, trace, log, Replay(base, log).value) && Quiet(After(Opening(base), trace))
  {
    if log == [] {
      trace := [];
    } else {
      var n := |log| - 1;
      var before := ReplayIsReachable(base, log[..n]);
      var s := After(Opening(base), before);
      ReplayKeepsRows(base, log[..n]);
      var more := RunsAlone(s, log[n]);
      Concatenated(Opening(base), before, more);
      trace := before + more;
    }
  }

  /** The committed states and logs that interleavings reach are exactly the replays: none is missing, and
      none is more. */
  lemma ReachableIffReplay(base: DB, log: seq<Op>, db: DB)
    requires WellFormed(base)
    ensures (exists trace :: Reaches(base, trace, log, db)) <==> Replay(base, log) == Some(db)
  {
    if trace :| Reaches(base, trace, log, db) {
      CommittedStateIsReplay(base, trace);
    }
    if Replay(base, log) == Some(db) {
      var trace := ReplayIsReachable(base, log);
    }
  }
}
