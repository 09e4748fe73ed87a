/**
 ProcessCharge calls that overlap in time.  The lookup, the settlement and the save of a call
 are separate statements, so other calls and other operations may come between them.
 */
module OverlappingCharges {
  import opened Tables
  import opened Programs
  import opened Specs
  import opened Repositories
  import opened Charging

  datatype Stage = Arrived | Missed | Unsaved(answer: Answer) | Finished(answer: Answer)

  /** One call: `hit` when its lookup found an answer, `settled` when its settlement committed; `lookup` and
      `save` are the moments of its lookup and of its successful save. */
  datatype Proc = Proc(call: Call, stage: Stage, hit: bool, settled: bool, lookup: nat, save: Option<nat>)

  datatype Sys = Sys(db: DB, cache: Cache, procs: seq<Proc>, clock: nat)

  datatype Step = Arrive(call: Call) | Lookup(proc: nat) | Run(proc: nat) | Save(proc: nat) | Other(op: Op)

  function Opening(st: State): Sys {
    Sys(st.db, st.cache, [], 0)
  }

  predicate Enabled(n: Sys, step: Step) {
    match step
    case Lookup(t) => t < |n.procs| && n.procs[t].stage.Arrived?
    case Run(t) => t < |n.procs| && n.procs[t].stage.Missed?
    case Save(t) => t < |n.procs| && n.procs[t].stage.Unsaved? && n.procs[t].stage.answer.Answered?
    case _ => true
  }

  function Looked(n: Sys, p: Proc): Proc {
    var st := State(n.db, n.cache);
    if IsReplay(st, p.call) then p.(stage := Finished(StoredAnswer(st, p.call)), hit := true, lookup := n.clock)
    else p.(stage := Missed, lookup := n.clock)
  }

  function Ended(p: Proc, answer: Answer): Proc {
    p.(stage := if answer.Answered? then Unsaved(answer) else Finished(answer),
       settled := p.call.check.Accepted? && answer.Answered?)
  }

  function Kept(p: Proc, now: nat): Proc
    requires p.stage.Unsaved?
  {
    p.(stage := Finished(p.stage.answer), save := if p.call.key != "" && p.call.saveOk then Some(now) else None)
  }

  function Apply(n: Sys, step: Step): Sys
    requires Enabled(n, step)
  {
    var later := n.(clock := n.clock + 1);
    match step
    case Arrive(c) => later.(procs := n.procs + [Proc(c, Arrived, false, false, 0, None)])
    case Lookup(t) => later.(procs := n.procs[t := Looked(n, n.procs[t])])
    case Run(t) =>
      var (db, answer) := Charged(n.db, n.procs[t].call);
      later.(db := db, procs := n.procs[t := Ended(n.procs[t], answer)])
    case Save(t) =>
      var p := n.procs[t];
      later.(cache := Remembered(n.cache, p.call, p.stage.answer), procs := n.procs[t := Kept(p, n.clock)])
    case Other(op) => later.(db := AfterVerdict(n.db, Spec(op, n.db)))
  }

  ghost predicate Behaves(n: Sys, trace: seq<Step>)
    decreases |trace|
  {
    trace != [] ==> Enabled(n, trace[0]) && Behaves(Apply(n, trace[0]), trace[1..])
  }

  ghost function After(n: Sys, trace: seq<Step>): Sys
    requires Behaves(n, trace)
    decreases |trace|
  {
    if trace == [] then n else After(Apply(n, trace[0]), trace[1..])
  }

  predicate SameKey(c: Call, d: Call) {
    c.merchant == d.merchant && c.key == d.key
  }

  /** Proc u saved an answer for the key of `c` before the given moment. */
  predicate SavedBy(n: Sys, u: nat, c: Call, moment: nat) {
    && u < |n.procs| && SameKey(n.procs[u].call, c)
    && n.procs[u].save.Some? && n.procs[u].save.value < moment
  }

  /** The store had an answer for this key at the start, or some call saved one before the moment. */
  ghost predicate AvailableAt(st: State, n: Sys, c: Call, moment: nat) {
    (c.merchant, c.key) in st.cache || exists u: nat :: SavedBy(n, u, c, moment)
  }

  /** What is known of one call. */
  ghost predicate ProcInv(st: State, n: Sys, p: Proc) {
    && (p.save.Some? ==> p.stage.Finished? && p.call.key != "" && p.call.saveOk && p.lookup < p.save.value < n.clock)
    && (!p.stage.Arrived? ==>
          p.lookup < n.clock
          && (p.hit <==> p.call.key != "" && p.call.readOk && AvailableAt(st, n, p.call, p.lookup)))
    && (p.stage.Arrived? || p.stage.Missed? ==> !p.settled && p.save.None?)
    && (!p.stage.Finished? ==> !p.hit)
    && (p.stage.Unsaved? ==> p.stage.answer.Answered? && p.save.None?)
    && (p.stage.Unsaved? || p.stage.Finished? ==>
          (p.settled <==> !p.hit && p.call.check.Accepted? && p.stage.answer.Answered?))
    && (p.stage.Finished? && !p.hit && p.stage.answer.Answered? && p.call.key != "" && p.call.saveOk ==> p.save.Some?)
  }

  predicate HasSaved(n: Sys, u: nat, m: Id, k: string) {
    u < |n.procs| && n.procs[u].call.merchant == m && n.procs[u].call.key == k && n.procs[u].save.Some?
  }

  /** The store holds an answer exactly when it did at the start or some call has saved one. */
  ghost predicate StoreInv(st: State, n: Sys, m: Id, k: string) {
    k != "" ==> ((m, k) in n.cache <==> (m, k) in st.cache || exists u: nat :: HasSaved(n, u, m, k))
  }

  ghost predicate Inv(st: State, n: Sys) {
    && (forall m: Id, k: string :: StoreInv(st, n, m, k))
    && (forall t: nat | t < |n.procs| :: ProcInv(st, n, n.procs[t]))
  }

  lemma SavedByStays(st: State, n: Sys, step: Step, u: nat, c: Call, moment: nat)
    requires Inv(st, n) && Enabled(n, step) && moment <= n.clock
    ensures SavedBy(Apply(n, step), u, c, moment) <==> SavedBy(n, u, c, moment)
  {
    if u < |n.procs| {
      assert ProcInv(st, n, n.procs[u]);
    }
  }

  /** What was available at an earlier moment is not changed by a later step. */
  lemma AvailabilityStays(st: State, n: Sys, step: Step, c: Call, moment: nat)
    requires Inv(st, n) && Enabled(n, step) && moment <= n.clock
    ensures AvailableAt(st, Apply(n, step), c, moment) <==> AvailableAt(st, n, c, moment)
  {
    forall u: nat ensures SavedBy(Apply(n, step), u, c, moment) <==> SavedBy(n, u, c, moment) {
      SavedByStays(st, n, step, u, c, moment);
    }
  }

  /** What the store holds now is what is available now. */
  lemma StoredIffAvailable(st: State, n: Sys, c: Call)
    requires Inv(st, n) && c.key != ""
    ensures (c.merchant, c.key) in n.cache <==> AvailableAt(st, n, c, n.clock)
  {
    assert StoreInv(st, n, c.merchant, c.key);
    forall u: nat ensures HasSaved(n, u, c.merchant, c.key) <==> SavedBy(n, u, c, n.clock) {
      if u < |n.procs| {
        assert ProcInv(st, n, n.procs[u]);
      }
    }
  }

  lemma StepKeepsStore(st: State, n: Sys, step: Step, m: Id, k: string)
    requires Inv(st, n) && Enabled(n, step)
    ensures StoreInv(st, Apply(n, step), m, k)
  {
    var n' := Apply(n, step);
    assert StoreInv(st, n, m, k);
    if step.Save? {
      var p := n.procs[step.proc];
      assert ProcInv(st, n, p);
      if p.call.key != "" && p.call.saveOk && p.call.merchant == m && p.call.key == k {
        assert HasSaved(n', step.proc, m, k);
      }
    }
    forall u: nat | HasSaved(n, u, m, k) ensures HasSaved(n', u, m, k) {
      assert ProcInv(st, n, n.procs[u]);
    }
    forall u: nat | HasSaved(n', u, m, k) && !(step.Save? && u == step.proc) ensures HasSaved(n, u, m, k) {
    }
  }

  /** A call that does not move keeps what is known of it. */
  lemma StepKeepsOther(st: State, n: Sys, step: Step, p: Proc)
    requires Inv(st, n) && Enabled(n, step) && ProcInv(st, n, p)
    ensures ProcInv(st, Apply(n, step), p)
  {
    if !p.stage.Arrived? {
      AvailabilityStays(st, n, step, p.call, p.lookup);
    }
  }

  lemma StepKeepsMover(st: State, n: Sys, step: Step)
    requires Inv(st, n) && Enabled(n, step) && (step.Lookup? || step.Run? || step.Save?)
    ensures ProcInv(st, Apply(n, step), Apply(n, step).procs[step.proc])
  {
    var p := n.procs[step.proc];
    assert ProcInv(st, n, p);
    AvailabilityStays(st, n, step, p.call, if step.Lookup? then n.clock else p.lookup);
    if step.Lookup? && p.call.key != "" {
      StoredIffAvailable(st, n, p.call);
    }
  }

  lemma StepKeepsInv(st: State, n: Sys, step: Step)
    requires Inv(st, n) && Enabled(n, step)
    ensures Inv(st, Apply(n, step))
  {
    var n' := Apply(n, step);
    forall m: Id, k: string ensures StoreInv(st, n', m, k) {
      StepKeepsStore(st, n, step, m, k);
    }
    forall t: nat | t < |n'.procs| ensures ProcInv(st, n', n'.procs[t]) {
      if (step.Lookup? || step.Run? || step.Save?) && t == step.proc {
        StepKeepsMover(st, n, step);
      } else if t < |n.procs| {
        StepKeepsOther(st, n, step, n.procs[t]);
      }
    }
  }

  lemma {:induction false} BehaviourKeepsInv(st: State, n: Sys, trace: seq<Step>)
    requires Inv(st, n) && Behaves(n, trace)
    ensures Inv(st, After(n, trace))
    decreases |trace|
  {
    if trace != [] {
      StepKeepsInv(st, n, trace[0]);
      BehaviourKeepsInv(st, Apply(n, trace[0]), trace[1..]);
    }
  }

  /** Whatever happens in between: an accepted call that ends without an error has settled if and only if it
      has no key, lost its read, or looked up before every save of its key and when the store was empty. */
  lemma SettledIffNothingAvailable(st: State, trace: seq<Step>, t: nat)
    requires Behaves(Opening(st), trace) && t < |After(Opening(st), trace).procs|
    requires var p := After(Opening(st), trace).procs[t];
      p.call.check.Accepted? && p.stage.Finished? && p.stage.answer.Answered?
    ensures var n := After(Opening(st), trace);
      var p := n.procs[t];
      p.settled <==> p.call.key == "" || !p.call.readOk || !AvailableAt(st, n, p.call, p.lookup)
  {
    BehaviourKeepsInv(st, Opening(st), trace);
    assert ProcInv(st, After(Opening(st), trace), After(Opening(st), trace).procs[t]);
  }

  predicate IsCall(n: Sys, t: nat, merchant: Id, key: string) {
    t < |n.procs| && n.procs[t].call.merchant == merchant && n.procs[t].call.key == key
  }

  predicate BothSettled(n: Sys, t: nat, u: nat, merchant: Id, key: string) {
    t != u && IsCall(n, t, merchant, key) && IsCall(n, u, merchant, key) && n.procs[t].settled && n.procs[u].settled
  }

  /** Call u is another accepted call of a settled one's key that has come through without an error, and it lost
      its read, or looked up with nothing yet saved. */
  ghost predicate SlippedPast(st: State, n: Sys, t: nat, u: nat, merchant: Id, key: string) {
    && t != u && IsCall(n, t, merchant, key) && IsCall(n, u, merchant, key) && n.procs[t].settled
    && var p := n.procs[u];
    && p.call.check.Accepted? && (p.stage.Unsaved? || p.stage.Finished?) && p.stage.answer.Answered?
    && (!p.call.readOk || !AvailableAt(st, n, p.call, p.lookup))
  }

  /** Of any number of overlapping calls of one key at most one has settled, exactly when none has slipped past
      the store. */
  lemma AtMostOneSettledIff(st: State, trace: seq<Step>, merchant: Id, key: string)
    requires Behaves(Opening(st), trace) && key != ""
    ensures var n := After(Opening(st), trace);
      (forall t: nat, u: nat :: !BothSettled(n, t, u, merchant, key))
      <==> (forall t: nat, u: nat :: !SlippedPast(st, n, t, u, merchant, key))
  {
    var n := After(Opening(st), trace);
    BehaviourKeepsInv(st, Opening(st), trace);
    forall t: nat, u: nat
      ensures BothSettled(n, t, u, merchant, key) <==> SlippedPast(st, n, t, u, merchant, key)
    {
      if IsCall(n, u, merchant, key) {
        assert ProcInv(st, n, n.procs[u]);
      }
    }
  }

  /** The two calls are accepted, have one new key that no other call has, lose no read and no save, and have
      ended without an error; t looked up first. */
  ghost predicate AreRivals(st: State, n: Sys, t: nat, u: nat) {
    && t < |n.procs| && u < |n.procs| && t != u && SameKey(n.procs[t].call, n.procs[u].call)
    && (forall v: nat | v < |n.procs| && SameKey(n.procs[v].call, n.procs[t].call) :: v == t || v == u)
    && n.procs[t].lookup < n.procs[u].lookup
    && Works(n.procs[t]) && Works(n.procs[u])
    && (n.procs[t].call.merchant, n.procs[t].call.key) !in st.cache
  }

  predicate Works(p: Proc) {
    && p.call.key != "" && p.call.check.Accepted? && p.call.readOk && p.call.saveOk
    && p.stage.Finished? && p.stage.answer.Answered?
  }

  /** Two rival calls settle twice if and only if the second lookup came before the first save. */
  lemma RivalsSettleTwiceIff(st: State, trace: seq<Step>, t: nat, u: nat)
    requires Behaves(Opening(st), trace) && AreRivals(st, After(Opening(st), trace), t, u)
    ensures var n := After(Opening(st), trace);
      && n.procs[t].settled && n.procs[t].save.Some?
      && (n.procs[u].settled <==> n.procs[u].lookup <= n.procs[t].save.value)
  {
    var n := After(Opening(st), trace);
    BehaviourKeepsInv(st, Opening(st), trace);
    assert ProcInv(st, n, n.procs[t]) && ProcInv(st, n, n.procs[u]);
    assert !SavedBy(n, t, n.procs[t].call, n.procs[t].lookup);
    assert !SavedBy(n, u, n.procs[t].call, n.procs[t].lookup);
    SettledIffNothingAvailable(st, trace, t);
    SettledIffNothingAvailable(st, trace, u);
    assert SavedBy(n, t, n.procs[u].call, n.procs[u].lookup) <==> n.procs[t].save.value < n.procs[u].lookup;
  }

  /** `settled` means what it says: the running call could settle, and its SUCCEEDED charge is a new row. */
  lemma RunSettlesIff(n: Sys, t: nat)
    requires Enabled(n, Run(t))
    ensures var c, n' := n.procs[t].call, Apply(n, Run(t));
      && (n'.procs[t].settled <==> CanSettle(n.db, c))
      && (n'.procs[t].settled ==>
            ChargeOf(c.chargeId) !in n.db && Find(n'.db, ChargeOf(c.chargeId)) == Some(ChargeRow(SettleOp(c))))
      && (c.check.Accepted? && !n'.procs[t].settled ==> n'.db == n.db)
  {
    var c := n.procs[t].call;
    if c.check.Accepted? {
      SettlesIffNetPositive(State(n.db, map[]), c);
      if CanSettle(n.db, c) {
        SettlementIsNew(n.db, c);
      }
    }
  }

  /** A new call's statements one after another, with nothing between them. */
  function Uninterrupted(n: Sys, c: Call): Sys {
    var t := |n.procs|;
    var looked := Apply(Apply(n, Arrive(c)), Lookup(t));
    if looked.procs[t].stage.Finished? then looked
    else
      var ran := Apply(looked, Run(t));
      if ran.procs[t].stage.Unsaved? then Apply(ran, Save(t)) else ran
  }

  /** Without overlap the three steps are ProcessCharge. */
  lemma UninterruptedIsChargeSpec(n: Sys, c: Call)
    ensures var n', t := Uninterrupted(n, c), |n.procs|;
      && n'.procs[..t] == n.procs && |n'.procs| == t + 1 && n'.procs[t].stage.Finished?
      && (State(n'.db, n'.cache), n'.procs[t].stage.answer) == ChargeSpec(State(n.db, n.cache), c)
  {
  }
}
