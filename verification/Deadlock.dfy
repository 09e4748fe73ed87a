/**
 Lock ordering.  Transfers, card payments, settlements and deletions acquire their locks in
 one global order, and so does a checkout whose payer's wallet number is not above the
 settlement wallet's; then nobody waits in a circle and every transaction can finish.
 A checkout outside that condition can deadlock with a transfer.
 */
module Deadlock {
  import opened Tables
  import opened Programs
  import opened Specs
  import opened History
  import opened Interleaving

  /** key < charge < ledger row < session < card < user < wallets by number < clearing < fee < activity row. */
  function Level(id: RowId): int {
    match id
    case KeyOf(_) => 0
    case ChargeOf(_) => 1
    case LegOf(_, _) => 2
    case MerchantOf(_) => 3
    case SessionOf(_) => 4
    case CardOf(_) => 5
    case UserOf(_) => 6
    case WalletOf(_) => 7
    case ClearingAccount => 8
    case FeeAccount => 9
    case TxOf(_) => 10
  }

  predicate Below(a: RowId, b: RowId) {
    || Level(a) < Level(b)
    || (a.WalletOf? && b.WalletOf? && a.number < b.number)
    || (a.LegOf? && b.LegOf? && a.index < b.index)
  }

  /** The hypothesis under which checkouts respect the order. */
  predicate Orderly(op: Op) {
    op.Checkout? ==> op.wallet <= op.settlement
  }

  function When(c: bool, id: RowId): set<RowId> {
    if c then {id} else {}
  }

  /** The locks a transaction holds when it reaches `pc`; the fee account only if `fee`. */
  function Held(op: Op, pc: nat, memo: Option<Row>, fee: bool): set<RowId> {
    match op
    case Transfer(key, from, to, _, _) =>
      When(pc > 0, KeyOf(key)) + When(pc > 1, WalletOf(Min(from, to)))
      + When(pc > 2, WalletOf(Max(from, to))) + When(pc > 5, TxOf(key))
    case Checkout(session, _, wallet, settlement, _, _, txId) =>
      When(pc > 0, SessionOf(session)) + When(2 <= pc <= 7, WalletOf(wallet))
      + When(4 <= pc <= 7, WalletOf(settlement)) + When(fee && 5 <= pc <= 7, FeeAccount)
      + When(6 <= pc <= 7, TxOf(txId))
    case CardPay(txId, card, _, _, _, _) =>
      When(pc > 0, CardOf(card))
      + (if memo.Some? && memo.value.Card?
         then When(pc > 1, UserOf(memo.value.user)) + When(pc > 2, WalletOf(memo.value.wallet)) else {})
      + When(pc > 5, TxOf(txId))
    case Settle(charge, _, _, _, _, entries, settlement) =>
      When(pc > 0, ChargeOf(charge))
      + (set i: nat | i < |entries| && i + 1 < pc :: LegOf(charge, i))
      + When(pc > |entries| + 1, WalletOf(settlement)) + When(pc > |entries| + 2, ClearingAccount)
      + When(fee && pc > |entries| + 3, FeeAccount)
    case _ => When(pc > 0, Target(op, 0, None))
  }

  predicate Consistent(op: Op, l: Local) {
    && l.pc <= Limit(op)
    && (op.CardPay? && l.pc > 1 ==> l.memo.Some? && l.memo.value.Card?)
    && Held(op, l.pc, l.memo, false) <= l.locks <= Held(op, l.pc, l.memo, true)
  }

  lemma CheckoutStaysConsistent(op: Op, db: DB, l: Local)
    requires op.Checkout? && Consistent(op, l) && l.pc != End(op) && Advance(op, db, l).At?
    ensures Consistent(op, Advance(op, db, l).local)
  {
  }

  lemma SettleStaysConsistent(op: Op, db: DB, l: Local)
    requires op.Settle? && Consistent(op, l) && l.pc != End(op) && Advance(op, db, l).At?
    ensures Consistent(op, Advance(op, db, l).local)
  {
    assert Advance(op, db, l).local.locks == l.locks + {Target(op, l.pc, l.memo)};
  }

  lemma CardPayStaysConsistent(op: Op, db: DB, l: Local)
    requires op.CardPay? && Consistent(op, l) && l.pc != End(op) && Advance(op, db, l).At?
    ensures Consistent(op, Advance(op, db, l).local)
  {
  }

  lemma AdvanceStaysConsistent(op: Op, db: DB, l: Local)
    requires Consistent(op, l) && l.pc != End(op) && Advance(op, db, l).At?
    ensures Consistent(op, Advance(op, db, l).local)
  {
    if op.Checkout? {
      CheckoutStaysConsistent(op, db, l);
    } else if op.Settle? {
      SettleStaysConsistent(op, db, l);
    } else if op.CardPay? {
      CardPayStaysConsistent(op, db, l);
    }
  }

  lemma {:induction false} PrefixIsConsistent(op: Op, db: DB, n: nat)
    ensures Prefix(op, db, n).At? ==> Consistent(op, Prefix(op, db, n).local)
  {
    if n > 0 && Prefix(op, db, n).At? {
      PrefixIsConsistent(op, db, n - 1);
      AdvanceStaysConsistent(op, db, Prefix(op, db, n - 1).local);
    }
  }

  /** The next lock is one already held, or above every lock held. */
  lemma LocksAscend(op: Op, l: Local)
    requires Orderly(op) && Consistent(op, l) && l.pc != End(op) && Begins(op)
    ensures Target(op, l.pc, l.memo) in l.locks
      || forall id | id in l.locks :: Below(id, Target(op, l.pc, l.memo))
  {
  }

  // ----- progress -----

  /** `t` can execute its next statement, or commit, without waiting. */
  ghost predicate CanMove(s: Sys, t: nat) {
    IsRunning(s, t) && (AtEnd(s.threads[t]) || Free(s, t, Wants(s.threads[t])))
  }

  ghost predicate AllOrderly(s: Sys) {
    forall t: nat | IsRunning(s, t) :: Orderly(s.threads[t].op)
  }

  /** `t` waits for a row lock that `u` holds. */
  predicate WaitsFor(s: Sys, t: nat, u: nat) {
    && IsRunning(s, t) && u < |s.threads| && u != t
    && !AtEnd(s.threads[t]) && Wants(s.threads[t]) in s.threads[u].local.locks
  }

  lemma BelowIsTransitive(a: RowId, b: RowId, c: RowId)
    requires Below(a, b) && Below(b, c)
    ensures Below(a, c)
  {
  }

  /** The running transactions that wait for a row above `id`. */
  ghost function WaitingAbove(s: Sys, id: RowId): set<nat> {
    set t: nat | t < |s.threads| && IsRunning(s, t) && !AtEnd(s.threads[t]) && Below(id, Wants(s.threads[t]))
  }

  lemma RunningIsConsistent(base: DB, s: Sys, t: nat)
    requires Inv(base, s) && IsRunning(s, t)
    ensures Consistent(s.threads[t].op, s.threads[t].local) && Begins(s.threads[t].op)
  {
    assert ThreadInv(s, s.threads[t]);
    PrefixIsConsistent(s.threads[t].op, s.committed, s.threads[t].steps);
  }

  lemma Holder(s: Sys, t: nat) returns (u: nat)
    requires IsRunning(s, t) && !CanMove(s, t)
    ensures WaitsFor(s, t, u)
  {
    assert !Free(s, t, Wants(s.threads[t]));
    u :| u < |s.threads| && u != t && Wants(s.threads[t]) in s.threads[u].local.locks;
  }

  /** Following the waits upward from `t` ends at a transaction that can move. */
  lemma {:induction false} FollowTheWaits(base: DB, s: Sys, t: nat) returns (mover: nat)
    requires Inv(base, s) && AllOrderly(s) && IsRunning(s, t)
    ensures CanMove(s, mover)
    decreases if AtEnd(s.threads[t]) then {} else WaitingAbove(s, Wants(s.threads[t]))
  {
    if CanMove(s, t) {
      mover := t;
    } else {
      var wanted := Wants(s.threads[t]);
      var u := Holder(s, t);
      assert ThreadInv(s, s.threads[u]);
      assert IsRunning(s, u);
      RunningIsConsistent(base, s, u);
      if CanMove(s, u) {
        mover := u;
      } else {
        var v := Holder(s, u);
        assert s.threads[u].local.locks !! s.threads[v].local.locks by {
          if u < v {} else {
            assert s.threads[v].local.locks !! s.threads[u].local.locks;
          }
        }
        LocksAscend(s.threads[u].op, s.threads[u].local);
        assert Below(wanted, Wants(s.threads[u]));
        forall w | w in WaitingAbove(s, Wants(s.threads[u])) ensures w in WaitingAbove(s, wanted) {
          BelowIsTransitive(wanted, Wants(s.threads[u]), Wants(s.threads[w]));
        }
        assert u in WaitingAbove(s, wanted) && u !in WaitingAbove(s, Wants(s.threads[u]));
        mover := FollowTheWaits(base, s, u);
      }
    }
  }

  /** Deadlock freedom: as long as some transaction is unfinished, some transaction can move. */
  lemma SomeTransactionCanMove(base: DB, trace: seq<Step>)
    requires WellFormed(base) && Behaves(Opening(base), trace)
    requires AllOrderly(After(Opening(base), trace))
    requires exists t: nat :: IsRunning(After(Opening(base), trace), t)
    ensures exists t: nat :: CanMove(After(Opening(base), trace), t)
  {
    var s := After(Opening(base), trace);
    OpeningHoldsInv(base);
    BehaviourKeepsInv(base, Opening(base), trace);
    var t: nat :| IsRunning(s, t);
    var mover := FollowTheWaits(base, s, t);
  }

  // ----- every transaction can finish -----

  function Remaining(th: Thread): nat {
    if th.phase.Running? && th.local.pc <= Limit(th.op) then Limit(th.op) - th.local.pc + 1 else 0
  }

  function Work(threads: seq<Thread>): nat {
    if threads == [] then 0 else Remaining(threads[0]) + Work(threads[1..])
  }

  lemma {:induction false} WorkAfterReplacement(threads: seq<Thread>, t: nat, th: Thread)
    requires t < |threads|
    ensures Work(threads[t := th]) == Work(threads) - Remaining(threads[t]) + Remaining(th)
  {
    if t == 0 {
      assert threads[t := th][1..] == threads[1..];
    } else {
      assert threads[t := th][1..] == threads[1..][t - 1 := th];
      WorkAfterReplacement(threads[1..], t - 1, th);
    }
  }

  /** Executing a statement, or committing; not beginning, and not rolling back. */
  predicate IsMove(step: Step) {
    step.Execute? || step.Commit?
  }

  function MoveOf(s: Sys, t: nat): Step
    requires t < |s.threads|
  {
    if AtEnd(s.threads[t]) then Commit(t) else Execute(t)
  }

  /** The mover's own remaining work drops, and every other transaction is as it was. */
  lemma MoverWorks(base: DB, s: Sys, step: Step)
    requires Inv(base, s) && IsMove(step) && Enabled(s, step)
    ensures var t, s' := step.thread, Apply(s, step);
      && s'.threads == s.threads[t := s'.threads[t]] && s'.threads[t].op == s.threads[t].op
      && Remaining(s'.threads[t]) < Remaining(s.threads[t])
  {
    RunningIsConsistent(base, s, step.thread);
  }

  lemma MoveKeepsOrder(s: Sys, s': Sys, t: nat)
    requires AllOrderly(s) && IsRunning(s, t) && |s'.threads| == |s.threads|
    requires s'.threads == s.threads[t := s'.threads[t]] && s'.threads[t].op == s.threads[t].op
    ensures AllOrderly(s')
  {
    assert forall u: nat | IsRunning(s', u) :: IsRunning(s, u) && s'.threads[u].op == s.threads[u].op;
  }

  lemma MoveDoesWork(base: DB, s: Sys, step: Step)
    requires Inv(base, s) && AllOrderly(s) && IsMove(step) && Enabled(s, step)
    ensures var s' := Apply(s, step);
      Inv(base, s') && AllOrderly(s') && Work(s'.threads) < Work(s.threads)
  {
    var t, s' := step.thread, Apply(s, step);
    StepKeepsInv(base, s, step);
    MoverWorks(base, s, step);
    WorkAfterReplacement(s.threads, t, s'.threads[t]);
    MoveKeepsOrder(s, s', t);
  }

  ghost predicate OnlyMoves(trace: seq<Step>) {
    forall i | 0 <= i < |trace| :: IsMove(trace[i])
  }

  ghost predicate AnyRuns(s: Sys) {
    exists t: nat :: IsRunning(s, t)
  }

  /** Every move does some of the work there is. */
  lemma {:induction false} MovesAreBounded(base: DB, s: Sys, trace: seq<Step>)
    requires Inv(base, s) && AllOrderly(s) && Behaves(s, trace) && OnlyMoves(trace)
    ensures Inv(base, After(s, trace)) && AllOrderly(After(s, trace))
    ensures |trace| + Work(After(s, trace).threads) <= Work(s.threads)
    decreases |trace|
  {
    if trace != [] {
      MoveDoesWork(base, s, trace[0]);
      assert forall i | 0 <= i < |trace[1..]| :: trace[1..][i] == trace[i + 1];
      MovesAreBounded(base, Apply(s, trace[0]), trace[1..]);
    }
  }

  /** Whatever the scheduler does: from a reachable state, every run of statements and commits is no longer
      than the work there is, and one that cannot be continued has left nobody unfinished. */
  lemma EveryScheduleFinishes(base: DB, trace: seq<Step>, rest: seq<Step>)
    requires WellFormed(base) && Behaves(Opening(base), trace) && AllOrderly(After(Opening(base), trace))
    requires Behaves(After(Opening(base), trace), rest) && OnlyMoves(rest)
    ensures |rest| <= Work(After(Opening(base), trace).threads)
    ensures AnyRuns(After(After(Opening(base), trace), rest))
      <==> exists t: nat :: CanMove(After(After(Opening(base), trace), rest), t)
  {
    var s := After(Opening(base), trace);
    OpeningHoldsInv(base);
    BehaviourKeepsInv(base, Opening(base), trace);
    MovesAreBounded(base, s, rest);
    if t: nat :| IsRunning(After(s, rest), t) {
      var mover := FollowTheWaits(base, After(s, rest), t);
    }
  }

  /** `trace` only executes statements and commits, and leaves nothing unfinished. */
  ghost predicate Completes(s: Sys, trace: seq<Step>) {
    Behaves(s, trace) && OnlyMoves(trace) && !AnyRuns(After(s, trace))
  }

  lemma CompletesAfter(s: Sys, move: Step, rest: seq<Step>)
    requires Enabled(s, move) && IsMove(move) && Completes(Apply(s, move), rest)
    ensures Completes(s, [move] + rest)
  {
    assert ([move] + rest)[1..] == rest;
    forall i | 0 <= i < |[move] + rest| ensures IsMove(([move] + rest)[i]) {
      assert i > 0 ==> ([move] + rest)[i] == rest[i - 1];
    }
  }

  lemma {:induction false} CanComplete(base: DB, s: Sys) returns (trace: seq<Step>)
    requires Inv(base, s) && AllOrderly(s)
    ensures Completes(s, trace)
    decreases Work(s.threads)
  {
    if t: nat :| IsRunning(s, t) {
      var mover := FollowTheWaits(base, s, t);
      var move := MoveOf(s, mover);
      MoveDoesWork(base, s, move);
      var rest := CanComplete(base, Apply(s, move));
      CompletesAfter(s, move, rest);
      trace := [move] + rest;
    } else {
      trace := [];
    }
  }

  /** From every reachable state there is a schedule in which every unfinished transaction runs to its
      commit or to its own error, with nobody chosen as a deadlock victim. */
  lemma EveryTransactionCanFinish(base: DB, trace: seq<Step>)
    requires WellFormed(base) && Behaves(Opening(base), trace)
    requires AllOrderly(After(Opening(base), trace))
    ensures exists rest :: Completes(After(Opening(base), trace), rest)
  {
    OpeningHoldsInv(base);
    BehaviourKeepsInv(base, Opening(base), trace);
    var rest := CanComplete(base, After(Opening(base), trace));
  }

  // ----- a checkout out of order -----

  /** Nobody who is unfinished can move, and somebody is unfinished. */
  ghost predicate Deadlocked(s: Sys) {
    (exists t: nat :: IsRunning(s, t)) && forall t: nat | IsRunning(s, t) :: !CanMove(s, t)
  }

  /** The checkout would pass every check up to the debit of the payer's wallet. */
  ghost predicate Payable(op: Op, db: DB) {
    && op.Checkout? && Issued(op, db)
    && var session := db[SessionOf(op.session)];
    && session.sessionStatus == Pending && op.now <= session.expiresAt
    && OwnedLive(db, op.wallet, op.user)
    && db[WalletOf(op.wallet)].currency == session.currency
    && db[WalletOf(op.wallet)].balance >= session.amount
  }

  lemma Chain(s: Sys, step: Step, rest: seq<Step>)
    requires Enabled(s, step) && Behaves(Apply(s, step), rest)
    ensures Behaves(s, [step] + rest) && After(s, [step] + rest) == After(Apply(s, step), rest)
  {
    assert ([step] + rest)[1..] == rest;
  }

  /** One statement takes the transaction from `a` to `b`. */
  predicate Moves(op: Op, db: DB, a: Local, b: Local) {
    a.pc != End(op) && Advance(op, db, a) == At(b)
  }

  /** `stages` are the first statements of `op`, run alone. */
  ghost predicate Runs(op: Op, db: DB, stages: seq<Local>) {
    stages != [] && stages[0] == START && forall i | 0 < i < |stages| :: Moves(op, db, stages[i - 1], stages[i])
  }

  /** After its first three statements the payer's wallet is locked, and the settlement wallet is next. */
  lemma CheckoutReachesCredit(op: Op, db: DB) returns (stages: seq<Local>)
    requires Payable(op, db) && WellFormed(db)
    ensures |stages| == 4 && Runs(op, db, stages)
    ensures stages[3].pc == 3 && stages[3].locks == {SessionOf(op.session), WalletOf(op.wallet)}
  {
    var session := db[SessionOf(op.session)];
    assert RowOk(SessionOf(op.session), session);
    assert RowOk(WalletOf(op.wallet), db[WalletOf(op.wallet)]);
    var l1 := Local(1, Some(session), map[], {SessionOf(op.session)});
    var l2 := Local(2, Some(session), map[], {SessionOf(op.session), WalletOf(op.wallet)});
    assert Moves(op, db, START, l1) && Moves(op, db, l1, l2);
    var l3 := Advance(op, db, l2).local;
    assert Moves(op, db, l2, l3);
    stages := [START, l1, l2, l3];
  }

  /** After its first two statements a transfer holds its key and its lower wallet. */
  lemma TransferReachesSecondLock(op: Op, db: DB) returns (stages: seq<Local>)
    requires op.Transfer? && op.from < op.to && Live(db, op.from) && KeyOf(op.key) !in db
    ensures |stages| == 3 && Runs(op, db, stages)
    ensures stages[2].pc == 2 && stages[2].locks == {KeyOf(op.key), WalletOf(op.from)}
  {
    var l1 := Local(1, None, map[KeyOf(op.key) := KeyRec], {KeyOf(op.key)});
    assert Moves(op, db, START, l1);
    var l2 := Advance(op, db, l1).local;
    assert Moves(op, db, l1, l2);
    stages := [START, l1, l2];
  }

  /** `s` after transaction t has gone on to `l`, having run n statements. */
  function Ran(s: Sys, t: nat, l: Local, n: nat): Sys
    requires t < |s.threads|
  {
    s.(threads := s.threads[t := Thread(s.threads[t].op, l, n, Running)])
  }

  /** Nobody but t holds any of these locks. */
  ghost predicate Uncontended(s: Sys, t: nat, locks: set<RowId>) {
    forall u: nat | u < |s.threads| && u != t :: s.threads[u].local.locks !! locks
  }

  lemma OneUncontended(s: Sys, t: nat, l: Local)
    requires IsRunning(s, t) && Moves(s.threads[t].op, s.committed, s.threads[t].local, l)
    requires Uncontended(s, t, l.locks)
    ensures Enabled(s, Execute(t)) && Apply(s, Execute(t)) == Ran(s, t, l, s.threads[t].steps + 1)
  {
    assert Wants(s.threads[t]) in l.locks;
  }

  lemma RanAgain(s: Sys, t: nat, l: Local, m: nat, l': Local, n: nat)
    requires t < |s.threads|
    ensures Ran(Ran(s, t, l, m), t, l', n) == Ran(s, t, l', n)
  {
    var a, b := Ran(Ran(s, t, l, m), t, l', n).threads, Ran(s, t, l', n).threads;
    assert |a| == |b| && forall u | 0 <= u < |a| :: a[u] == b[u];
  }

  lemma {:induction false} Concatenated(s: Sys, first: seq<Step>, second: seq<Step>)
    requires Behaves(s, first) && Behaves(After(s, first), second)
    ensures Behaves(s, first + second) && After(s, first + second) == After(After(s, first), second)
    decreases |first|
  {
    if first == [] {
      assert first + second == second;
    } else {
      Concatenated(Apply(s, first[0]), first[1..], second);
      assert (first + second)[1..] == first[1..] + second;
    }
  }

  lemma Append(s: Sys, first: seq<Step>, step: Step)
    requires Behaves(s, first) && Enabled(After(s, first), step)
    ensures Behaves(s, first + [step]) && After(s, first + [step]) == Apply(After(s, first), step)
  {
    Chain(After(s, first), step, []);
    Concatenated(s, first, [step]);
    assert [step] + [] == [step];
  }

  lemma MoveKeepsLocks(op: Op, db: DB, a: Local, b: Local)
    requires Moves(op, db, a, b)
    ensures a.locks <= b.locks
  {
  }

  lemma RunsOneMore(s: Sys, t: nat, n: nat, before: Local, l: Local, trace: seq<Step>)
    requires t < |s.threads| && Behaves(s, trace) && After(s, trace) == Ran(s, t, before, n)
    requires Moves(s.threads[t].op, s.committed, before, l) && Uncontended(s, t, l.locks)
    ensures Behaves(s, trace + [Execute(t)]) && After(s, trace + [Execute(t)]) == Ran(s, t, l, n + 1)
  {
    OneUncontended(Ran(s, t, before, n), t, l);
    RanAgain(s, t, before, n, l, n + 1);
    Append(s, trace, Execute(t));
  }

  /** The first statements of transaction t, uncontended and one after another. */
  lemma {:induction false} RunsUncontended(s: Sys, t: nat, stages: seq<Local>) returns (trace: seq<Step>)
    requires t < |s.threads| && s.threads[t] == Thread(s.threads[t].op, START, 0, Running)
    requires Runs(s.threads[t].op, s.committed, stages) && Uncontended(s, t, stages[|stages| - 1].locks)
    ensures Behaves(s, trace) && After(s, trace) == Ran(s, t, stages[|stages| - 1], |stages| - 1)
  {
    var n := |stages| - 1;
    if n == 0 {
      trace := [];
      assert Ran(s, t, START, 0).threads == s.threads;
    } else {
      assert Moves(s.threads[t].op, s.committed, stages[n - 1], stages[n]);
      MoveKeepsLocks(s.threads[t].op, s.committed, stages[n - 1], stages[n]);
      trace := RunsUncontended(s, t, stages[..n]);
      RunsOneMore(s, t, n - 1, stages[n - 1], stages[n], trace);
      trace := trace + [Execute(t)];
    }
  }

  /** Every checkout in the system is this one. */
  ghost predicate OnlyCheckoutIs(s: Sys, checkout: Op) {
    forall t: nat | t < |s.threads| :: s.threads[t].op.Checkout? ==> s.threads[t].op == checkout
  }

  /** A begun transaction adds one thread that has run nothing. */
  lemma TwoBegin(db: DB, first: Op, second: Op) returns (trace: seq<Step>)
    requires Issued(first, db) && Issued(second, db)
    ensures Behaves(Opening(db), trace)
    ensures After(Opening(db), trace)
      == Sys(db, [Thread(first, START, 0, Running), Thread(second, START, 0, Running)], [])
  {
    var s0 := Opening(db);
    var s1 := Apply(s0, Begin(first));
    Chain(s1, Begin(second), []);
    Chain(s0, Begin(first), [Begin(second)]);
    trace := [Begin(first)] + [Begin(second)];
  }

  /** Two transactions begin, and each runs its first statements; the locks they take are apart. */
  lemma BothRun(db: DB, first: Op, second: Op, a: seq<Local>, b: seq<Local>) returns (trace: seq<Step>)
    requires Issued(first, db) && Issued(second, db) && Runs(first, db, a) && Runs(second, db, b)
    requires a[|a| - 1].locks !! b[|b| - 1].locks
    ensures Behaves(Opening(db), trace)
    ensures After(Opening(db), trace) == Sys(db, [Thread(first, a[|a| - 1], |a| - 1, Running),
                                                  Thread(second, b[|b| - 1], |b| - 1, Running)], [])
  {
    var begin := TwoBegin(db, first, second);
    var s2 := After(Opening(db), begin);
    var one := RunsUncontended(s2, 0, a);
    var s3 := After(s2, one);
    var two := RunsUncontended(s3, 1, b);
    Concatenated(s2, one, two);
    Concatenated(Opening(db), begin, one + two);
    trace := begin + (one + two);
  }

  /** Whenever a payable checkout's payer wallet is numbered above the settlement wallet, a transfer
      between the same two wallets can deadlock with it: the checkout holds the payer's wallet and waits
      for the settlement wallet, and the transfer the reverse. */
  lemma OutOfOrderCheckoutCanDeadlock(checkout: Op, transfer: Op, db: DB)
    requires WellFormed(db) && Payable(checkout, db) && !Orderly(checkout)
    requires transfer.Transfer? && transfer.from == checkout.settlement && transfer.to == checkout.wallet
    requires Live(db, transfer.from) && KeyOf(transfer.key) !in db
    ensures exists trace :: Behaves(Opening(db), trace) && OnlyCheckoutIs(After(Opening(db), trace), checkout)
                            && Deadlocked(After(Opening(db), trace))
  {
    var paying := CheckoutReachesCredit(checkout, db);
    var moving := TransferReachesSecondLock(transfer, db);
    var trace := BothRun(db, checkout, transfer, paying, moving);
    var s := After(Opening(db), trace);
    assert Wants(s.threads[0]) == WalletOf(checkout.settlement) && Wants(s.threads[0]) in s.threads[1].local.locks;
    assert Wants(s.threads[1]) == WalletOf(checkout.wallet) && Wants(s.threads[1]) in s.threads[0].local.locks;
    assert IsRunning(s, 0) && !CanMove(s, 0) && !CanMove(s, 1);
    assert OnlyCheckoutIs(s, checkout) && Deadlocked(s);
  }

  /** With one checkout request against any transfers, card payments, settlements and deletions, a
      deadlock is reachable if and only if the payer's wallet number is above the settlement wallet's. */
  lemma DeadlockIffOutOfOrder(checkout: Op, key: Id, db: DB)
    requires WellFormed(db) && Payable(checkout, db)
    requires Live(db, checkout.settlement) && KeyOf(key) !in db
    ensures (exists trace :: Behaves(Opening(db), trace) && OnlyCheckoutIs(After(Opening(db), trace), checkout)
                             && Deadlocked(After(Opening(db), trace)))
            <==> checkout.wallet > checkout.settlement
  {
    if checkout.wallet > checkout.settlement {
      OutOfOrderCheckoutCanDeadlock(checkout, Transfer(key, checkout.settlement, checkout.wallet, 1, 1), db);
    } else {
      forall trace | Behaves(Opening(db), trace) && OnlyCheckoutIs(After(Opening(db), trace), checkout)
        ensures !Deadlocked(After(Opening(db), trace))
      {
        if t: nat :| IsRunning(After(Opening(db), trace), t) {
          SomeTransactionCanMove(db, trace);
        }
      }
    }
  }
}
