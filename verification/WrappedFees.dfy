/**
 The failing side of conservation: payments whose int64 fee wraps below zero do commit, and the
 states in which the ledger is unbalanced and money has been created are reachable.
 */
module WrappedFees {
  import opened Money
  import opened Tables
  import opened Programs
  import opened Specs
  import opened History
  import opened Interleaving
  import opened Reachability
  import opened Sums
  import opened Records
  import opened Guarantees
  import opened Charging

  /** An accepted charge that has room settles with a negative fee as with any other; then the run of that one
      transaction ends with debits unlike credits and with a changed total. */
  lemma WrappedChargeUnbalances(base: DB, c: Call)
    requires Fresh(base) && MerchantIs(base, c.merchant, c.settlement, c.bps)
    requires CanSettle(base, c) && Fee(c.amount, c.bps) < 0
    ensures Issued(SettleOp(c), base) && Spec(SettleOp(c), base).Committed?
    ensures exists trace :: Unbalances(base, trace, c.chargeId)
  {
    var op := SettleOp(c);
    SettlesIffNetPositive(State(base, map[]), c);
    var trace := ReachAfter(base, op);
    SettleStoresCharge(op, base);
    LegsBalanceIffFeeNonNegative(base, trace, c.chargeId);
    PaymentConservesIffFeeNonNegative(op, base, c.amount, op.fee, c.bps);
    assert Unbalances(base, trace, c.chargeId);
  }

  /** The run ends with this charge SUCCEEDED, its debits unlike its credits, and the total of money changed. */
  ghost predicate Unbalances(base: DB, trace: seq<Step>, charge: Id) {
    && Behaves(Opening(base), trace)
    && var db := After(Opening(base), trace).committed;
    && IsSucceeded(db, charge)
    && Sum(LegTotal(charge, Debit), db) != Sum(LegTotal(charge, Credit), db)
    && Sum(Money, db) != Sum(Money, base)
  }

  /** The run ends with this session PAID and the total of money changed. */
  ghost predicate Creates(base: DB, trace: seq<Step>, session: Id) {
    && Behaves(Opening(base), trace)
    && IsPaid(After(Opening(base), trace).committed, session)
    && Sum(Money, After(Opening(base), trace).committed) != Sum(Money, base)
  }

  /** One committed operation after the opening state. */
  lemma ReachAfter(base: DB, op: Op) returns (trace: seq<Step>)
    requires WellFormed(base) && Issued(op, base) && Spec(op, base).Committed?
    ensures Behaves(Opening(base), trace) && After(Opening(base), trace).committed == Spec(op, base).db
  {
    ReplayExtends(base, [], op);
    trace := ReplayIsReachable(base, [] + [op]);
  }

  /** The same for a checkout: once it commits with a negative fee, the total has changed. */
  lemma WrappedCheckoutCreates(base: DB, op: Op)
    requires Fresh(base) && op.Checkout? && Issued(op, base) && Spec(op, base).Committed?
    requires Fee(base[SessionOf(op.session)].amount, op.bps) < 0
    ensures exists trace :: Creates(base, trace, op.session)
  {
    var amount := base[SessionOf(op.session)].amount;
    var trace := ReachAfter(base, op);
    PaymentConservesIffFeeNonNegative(op, base, amount, Fee(amount, op.bps), op.bps);
    SessionStep(op, base, op.session);
    assert Creates(base, trace, op.session);
  }

  const LARGE := 50_000_000_000_000_000

  /** A merchant at 2%, its empty settlement wallet, a rich payer, and a session for a large amount. */
  function Example(): DB {
    map[ClearingAccount := Account(0), FeeAccount := Account(0), UserOf(1) := UserRec,
        MerchantOf(1) := Merchant(7, 200), WalletOf(7) := Wallet(1, "TRY", 0, false),
        WalletOf(8) := Wallet(1, "TRY", LARGE, false),
        SessionOf(1) := Session(1, LARGE, "TRY", Pending, 100, None, None)]
  }

  lemma {:induction false} ExampleRow(id: RowId)
    requires id in Example()
    ensures RowOk(id, Example()[id])
    ensures !id.KeyOf? && !id.TxOf? && !id.ChargeOf? && !id.LegOf? && !id.CardOf?
    ensures id.WalletOf? ==> !Example()[id].deleted
    ensures id.SessionOf? ==> Example()[id].sessionStatus == Pending
    ensures id.MerchantOf? ==> Example()[id] == Merchant(7, 200)
  {
  }

  lemma {:induction false} ExampleIsFresh()
    ensures Fresh(Example())
  {
    var db := Example();
    assert Find(db, ClearingAccount) == Some(Account(0)) && Find(db, FeeAccount) == Some(Account(0));
    assert WalletOf(7) in db;
    forall id | id in db
      ensures RowOk(id, db[id]) && !id.KeyOf? && !id.TxOf? && !id.ChargeOf? && !id.LegOf? && !id.CardOf?
      ensures id.WalletOf? ==> !db[id].deleted
      ensures id.SessionOf? ==> db[id].sessionStatus == Pending
      ensures id.MerchantOf? ==> db[id] == Merchant(7, 200)
    {
      ExampleRow(id);
    }
  }

  lemma LargeFee()
    ensures Fee(LARGE, 200) == -844_674_407_370_955 && Net(LARGE, Fee(LARGE, 200)) == 50_844_674_407_370_955
  {
    assert Wrap64(10_000_000_000_000_000_000) == -8_446_744_073_709_551_616;
  }

  /** From these tables a charge commits with a negative fee. */
  lemma ExampleChargeCommits() returns (c: Call)
    ensures Fresh(Example()) && MerchantIs(Example(), c.merchant, c.settlement, c.bps)
    ensures CanSettle(Example(), c) && Fee(c.amount, c.bps) < 0
  {
    ExampleIsFresh();
    LargeFee();
    c := Call(1, 7, 200, "", 0, LARGE, Accepted, 1, 2, true, true);
  }

  /** And a checkout commits with a negative fee. */
  lemma ExampleCheckoutCommits() returns (op: Op)
    ensures Fresh(Example()) && op.Checkout? && Issued(op, Example()) && Spec(op, Example()).Committed?
    ensures Fee(Example()[SessionOf(op.session)].amount, op.bps) < 0
  {
    ExampleIsFresh();
    LargeFee();
    op := Checkout(1, 1, 8, 7, 200, 50, 3);
  }

  /** So conservation and balance do fail: some freshly seeded tables lead to an unbalanced charge, and to a
      checkout that creates money. */
  lemma BalanceCanFail()
    ensures exists base, trace, charge :: Fresh(base) && Unbalances(base, trace, charge)
    ensures exists base, trace, session :: Fresh(base) && Creates(base, trace, session)
  {
    var c := ExampleChargeCommits();
    WrappedChargeUnbalances(Example(), c);
    var op := ExampleCheckoutCommits();
    WrappedCheckoutCreates(Example(), op);
  }

  function FullRateExample(): DB {
    Example()[MerchantOf(1) := Merchant(7, 10000)]
  }

  /** A merchant at 100% whose large charge is settled all the same. */
  lemma FullRateChargeCommits() returns (c: Call)
    ensures c.bps == 10000 && MerchantIs(FullRateExample(), c.merchant, c.settlement, c.bps)
    ensures CanSettle(FullRateExample(), c)
  {
    c := Call(1, 7, 10000, "", 0, 1_000_000_000_000_000, Accepted, 1, 2, true, true);
    FullRateFee();
  }

  lemma FullRateFee()
    ensures Fee(1_000_000_000_000_000, 10000) == -844_674_407_370_955
    ensures Net(1_000_000_000_000_000, Fee(1_000_000_000_000_000, 10000)) == 1_844_674_407_370_955
  {
    assert Wrap64(10_000_000_000_000_000_000) == -8_446_744_073_709_551_616;
  }
}
