/**
 What holds in every committed state reachable by any interleaving, starting from freshly
 seeded tables: the ledger, the statements, the card counters and the money all agree, each
 idempotency key is one transfer, and each paid session is one checkout.
 */
module Guarantees {
  import opened Money
  import opened Tables
  import opened Programs
  import opened Specs
  import opened History
  import opened Interleaving
  import opened Sums
  import opened Laws
  import opened Records

  /** Users, merchants, live wallets with opening balances, unused cards, unpaid sessions, and system
      accounts at zero. */
  ghost predicate Fresh(db: DB) {
    && WellFormed(db) && Seeded(db)
    && db[ClearingAccount].balance == 0 && db[FeeAccount].balance == 0
    && forall id | id in db ::
         && !id.KeyOf? && !id.TxOf? && !id.ChargeOf? && !id.LegOf?
         && (id.CardOf? ==> db[id].spent == 0)
         && (id.WalletOf? ==> !db[id].deleted)
         && (id.SessionOf? ==> db[id].sessionStatus == Pending)
  }

  lemma FreshRecordsOk(base: DB)
    requires Fresh(base)
    ensures RecordsOk(base)
  {
    assert forall id | id in base :: RowOk(id, base[id]);
  }

  /** The committed state of a reachable system is a replay, with every invariant of the records. */
  lemma ReachableIsReplay(base: DB, trace: seq<Step>)
    requires Fresh(base) && Behaves(Opening(base), trace)
    ensures var s := After(Opening(base), trace);
      && Replay(base, s.log) == Some(s.committed)
      && WellFormed(s.committed) && Grows(base, s.committed)
      && SameMerchants(base, s.committed) && Seeded(s.committed)
      && RecordsOk(s.committed)
  {
    CommittedStateIsReplay(base, trace);
    var s := After(Opening(base), trace);
    ReplayKeepsRows(base, s.log);
    ReplayKeepsSettings(base, s.log);
    FreshRecordsOk(base);
    ReplayKeepsRecords(base, s.log);
  }

  /** Balances never go negative, no card spends past its limit, deleted wallets that settle for no
      merchant stay empty, keys match transfers, and paid sessions match their payments. */
  lemma RecordsHoldWhenReachable(base: DB, trace: seq<Step>)
    requires Fresh(base) && Behaves(Opening(base), trace)
    ensures var db := After(Opening(base), trace).committed;
      && (forall n | WalletOf(n) in db :: db[WalletOf(n)].Wallet? && 0 <= db[WalletOf(n)].balance)
      && CardsWithinLimit(db) && DeletedAreEmpty(db) && KeysMatchTransfers(db)
      && ActivitiesOk(db) && SessionsOk(db)
  {
    ReachableIsReplay(base, trace);
    var db := After(Opening(base), trace).committed;
    forall n | WalletOf(n) in db ensures db[WalletOf(n)].Wallet? && 0 <= db[WalletOf(n)].balance {
      assert RowOk(WalletOf(n), db[WalletOf(n)]);
    }
  }

  // ----- the sums -----

  /** Fresh tables hold nothing of these quantities. */
  lemma FreshHasNone(q: Quantity, base: DB)
    requires Fresh(base) && !q.Money?
    requires q.BalanceOf? ==> q.id == ClearingAccount || q.id == FeeAccount || q.id.CardOf?
    ensures Sum(q, base) == 0
  {
    forall id | id in base ensures Weigh(q, id, base[id]) == 0 {
      assert RowOk(id, base[id]);
    }
    SumOfNothing(q, base);
  }

  lemma CommittedIsWellFormed(base: DB, trace: seq<Step>)
    requires Fresh(base) && Behaves(Opening(base), trace)
    ensures WellFormed(After(Opening(base), trace).committed) && Seeded(After(Opening(base), trace).committed)
  {
    ReachableIsReplay(base, trace);
  }

  lemma LawHolds(law: Law, base: DB, trace: seq<Step>)
    requires Fresh(base) && Behaves(Opening(base), trace)
    requires law.Conservation? || law.FeeLedger? ==> law.base == base
    requires law.WalletStatement? ==> !IsSettlementWallet(base, law.wallet)
    ensures Total(law, After(Opening(base), trace).committed) == Total(law, base)
  {
    CommittedStateIsReplay(base, trace);
    ReplayKeepsLaw(law, base, After(Opening(base), trace).log);
  }

  /** The clearing account is the sum of the ledger's clearing debits. */
  lemma ClearingIsSumOfDebits(base: DB, trace: seq<Step>)
    requires Fresh(base) && Behaves(Opening(base), trace)
    ensures var db := After(Opening(base), trace).committed;
      ClearingAccount in db && db[ClearingAccount].Account?
      && db[ClearingAccount].balance == Sum(ClearingDebits, db)
  {
    var db := After(Opening(base), trace).committed;
    CommittedIsWellFormed(base, trace);
    LawHolds(ClearingLedger, base, trace);
    assert RowOk(ClearingAccount, db[ClearingAccount]);
    FreshHasNone(BalanceOf(ClearingAccount), base);
    FreshHasNone(ClearingDebits, base);
    SumOfOne(BalanceOf(ClearingAccount), ClearingAccount, db);
  }

  /** Fee revenue is the sum of the ledger's fee credits and of the fees of paid sessions. */
  lemma FeeRevenueIsSumOfFees(base: DB, trace: seq<Step>)
    requires Fresh(base) && Behaves(Opening(base), trace)
    ensures var db := After(Opening(base), trace).committed;
      FeeAccount in db && db[FeeAccount].Account?
      && db[FeeAccount].balance == Sum(FeeCredits, db) + Sum(PaidFees(base), db)
  {
    var db := After(Opening(base), trace).committed;
    CommittedIsWellFormed(base, trace);
    LawHolds(FeeLedger(base), base, trace);
    assert RowOk(FeeAccount, db[FeeAccount]);
    FreshHasNone(BalanceOf(FeeAccount), base);
    FreshHasNone(FeeCredits, base);
    FreshHasNone(PaidFees(base), base);
    SumOfOne(BalanceOf(FeeAccount), FeeAccount, db);
  }

  /** Each card's spend counter is the sum of the activity rows that carry the card. */
  lemma SpentIsSumOfPayments(base: DB, trace: seq<Step>, card: Id)
    requires Fresh(base) && Behaves(Opening(base), trace)
    requires CardOf(card) in After(Opening(base), trace).committed
    ensures var db := After(Opening(base), trace).committed;
      db[CardOf(card)].Card? && db[CardOf(card)].spent == Sum(CardPayments(card), db)
  {
    var db := After(Opening(base), trace).committed;
    CommittedIsWellFormed(base, trace);
    LawHolds(CardSpend(card), base, trace);
    assert RowOk(CardOf(card), db[CardOf(card)]);
    FreshHasNone(BalanceOf(CardOf(card)), base);
    FreshHasNone(CardPayments(card), base);
    SumOfOne(BalanceOf(CardOf(card)), CardOf(card), db);
  }

  /** A succeeded charge's debits total its amount, and its credits total its amount plus what a
      wrapped fee created; a failed or absent charge has no ledger rows of either kind. */
  lemma ChargeLegsBalance(base: DB, trace: seq<Step>, charge: Id)
    requires Fresh(base) && Behaves(Opening(base), trace)
    ensures var db := After(Opening(base), trace).committed;
      if ChargeOf(charge) in db && db[ChargeOf(charge)].Charge?
         && db[ChargeOf(charge)].chargeStatus == ChargeSucceeded then
        var row := db[ChargeOf(charge)];
        && Sum(LegTotal(charge, Debit), db) == row.amount
        && Sum(LegTotal(charge, Credit), db) == row.amount + Drift(row.amount, row.fee, row.net)
      else
        Sum(LegTotal(charge, Debit), db) == 0 && Sum(LegTotal(charge, Credit), db) == 0
  {
    var db := After(Opening(base), trace).committed;
    LegsTotalWhatIsOwed(base, trace, charge, Debit);
    LegsTotalWhatIsOwed(base, trace, charge, Credit);
    SumOfOne(Owed(charge, Debit), ChargeOf(charge), db);
    SumOfOne(Owed(charge, Credit), ChargeOf(charge), db);
  }

  lemma LegsTotalWhatIsOwed(base: DB, trace: seq<Step>, charge: Id, kind: EntryType)
    requires Fresh(base) && Behaves(Opening(base), trace)
    ensures var db := After(Opening(base), trace).committed;
      Sum(LegTotal(charge, kind), db) == Sum(Owed(charge, kind), db)
  {
    LawHolds(if kind == Debit then ChargeDebits(charge) else ChargeCredits(charge), base, trace);
    FreshHasNone(LegTotal(charge, kind), base);
    FreshHasNone(Owed(charge, kind), base);
  }

  /** A wallet that settles for no merchant: its balance moved by exactly its statement's inflow less outflow. */
  lemma StatementAgreesWithBalance(base: DB, trace: seq<Step>, wallet: int)
    requires Fresh(base) && Behaves(Opening(base), trace) && !IsSettlementWallet(base, wallet)
    requires WalletOf(wallet) in After(Opening(base), trace).committed
    ensures var db := After(Opening(base), trace).committed;
      db[WalletOf(wallet)].Wallet?
      && db[WalletOf(wallet)].balance - WeightAt(BalanceOf(WalletOf(wallet)), base, WalletOf(wallet))
         == Sum(StatementFlow(wallet), db)
  {
    var db := After(Opening(base), trace).committed;
    var law := WalletStatement(wallet);
    CommittedIsWellFormed(base, trace);
    LawHolds(law, base, trace);
    assert RowOk(WalletOf(wallet), db[WalletOf(wallet)]);
    FreshHasNone(StatementFlow(wallet), base);
    SumOfOne(BalanceOf(WalletOf(wallet)), WalletOf(wallet), base);
    SumOfOne(BalanceOf(WalletOf(wallet)), WalletOf(wallet), db);
  }

  // ----- conservation -----

  /** Over any run, wallets + fee revenue - clearing + card spend - (converted - amount) of every transfer
      changes by exactly what wrapped fees created. */
  lemma MoneyChangesByCreated(base: DB, trace: seq<Step>)
    requires Fresh(base) && Behaves(Opening(base), trace)
    ensures var db := After(Opening(base), trace).committed;
      Sum(Money, db) == Sum(Money, base) + Sum(Created(base), db)
  {
    var db := After(Opening(base), trace).committed;
    LawHolds(Conservation(base), base, trace);
    FreshHasNone(Created(base), base);
  }

  /** Every succeeded charge was priced by ProcessCharge at its merchant's rate. */
  ghost predicate ChargesPriced(base: DB, db: DB) {
    forall c | ChargeOf(c) in db && db[ChargeOf(c)].Charge? && db[ChargeOf(c)].chargeStatus == ChargeSucceeded ::
      var row := db[ChargeOf(c)];
      row.fee == MerchantFee(base, row.merchant, row.amount) && row.net == Net(row.amount, row.fee)
  }

  lemma {:induction false} ReplayKeepsChargesPriced(base: DB, log: seq<Op>)
    requires Fresh(base) && Replay(base, log).Some?
    ensures ChargesPriced(base, Replay(base, log).value)
  {
    if log != [] {
      var before, op := log[..|log| - 1], log[|log| - 1];
      ReplayKeepsChargesPriced(base, before);
      ReplayKeepsSettings(base, before);
      var db, db' := Replay(base, before).value, Replay(base, log).value;
      forall c | ChargeOf(c) in db' && db'[ChargeOf(c)].Charge? && db'[ChargeOf(c)].chargeStatus == ChargeSucceeded
        ensures db'[ChargeOf(c)].fee == MerchantFee(base, db'[ChargeOf(c)].merchant, db'[ChargeOf(c)].amount)
        ensures db'[ChargeOf(c)].net == Net(db'[ChargeOf(c)].amount, db'[ChargeOf(c)].fee)
      {
        ChargeAfter(op, db, c);
        if op.Settle? && op.charge == c {
          assert Find(base, MerchantOf(op.merchant)) == Find(db, MerchantOf(op.merchant));
        }
      }
    }
  }

  lemma ChargeAfter(op: Op, db: DB, c: Id)
    requires Spec(op, db).Committed? && ChargeOf(c) in Spec(op, db).db
    ensures var row := Spec(op, db).db[ChargeOf(c)];
      || Find(db, ChargeOf(c)) == Some(row)
      || (op.Settle? && op.charge == c && row == ChargeRow(op))
      || (row.Charge? && row.chargeStatus == ChargeFailed)
  {
    if !Writes(op, db, ChargeOf(c)) {
      CommitWritesOnly(op, db, ChargeOf(c));
    } else if op.Settle? {
      var charged := db[ChargeOf(op.charge) := ChargeRow(op)];
      LegsElsewhere(charged, op.charge, op.entries, ChargeOf(c));
    }
  }

  /** The ledger is balanced for every succeeded charge, debits equal to credits, if and only if the
      charge's int64 fee is not negative. */
  lemma LegsBalanceIffFeeNonNegative(base: DB, trace: seq<Step>, charge: Id)
    requires Fresh(base) && Behaves(Opening(base), trace)
    requires ChargeOf(charge) in After(Opening(base), trace).committed
    requires After(Opening(base), trace).committed[ChargeOf(charge)].Charge?
    requires After(Opening(base), trace).committed[ChargeOf(charge)].chargeStatus == ChargeSucceeded
    ensures var db := After(Opening(base), trace).committed;
      Sum(LegTotal(charge, Debit), db) == Sum(LegTotal(charge, Credit), db) <==> db[ChargeOf(charge)].fee >= 0
  {
    var s := After(Opening(base), trace);
    ReachableIsReplay(base, trace);
    ReplayKeepsChargesPriced(base, s.log);
    assert RowOk(ChargeOf(charge), s.committed[ChargeOf(charge)]);
    ChargeLegsBalance(base, trace, charge);
    PricedDrift(base, s.committed[ChargeOf(charge)].merchant, s.committed[ChargeOf(charge)].amount);
  }

  lemma PricedDrift(base: DB, merchant: Id, amount: int)
    requires 0 < amount <= INT64_MAX
    ensures var fee := MerchantFee(base, merchant, amount);
      Drift(amount, fee, Net(amount, fee)) == 0 <==> fee >= 0
  {
    if MerchantOf(merchant) in base && base[MerchantOf(merchant)].Merchant? {
      SplitConservesIffFeeNonNegative(amount, base[MerchantOf(merchant)].bps);
    }
  }

  predicate IsSucceeded(db: DB, c: Id) {
    ChargeOf(c) in db && db[ChargeOf(c)].Charge? && db[ChargeOf(c)].chargeStatus == ChargeSucceeded
  }

  /** No payment that moved money had a fee that wrapped below zero. */
  ghost predicate NoFeeWrapped(base: DB, db: DB) {
    && (forall c | IsPaid(db, c) :: MerchantFee(base, db[SessionOf(c)].merchant, db[SessionOf(c)].amount) >= 0)
    && (forall c | IsSucceeded(db, c) :: db[ChargeOf(c)].fee >= 0)
  }

  lemma NothingCreatedAt(base: DB, db: DB, id: RowId)
    requires WellFormed(db) && ChargesPriced(base, db) && NoFeeWrapped(base, db) && id in db
    ensures Weigh(Created(base), id, db[id]) == 0
  {
    assert RowOk(id, db[id]);
    if (id.SessionOf? && IsPaid(db, id.id)) || (id.ChargeOf? && IsSucceeded(db, id.id)) {
      PricedDrift(base, db[id].merchant, db[id].amount);
    }
  }

  /** Conservation: as long as no paid session's and no succeeded charge's fee has wrapped, nothing is created
      or lost by any interleaving. */
  lemma MoneyIsConserved(base: DB, trace: seq<Step>)
    requires Fresh(base) && Behaves(Opening(base), trace)
    requires NoFeeWrapped(base, After(Opening(base), trace).committed)
    ensures Sum(Money, After(Opening(base), trace).committed) == Sum(Money, base)
  {
    var db := After(Opening(base), trace).committed;
    MoneyChangesByCreated(base, trace);
    ReachableIsReplay(base, trace);
    ReplayKeepsChargesPriced(base, After(Opening(base), trace).log);
    forall id | id in db ensures Weigh(Created(base), id, db[id]) == 0 {
      NothingCreatedAt(base, db, id);
    }
    SumOfNothing(Created(base), db);
  }

  /** Rates between 0% and 100%, and no paid session or succeeded charge above the largest amount whose fee
      cannot wrap. */
  ghost predicate WithinFeeRange(base: DB, db: DB) {
    && (forall m | MerchantOf(m) in base && base[MerchantOf(m)].Merchant? :: 0 <= base[MerchantOf(m)].bps <= 10000)
    && (forall c | IsPaid(db, c) :: db[SessionOf(c)].amount <= NO_WRAP_MAX)
    && (forall c | IsSucceeded(db, c) :: db[ChargeOf(c)].amount <= NO_WRAP_MAX)
  }

  lemma FeeInRange(base: DB, merchant: Id, amount: int)
    requires forall m | MerchantOf(m) in base && base[MerchantOf(m)].Merchant? :: 0 <= base[MerchantOf(m)].bps <= 10000
    requires 0 < amount <= NO_WRAP_MAX
    ensures MerchantFee(base, merchant, amount) >= 0
  {
    if MerchantOf(merchant) in base && base[MerchantOf(merchant)].Merchant? {
      FeeWithoutOverflow(amount, base[MerchantOf(merchant)].bps);
    }
  }

  /** Within the fee range the hypothesis of conservation holds in every reachable state. */
  lemma InRangeNoFeeWraps(base: DB, trace: seq<Step>)
    requires Fresh(base) && Behaves(Opening(base), trace)
    requires WithinFeeRange(base, After(Opening(base), trace).committed)
    ensures NoFeeWrapped(base, After(Opening(base), trace).committed)
  {
    var db := After(Opening(base), trace).committed;
    ReachableIsReplay(base, trace);
    ReplayKeepsChargesPriced(base, After(Opening(base), trace).log);
    forall c | IsPaid(db, c) ensures MerchantFee(base, db[SessionOf(c)].merchant, db[SessionOf(c)].amount) >= 0 {
      assert RowOk(SessionOf(c), db[SessionOf(c)]);
      FeeInRange(base, db[SessionOf(c)].merchant, db[SessionOf(c)].amount);
    }
    forall c | IsSucceeded(db, c) ensures db[ChargeOf(c)].fee >= 0 {
      assert RowOk(ChargeOf(c), db[ChargeOf(c)]);
      FeeInRange(base, db[ChargeOf(c)].merchant, db[ChargeOf(c)].amount);
    }
  }

  /** The row in which a payment records what it created. */
  function PricedRow(op: Op): RowId
    requires op.Checkout? || op.Settle?
  {
    if op.Checkout? then SessionOf(op.session) else ChargeOf(op.charge)
  }

  /** Rows other than sessions and charges never weigh in the created total. */
  lemma OnlyPaymentsCreate(base: DB, db: DB, id: RowId)
    requires WellFormed(db) && !id.SessionOf? && !id.ChargeOf?
    ensures WeightAt(Created(base), db, id) == 0
  {
    assert id in db ==> RowOk(id, db[id]);
  }

  lemma CreatedElsewhere(op: Op, db: DB, id: RowId)
    requires op.Checkout? || op.Settle?
    requires WellFormed(db) && Spec(op, db).Committed? && id != PricedRow(op)
    ensures WeightAt(Created(db), db, id) == WeightAt(Created(db), Spec(op, db).db, id)
  {
    if !Writes(op, db, id) {
      CommitWritesOnly(op, db, id);
      assert Find(Spec(op, db).db, id) == Find(db, id);
    } else {
      CommitKeepsRows(op, db);
      OnlyPaymentsCreate(db, db, id);
      OnlyPaymentsCreate(db, Spec(op, db).db, id);
    }
  }

  /** A committed payment changes the created total by the change of its own row's weight. */
  lemma CreatedMovesWithRow(op: Op, db: DB)
    requires op.Checkout? || op.Settle?
    requires WellFormed(db) && Spec(op, db).Committed?
    ensures Sum(Created(db), Spec(op, db).db) - Sum(Created(db), db) ==
      WeightAt(Created(db), Spec(op, db).db, PricedRow(op)) - WeightAt(Created(db), db, PricedRow(op))
  {
    var db' := Spec(op, db).db;
    var id := PricedRow(op);
    SumWithout(Created(db), db, id);
    SumWithout(Created(db), db', id);
    forall other ensures WeightAt(Created(db), db - {id}, other) == WeightAt(Created(db), db' - {id}, other) {
      if other != id {
        CreatedElsewhere(op, db, other);
      }
    }
    SumByWeights(Created(db), db - {id}, db' - {id});
  }

  /** The amount and the int64 fee of a payment. */
  ghost predicate Priced(op: Op, db: DB, amount: int, fee: int) {
    if op.Checkout? then
      SessionOf(op.session) in db && db[SessionOf(op.session)].Session?
      && amount == db[SessionOf(op.session)].amount && fee == Fee(amount, op.bps)
    else op.Settle? && amount == op.amount && fee == op.fee
  }

  lemma CheckoutRowCreates(op: Op, db: DB, amount: int, fee: int)
    requires op.Checkout? && WellFormed(db) && Issued(op, db) && Spec(op, db).Committed? && Priced(op, db, amount, fee)
    ensures WeightAt(Created(db), Spec(op, db).db, PricedRow(op)) - WeightAt(Created(db), db, PricedRow(op))
      == Drift(amount, fee, Net(amount, fee))
    ensures 0 < amount <= INT64_MAX
  {
    var session := db[SessionOf(op.session)];
    assert RowOk(SessionOf(op.session), session);
    assert Spec(op, db).db[SessionOf(op.session)] == PaidSession(op, session);
    assert MerchantFee(db, session.merchant, amount) == fee;
  }

  lemma SettleStoresCharge(op: Op, db: DB)
    requires op.Settle? && Spec(op, db).Committed?
    ensures ChargeOf(op.charge) !in db && Find(Spec(op, db).db, ChargeOf(op.charge)) == Some(ChargeRow(op))
    ensures 0 < op.amount <= INT64_MAX
  {
    LegsElsewhere(db[ChargeOf(op.charge) := ChargeRow(op)], op.charge, op.entries, ChargeOf(op.charge));
  }

  lemma SettleRowCreates(op: Op, db: DB, amount: int, fee: int)
    requires op.Settle? && Issued(op, db) && Spec(op, db).Committed? && Priced(op, db, amount, fee)
    ensures WeightAt(Created(db), Spec(op, db).db, PricedRow(op)) - WeightAt(Created(db), db, PricedRow(op))
      == Drift(amount, fee, Net(amount, fee))
    ensures 0 < amount <= INT64_MAX
  {
    SettleStoresCharge(op, db);
  }

  /** The conserved total moves by exactly the payment's drift. */
  lemma MoneyMovesByDrift(op: Op, db: DB, amount: int, fee: int)
    requires op.Checkout? || op.Settle?
    requires WellFormed(db) && Seeded(db) && Issued(op, db) && Spec(op, db).Committed? && Priced(op, db, amount, fee)
    ensures Sum(Money, Spec(op, db).db) == Sum(Money, db) + Drift(amount, fee, Net(amount, fee))
    ensures 0 < amount <= INT64_MAX
  {
    CreatedMovesWithRow(op, db);
    if op.Checkout? {
      CheckoutRowCreates(op, db, amount, fee);
    } else {
      SettleRowCreates(op, db, amount, fee);
    }
    CommitKeepsLaw(Conservation(db), op, db);
  }

  /** A committed payment conserves money if and only if its int64 fee is not negative. */
  lemma PaymentConservesIffFeeNonNegative(op: Op, db: DB, amount: int, fee: int, bps: int)
    requires op.Checkout? || op.Settle?
    requires WellFormed(db) && Seeded(db) && Issued(op, db) && Spec(op, db).Committed? && Priced(op, db, amount, fee)
    requires fee == Fee(amount, bps)
    ensures Sum(Money, Spec(op, db).db) == Sum(Money, db) <==> fee >= 0
  {
    MoneyMovesByDrift(op, db, amount, fee);
    SplitConservesIffFeeNonNegative(amount, bps);
  }

  // ----- once and only once -----

  /** How many logged operations are transfers with this key. */
  function TransfersWith(key: Id, log: seq<Op>): nat {
    if log == [] then 0
    else
      var n := |log| - 1;
      TransfersWith(key, log[..n]) + if log[n].Transfer? && log[n].key == key then 1 else 0
  }

  /** One commit takes a key only for its own transfer, and only when the key was free. */
  lemma KeyStep(op: Op, db: DB, key: Id)
    requires Spec(op, db).Committed?
    ensures KeyOf(key) in Spec(op, db).db <==> KeyOf(key) in db || (op.Transfer? && op.key == key)
    ensures op.Transfer? && op.key == key ==>
      KeyOf(key) !in db && op.amount > 0 && Find(Spec(op, db).db, TxOf(key)) == Some(TransferRow(op))
  {
    if !Writes(op, db, KeyOf(key)) {
      CommitWritesOnly(op, db, KeyOf(key));
    }
  }

  lemma ActivityStays(db: DB, db': DB, t: Id)
    requires Grows(db, db') && TxOf(t) in db && db[TxOf(t)].TxRec?
    ensures Find(db', TxOf(t)) == Find(db, TxOf(t))
  {
    assert SameIdentity(db[TxOf(t)], db'[TxOf(t)]);
  }

  /** Transfer `op` with `key` is stored: its key is taken and its activity row is there. */
  predicate TransferStored(op: Op, db: DB) {
    op.Transfer? && op.amount > 0 && KeyOf(op.key) in db && Find(db, TxOf(op.key)) == Some(TransferRow(op))
  }

  lemma ReplayLast(base: DB, log: seq<Op>, op: Op)
    requires WellFormed(base) && log != [] && Replay(base, log).Some? && op == log[|log| - 1]
    ensures var before := Replay(base, log[..|log| - 1]);
      && before.Some? && WellFormed(before.value) && Issued(op, before.value)
      && Spec(op, before.value) == Committed(Replay(base, log).value)
      && Grows(before.value, Replay(base, log).value)
  {
    var before := log[..|log| - 1];
    ReplayKeepsRows(base, before);
    CommitKeepsRows(op, Replay(base, before).value);
  }

  lemma LastTransferIsStored(base: DB, log: seq<Op>, op: Op)
    requires WellFormed(base) && log != [] && Replay(base, log).Some? && op == log[|log| - 1] && op.Transfer?
    ensures TransferStored(op, Replay(base, log).value)
  {
    ReplayLast(base, log, op);
    KeyStep(op, Replay(base, log[..|log| - 1]).value, op.key);
  }

  lemma {:induction false} LoggedTransferIsStored(base: DB, log: seq<Op>, i: nat)
    requires WellFormed(base) && Replay(base, log).Some? && i < |log| && log[i].Transfer?
    ensures TransferStored(log[i], Replay(base, log).value)
  {
    var n := |log| - 1;
    if i < n {
      ReplayLast(base, log, log[n]);
      LoggedTransferIsStored(base, log[..n], i);
      TransferStays(log[i], Replay(base, log[..n]).value, Replay(base, log).value);
    } else {
      LastTransferIsStored(base, log, log[n]);
    }
  }

  lemma TransferStays(op: Op, db: DB, db': DB)
    requires Grows(db, db') && TransferStored(op, db)
    ensures TransferStored(op, db')
  {
    ActivityStays(db, db', op.key);
  }

  lemma {:induction false} KeyIsOneTransferInReplay(base: DB, log: seq<Op>, key: Id)
    requires Fresh(base) && Replay(base, log).Some?
    ensures TransfersWith(key, log) == if KeyOf(key) in Replay(base, log).value then 1 else 0
  {
    if log != [] {
      var n := |log| - 1;
      ReplayLast(base, log, log[n]);
      KeyIsOneTransferInReplay(base, log[..n], key);
      KeyStep(log[n], Replay(base, log[..n]).value, key);
    }
  }

  /** Exactly once: a key is committed if and only if exactly one committed transfer carries it, never
      more than one does, and that transfer's activity row, with a positive amount, is the one stored. */
  lemma KeyIsExactlyOneTransfer(base: DB, trace: seq<Step>, key: Id)
    requires Fresh(base) && Behaves(Opening(base), trace)
    ensures var s := After(Opening(base), trace);
      && TransfersWith(key, s.log) <= 1
      && (KeyOf(key) in s.committed <==> TransfersWith(key, s.log) == 1)
      && (KeyOf(key) in s.committed <==> IsTransferRow(Find(s.committed, TxOf(key))))
      && forall i | 0 <= i < |s.log| && s.log[i].Transfer? && s.log[i].key == key ::
           TransferStored(s.log[i], s.committed)
  {
    var s := After(Opening(base), trace);
    ReachableIsReplay(base, trace);
    KeyIsOneTransferInReplay(base, s.log, key);
    forall i: nat | i < |s.log| && s.log[i].Transfer? ensures TransferStored(s.log[i], s.committed) {
      LoggedTransferIsStored(base, s.log, i);
    }
    assert KeyOf(key) in s.committed <==> IsTransferRow(Find(s.committed, TxOf(key)));
  }

  /** A key that no transfer has committed is free for a retry as soon as nobody holds it, whatever
      was rolled back before. */
  lemma RolledBackKeyIsFree(base: DB, trace: seq<Step>, retry: nat)
    requires Fresh(base) && Behaves(Opening(base), trace)
    requires var s := After(Opening(base), trace);
      && IsRunning(s, retry) && s.threads[retry].op.Transfer? && s.threads[retry].local == START
      && TransfersWith(s.threads[retry].op.key, s.log) == 0
      && Free(s, retry, KeyOf(s.threads[retry].op.key))
    ensures var s := After(Opening(base), trace);
      && Enabled(s, Execute(retry))
      && IsRunning(Apply(s, Execute(retry)), retry)
      && Apply(s, Execute(retry)).threads[retry].local.pc == 1
  {
    KeyIsExactlyOneTransfer(base, trace, After(Opening(base), trace).threads[retry].op.key);
  }

  /** How many logged operations are payments of this session. */
  function PaymentsOf(session: Id, log: seq<Op>): nat {
    if log == [] then 0
    else
      var n := |log| - 1;
      PaymentsOf(session, log[..n]) + if log[n].Checkout? && log[n].session == session then 1 else 0
  }

  /** Checkout `op` is stored: its session is paid by it, in time, and its activity row is there. */
  predicate PaymentStored(op: Op, db: DB) {
    && op.Checkout? && IsPaid(db, op.session)
    && var session := db[SessionOf(op.session)];
    && op.now <= session.expiresAt
    && session.payer == Some(op.user) && session.paidBy == Some(op.txId)
    && Find(db, TxOf(op.txId)) == Some(CheckoutRow(op, session.amount))
  }

  /** One commit pays a session only by its own checkout, and only when the session was PENDING. */
  lemma SessionStep(op: Op, db: DB, c: Id)
    requires WellFormed(db) && Spec(op, db).Committed?
    ensures IsPaid(Spec(op, db).db, c) <==> IsPaid(db, c) || (op.Checkout? && op.session == c)
    ensures op.Checkout? && op.session == c ==> !IsPaid(db, c) && PaymentStored(op, Spec(op, db).db)
  {
    if !Writes(op, db, SessionOf(c)) {
      CommitWritesOnly(op, db, SessionOf(c));
    }
  }

  lemma PaymentStays(op: Op, db: DB, db': DB)
    requires Grows(db, db') && PaymentStored(op, db)
    ensures PaymentStored(op, db')
  {
    assert SameIdentity(db[SessionOf(op.session)], db'[SessionOf(op.session)]);
    ActivityStays(db, db', op.txId);
  }

  lemma LastPaymentIsStored(base: DB, log: seq<Op>, op: Op)
    requires WellFormed(base) && log != [] && Replay(base, log).Some? && op == log[|log| - 1] && op.Checkout?
    ensures PaymentStored(op, Replay(base, log).value)
  {
    ReplayLast(base, log, op);
    SessionStep(op, Replay(base, log[..|log| - 1]).value, op.session);
  }

  lemma {:induction false} LoggedPaymentIsStored(base: DB, log: seq<Op>, i: nat)
    requires WellFormed(base) && Replay(base, log).Some? && i < |log| && log[i].Checkout?
    ensures PaymentStored(log[i], Replay(base, log).value)
  {
    var n := |log| - 1;
    if i < n {
      ReplayLast(base, log, log[n]);
      LoggedPaymentIsStored(base, log[..n], i);
      PaymentStays(log[i], Replay(base, log[..n]).value, Replay(base, log).value);
    } else {
      LastPaymentIsStored(base, log, log[n]);
    }
  }

  lemma {:induction false} SessionIsPaidOnceInReplay(base: DB, log: seq<Op>, c: Id)
    requires Fresh(base) && Replay(base, log).Some?
    ensures PaymentsOf(c, log) == if IsPaid(Replay(base, log).value, c) then 1 else 0
  {
    if log == [] {
      assert SessionOf(c) in base ==> RowOk(SessionOf(c), base[SessionOf(c)]);
    } else {
      var n := |log| - 1;
      ReplayLast(base, log, log[n]);
      SessionIsPaidOnceInReplay(base, log[..n], c);
      SessionStep(log[n], Replay(base, log[..n]).value, c);
    }
  }

  /** No committed session is EXPIRED or FAILED: the EXPIRED mark never survives its rollback. */
  lemma {:induction false} SessionsArePendingOrPaid(base: DB, log: seq<Op>, c: Id)
    requires Fresh(base) && Replay(base, log).Some? && SessionOf(c) in Replay(base, log).value
    ensures Replay(base, log).value[SessionOf(c)].Session?
    ensures Replay(base, log).value[SessionOf(c)].sessionStatus in {Pending, Paid}
  {
    ReplayKeepsRows(base, log);
    assert RowOk(SessionOf(c), Replay(base, log).value[SessionOf(c)]);
    if log != [] {
      var n := |log| - 1;
      var db := Replay(base, log[..n]).value;
      if SessionOf(c) in db {
        SessionsArePendingOrPaid(base, log[..n], c);
        ReplayKeepsRows(base, log[..n]);
        CommitKeepsRows(log[n], db);
        assert SameIdentity(db[SessionOf(c)], Replay(base, log).value[SessionOf(c)]);
      } else if !Writes(log[n], db, SessionOf(c)) {
        CommitWritesOnly(log[n], db, SessionOf(c));
      }
    }
  }

  /** A session is PAID if and only if exactly one checkout of it committed, in time; that checkout's
      activity row is stored for the session's amount; otherwise the session is still PENDING. */
  lemma SessionIsPaidExactlyOnce(base: DB, trace: seq<Step>, c: Id)
    requires Fresh(base) && Behaves(Opening(base), trace)
    requires SessionOf(c) in After(Opening(base), trace).committed
    ensures var s := After(Opening(base), trace);
      && PaymentsOf(c, s.log) <= 1
      && s.committed[SessionOf(c)].Session?
      && s.committed[SessionOf(c)].sessionStatus == (if PaymentsOf(c, s.log) == 1 then Paid else Pending)
      && (IsPaid(s.committed, c) ==> PaidProperly(s.committed, s.committed[SessionOf(c)]))
      && forall i | 0 <= i < |s.log| && s.log[i].Checkout? && s.log[i].session == c ::
           PaymentStored(s.log[i], s.committed)
  {
    var s := After(Opening(base), trace);
    ReachableIsReplay(base, trace);
    SessionIsPaidOnceInReplay(base, s.log, c);
    SessionsArePendingOrPaid(base, s.log, c);
    forall i: nat | i < |s.log| && s.log[i].Checkout? ensures PaymentStored(s.log[i], s.committed) {
      LoggedPaymentIsStored(base, s.log, i);
    }
    if IsPaid(s.committed, c) {
      assert SessionsOk(s.committed);
    }
  }
}
