/**
 Soft deletion over whole histories: who deleted a wallet, and what can still be taken from it.
 */
module Deletions {
  import opened Money
  import opened Tables
  import opened Programs
  import opened Specs
  import opened History
  import opened Interleaving
  import opened Reachability
  import opened Laws
  import opened Records
  import opened Guarantees
  import opened Outcomes

  predicate IsDeleted(db: DB, n: int) {
    WalletOf(n) in db && db[WalletOf(n)].Wallet? && db[WalletOf(n)].deleted
  }

  lemma CreditKeepsMark(db: DB, id: RowId, change: int, n: int)
    ensures IsDeleted(Credited(db, id, change), n) <==> IsDeleted(db, n)
  {
  }

  lemma CheckoutKeepsMark(op: Op, db: DB, n: int)
    requires op.Checkout? && Spec(op, db).Committed?
    ensures IsDeleted(Spec(op, db).db, n) <==> IsDeleted(db, n)
  {
    var amount := db[SessionOf(op.session)].amount;
    var fee := Fee(amount, op.bps);
    var debited := Credited(db, WalletOf(op.wallet), -amount);
    CreditKeepsMark(db, WalletOf(op.wallet), -amount, n);
    CreditKeepsMark(debited, WalletOf(op.settlement), Net(amount, fee), n);
    CreditKeepsMark(Credited(debited, WalletOf(op.settlement), Net(amount, fee)), FeeAccount, Positive(fee), n);
  }

  lemma SettleKeepsMark(op: Op, db: DB, n: int)
    requires op.Settle? && Spec(op, db).Committed?
    ensures IsDeleted(Spec(op, db).db, n) <==> IsDeleted(db, n)
  {
    var charged := db[ChargeOf(op.charge) := ChargeRow(op)];
    var booked := WithLegs(charged, op.charge, op.entries);
    LegsElsewhere(charged, op.charge, op.entries, WalletOf(n));
    assert Find(booked, WalletOf(n)) == Find(db, WalletOf(n));
    var settled := Credited(booked, WalletOf(op.settlement), op.net);
    CreditKeepsMark(booked, WalletOf(op.settlement), op.net, n);
    CreditKeepsMark(settled, ClearingAccount, op.amount, n);
    CreditKeepsMark(Credited(settled, ClearingAccount, op.amount), FeeAccount, Positive(op.fee), n);
  }

  lemma OthersKeepMark(op: Op, db: DB, n: int)
    requires !op.Delete? && Spec(op, db).Committed?
    ensures IsDeleted(Spec(op, db).db, n) <==> IsDeleted(db, n)
  {
    if op.Checkout? {
      CheckoutKeepsMark(op, db, n);
    } else if op.Settle? {
      SettleKeepsMark(op, db, n);
    } else if op.Transfer? {
      var debited := Credited(db, WalletOf(op.from), -op.amount);
      CreditKeepsMark(db, WalletOf(op.from), -op.amount, n);
      CreditKeepsMark(debited, WalletOf(op.to), op.converted, n);
    }
  }

  /** The wallet is there, and this is its own user's deletion of it. */
  predicate IsOwnersDelete(op: Op, db: DB, n: int) {
    WalletOf(n) in db && db[WalletOf(n)].Wallet? && op == Op.Delete(db[WalletOf(n)].user, n)
  }

  lemma DeleteMarks(op: Op, db: DB, n: int)
    requires op.Delete? && WellFormed(db) && Spec(op, db).Committed?
    ensures IsDeleted(Spec(op, db).db, n) <==> IsDeleted(db, n) || IsOwnersDelete(op, db, n)
    ensures IsOwnersDelete(op, db, op.wallet)
  {
    DeleteCommitsIff(op, db);
  }

  /** One commit deletes a wallet only by a Delete of its own user. */
  lemma DeletionStep(op: Op, db: DB, db': DB, n: int)
    requires WellFormed(db) && Spec(op, db) == Committed(db')
    ensures IsDeleted(db', n) <==> IsDeleted(db, n) || IsOwnersDelete(op, db, n)
    ensures op.Delete? ==> IsOwnersDelete(op, db, op.wallet)
  {
    if op.Delete? {
      DeleteMarks(op, db, n);
    } else {
      OthersKeepMark(op, db, n);
    }
  }

  lemma UserStays(db: DB, db': DB, n: int)
    requires WellFormed(db) && Grows(db, db') && WalletOf(n) in db
    ensures WalletOf(n) in db' && db[WalletOf(n)].Wallet? && db'[WalletOf(n)].Wallet?
    ensures db'[WalletOf(n)].user == db[WalletOf(n)].user
  {
    assert RowOk(WalletOf(n), db[WalletOf(n)]) && SameIdentity(db[WalletOf(n)], db'[WalletOf(n)]);
  }

  /** Every deletion in the history is of a wallet that is there, by its user. */
  lemma {:induction false} DeletionsAreOwners(base: DB, log: seq<Op>, user: Id, n: int)
    requires Fresh(base) && Replay(base, log).Some? && Op.Delete(user, n) in log
    ensures IsDeleted(Replay(base, log).value, n) && Replay(base, log).value[WalletOf(n)].user == user
  {
    var last, before := log[|log| - 1], log[..|log| - 1];
    assert log == before + [last];
    ReplayLast(base, log, last);
    var db, db' := Replay(base, before).value, Replay(base, log).value;
    DeletionStep(last, db, db', n);
    if Op.Delete(user, n) in before {
      DeletionsAreOwners(base, before, user, n);
    }
    UserStays(db, db', n);
  }

  lemma {:induction false} DeletedHasDeletion(base: DB, log: seq<Op>, n: int)
    requires Fresh(base) && Replay(base, log).Some? && IsDeleted(Replay(base, log).value, n)
    ensures Op.Delete(Replay(base, log).value[WalletOf(n)].user, n) in log
  {
    assert log == [] ==> !IsDeleted(base, n);
    var last, before := log[|log| - 1], log[..|log| - 1];
    assert log == before + [last];
    ReplayLast(base, log, last);
    var db, db' := Replay(base, before).value, Replay(base, log).value;
    DeletionStep(last, db, db', n);
    UserStays(db, db', n);
    if IsDeleted(db, n) {
      DeletedHasDeletion(base, before, n);
    }
  }

  /** In every reachable state a wallet is deleted if and only if a deletion of its own user has committed. */
  lemma DeletedIffOwnerDeleted(base: DB, trace: seq<Step>, n: int)
    requires Fresh(base) && Behaves(Opening(base), trace)
    requires WalletOf(n) in After(Opening(base), trace).committed
    ensures var s := After(Opening(base), trace);
      && s.committed[WalletOf(n)].Wallet?
      && (s.committed[WalletOf(n)].deleted <==> exists user :: Op.Delete(user, n) in s.log)
      && (forall user | Op.Delete(user, n) in s.log :: user == s.committed[WalletOf(n)].user)
  {
    var s := After(Opening(base), trace);
    CommittedStateIsReplay(base, trace);
    assert RowOk(WalletOf(n), s.committed[WalletOf(n)]);
    if IsDeleted(s.committed, n) {
      DeletedHasDeletion(base, s.log, n);
    }
    forall user | Op.Delete(user, n) in s.log
      ensures IsDeleted(s.committed, n) && user == s.committed[WalletOf(n)].user
    {
      DeletionsAreOwners(base, s.log, user, n);
    }
  }

  /** Exactly what still takes money from a deleted wallet: a payment with a card on it, or, when it is a
      settlement wallet, a checkout whose net has wrapped below zero.  No transfer and no checkout is ever
      paid from it. */
  lemma DeletedWalletLosesIff(op: Op, db: DB, n: int)
    requires WellFormed(db) && Issued(op, db) && Spec(op, db).Committed? && IsDeleted(db, n)
    ensures BalanceIn(Spec(op, db).db, WalletOf(n)) < BalanceIn(db, WalletOf(n))
      <==> (op.CardPay? && CardOf(op.card) in db && db[CardOf(op.card)].Card? && db[CardOf(op.card)].wallet == n)
           || (op.Checkout? && op.settlement == n && NetOf(op, db) < 0)
  {
    BalancesMove(op, db, WalletOf(n));
    CommitsIffCan(op, db);
    if op.Settle? {
      assert op.entries[1] == Entry(MerchantPayable, Credit, op.net);
      assert 0 < op.entries[1].sum;
    }
  }

  /** In a history, no wallet that settles for nobody moves at all once it is deleted. */
  lemma DeletedWalletStaysPut(op: Op, db: DB, n: int)
    requires WellFormed(db) && Issued(op, db) && Spec(op, db).Committed? && DeletedAreEmpty(db)
    requires IsDeleted(db, n) && !IsSettlementWallet(db, n)
    ensures BalanceIn(Spec(op, db).db, WalletOf(n)) == BalanceIn(db, WalletOf(n)) == 0
  {
    CommitKeepsDeletedEmpty(op, db);
    CommitKeepsRows(op, db);
    CommitKeepsMerchants(op, db);
    if IsSettlementWallet(Spec(op, db).db, n) {
      SettlementStays(Spec(op, db).db, db, n);
    }
    assert SameIdentity(db[WalletOf(n)], Spec(op, db).db[WalletOf(n)]);
  }

  // ----- a card on a deleted settlement wallet -----

  /** A merchant at 2% whose settlement wallet 8 has an ACTIVE card. */
  function CardExample(): DB {
    map[ClearingAccount := Account(0), FeeAccount := Account(0), UserOf(1) := UserRec,
        MerchantOf(1) := Merchant(8, 200), WalletOf(8) := Wallet(1, "TRY", 0, false),
        CardOf(5) := Card(1, 8, 5000, 0, CardActive, "123", 12, 2030)]
  }

  lemma {:induction false} CardExampleRow(id: RowId)
    requires id in CardExample()
    ensures RowOk(id, CardExample()[id])
    ensures !id.KeyOf? && !id.TxOf? && !id.ChargeOf? && !id.LegOf? && !id.SessionOf?
    ensures id.CardOf? ==> CardExample()[id].spent == 0
    ensures id.WalletOf? ==> !CardExample()[id].deleted
    ensures id.MerchantOf? ==> CardExample()[id] == Merchant(8, 200)
  {
  }

  lemma {:induction false} CardExampleIsFresh()
    ensures Fresh(CardExample())
  {
    var db := CardExample();
    assert Find(db, ClearingAccount) == Some(Account(0)) && Find(db, FeeAccount) == Some(Account(0));
    assert WalletOf(8) in db;
    forall id | id in db
      ensures RowOk(id, db[id]) && !id.KeyOf? && !id.TxOf? && !id.ChargeOf? && !id.LegOf? && !id.SessionOf?
      ensures id.CardOf? ==> db[id].spent == 0
      ensures id.WalletOf? ==> !db[id].deleted
      ensures id.MerchantOf? ==> db[id] == Merchant(8, 200)
    {
      CardExampleRow(id);
    }
  }

  const DELETION := Op.Delete(1, 8)
  const SETTLEMENT := Op.Settle(2, 1, 10000, 200, 9800, Legs(10000, 200, 9800), 8)
  const PAYMENT := Op.CardPay(9, 5, "123", 12, 2030, 100)

  lemma {:induction false} DeletionCommits()
    ensures Spec(DELETION, CardExample()) == Committed(CardExample()[WalletOf(8) := Wallet(1, "TRY", 0, true)])
  {
  }

  lemma {:induction false} SettlementCommits(db: DB)
    requires WellFormed(db) && db == CardExample()[WalletOf(8) := Wallet(1, "TRY", 0, true)]
    ensures Issued(SETTLEMENT, db) && Spec(SETTLEMENT, db).Committed?
    ensures Find(Spec(SETTLEMENT, db).db, WalletOf(8)) == Some(Wallet(1, "TRY", 9800, true))
  {
    assert MerchantIs(db, 1, 8, 200) && Fee(10000, 200) == 200 && Net(10000, 200) == 9800;
    SettleCommitsIff(SETTLEMENT, db);
    CommitKeepsRows(SETTLEMENT, db);
    assert SameIdentity(db[WalletOf(8)], Spec(SETTLEMENT, db).db[WalletOf(8)]);
    BalancesMove(SETTLEMENT, db, WalletOf(8));
  }

  /** In some reachable state a deleted wallet holds money, and a card payment takes some of it: the payment
      does not ask whether the wallet is deleted. */
  lemma CardPaysFromDeletedWallet() returns (db: DB)
    ensures Fresh(CardExample()) && exists trace :: Reaches(CardExample(), trace, [DELETION, SETTLEMENT], db)
    ensures WellFormed(db) && IsDeleted(db, 8) && BalanceIn(db, WalletOf(8)) == 9800
    ensures Issued(PAYMENT, db) && Spec(PAYMENT, db).Committed?
    ensures BalanceIn(Spec(PAYMENT, db).db, WalletOf(8)) == 9700
  {
    CardExampleIsFresh();
    DeletionCommits();
    var deleted := CardExample()[WalletOf(8) := Wallet(1, "TRY", 0, true)];
    ReplayExtends(CardExample(), [], DELETION);
    assert [] + [DELETION] == [DELETION];
    ReplayKeepsRows(CardExample(), [DELETION]);
    SettlementCommits(deleted);
    ReplayExtends(CardExample(), [DELETION], SETTLEMENT);
    assert [DELETION] + [SETTLEMENT] == [DELETION, SETTLEMENT];
    ReplayKeepsRows(CardExample(), [DELETION, SETTLEMENT]);
    db := Spec(SETTLEMENT, deleted).db;
    RowsForPayment(deleted, db);
    PaymentCommits(db);
    var trace := ReplayIsReachable(CardExample(), [DELETION, SETTLEMENT]);
  }

  /** The settlement has touched neither the card nor its user. */
  lemma {:induction false} RowsForPayment(deleted: DB, db: DB)
    requires deleted == CardExample()[WalletOf(8) := Wallet(1, "TRY", 0, true)]
    requires Spec(SETTLEMENT, deleted) == Committed(db)
    ensures Find(db, CardOf(5)) == Some(Card(1, 8, 5000, 0, CardActive, "123", 12, 2030))
    ensures Find(db, UserOf(1)) == Some(UserRec) && Find(db, TxOf(9)) == None
  {
    CommitWritesOnly(SETTLEMENT, deleted, CardOf(5));
    CommitWritesOnly(SETTLEMENT, deleted, UserOf(1));
    CommitWritesOnly(SETTLEMENT, deleted, TxOf(9));
  }

  lemma {:induction false} PaymentCommits(db: DB)
    requires WellFormed(db) && Find(db, WalletOf(8)) == Some(Wallet(1, "TRY", 9800, true))
    requires Find(db, CardOf(5)) == Some(Card(1, 8, 5000, 0, CardActive, "123", 12, 2030))
    requires Find(db, UserOf(1)) == Some(UserRec) && Find(db, TxOf(9)) == None
    ensures Spec(PAYMENT, db).Committed? && BalanceIn(Spec(PAYMENT, db).db, WalletOf(8)) == 9700
  {
    assert CanPay(PAYMENT, db);
    CardPayCommitsIff(PAYMENT, db);
    BalancesMove(PAYMENT, db, WalletOf(8));
  }
}
