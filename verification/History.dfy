/**
 Histories: committed operations replayed one at a time, what their services guarantee
 when they issue them, and what no committed operation ever changes.
 */
module History {
  import opened Money
  import opened Tables
  import opened Programs
  import opened Specs

  /** The ledger entries ProcessCharge builds: gross debit, net credit, and a fee credit when there is a fee. */
  function Legs(amount: int, fee: int, net: int): seq<Entry> {
    [Entry(AcquiringClearing, Debit, amount), Entry(MerchantPayable, Credit, net)]
    + if fee > 0 then [Entry(PlatformFeeRevenue, Credit, fee)] else []
  }

  ghost predicate MerchantIs(db: DB, merchant: Id, settlement: int, bps: int) {
    MerchantOf(merchant) in db && db[MerchantOf(merchant)] == Merchant(settlement, bps)
  }

  /** What the service that issues `op` has read and computed before the transaction begins. */
  ghost predicate Issued(op: Op, db: DB) {
    match op
    case Transfer(_, from, to, _, _) => from != to
    case Checkout(session, _, _, settlement, bps, _, _) =>
      && SessionOf(session) in db && db[SessionOf(session)].Session?
      && MerchantIs(db, db[SessionOf(session)].merchant, settlement, bps)
    case Settle(_, merchant, amount, fee, net, entries, settlement) =>
      exists bps ::
        && MerchantIs(db, merchant, settlement, bps)
        && fee == Fee(amount, bps) && net == Net(amount, fee)
        && entries == Legs(amount, fee, net)
    case _ => true
  }

  /** The columns of a row that no operation ever changes, and the marks that are never undone. */
  predicate SameIdentity(old_: Row, new_: Row) {
    match old_
    case Wallet(user, currency, _, deleted) =>
      new_.Wallet? && new_.user == user && new_.currency == currency && (deleted ==> new_.deleted)
    case Card(_, _, _, spent, status, _, _, _) =>
      new_.Card? && new_.(spent := spent, cardStatus := status) == old_ && spent <= new_.spent
    case Session(_, _, _, status, _, payer, paidBy) =>
      && new_.Session? && new_.(sessionStatus := status, payer := payer, paidBy := paidBy) == old_
      && (new_ == old_ || (status == Pending && new_.sessionStatus == Paid))
    case Account(_) => new_.Account?
    case _ => new_ == old_
  }

  /** Every row of `db` is still there in `db'`, with the same identity. */
  ghost predicate Grows(db: DB, db': DB) {
    forall id | id in db :: id in db' && SameIdentity(db[id], db'[id])
  }

  lemma CreditKeepsRows(db: DB, id: RowId, change: int)
    requires WellFormed(db) && CreditOk(db, id, change)
    ensures WellFormed(Credited(db, id, change)) && Grows(db, Credited(db, id, change))
    ensures Credited(db, id, change).Keys == db.Keys
  {
  }

  lemma {:induction false} LegsKeepRows(db: DB, charge: Id, entries: seq<Entry>)
    requires WellFormed(db) && LegsOk(db, charge, entries)
    ensures WellFormed(WithLegs(db, charge, entries)) && Grows(db, WithLegs(db, charge, entries))
  {
    LegKeys(db, charge, entries);
    if entries != [] {
      var before := entries[..|entries| - 1];
      LegKeys(db, charge, before);
      LegsKeepRows(db, charge, before);
    }
  }

  lemma GrowsTransitively(a: DB, b: DB, c: DB)
    requires Grows(a, b) && Grows(b, c)
    ensures Grows(a, c)
  {
    forall id | id in a ensures id in c && SameIdentity(a[id], c[id]) {
      assert SameIdentity(a[id], b[id]);
      assert SameIdentity(b[id], c[id]);
    }
  }

  lemma TransferKeepsRows(op: Op, db: DB)
    requires op.Transfer? && WellFormed(db) && Spec(op, db).Committed?
    ensures WellFormed(Spec(op, db).db) && Grows(db, Spec(op, db).db)
  {
    var debited := Credited(db, WalletOf(op.from), -op.amount);
    var moved := Credited(debited, WalletOf(op.to), op.converted);
    assert RowOk(WalletOf(op.from), db[WalletOf(op.from)]);
    CreditKeepsRows(db, WalletOf(op.from), -op.amount);
    CreditKeepsRows(debited, WalletOf(op.to), op.converted);
    GrowsTransitively(db, debited, moved);
    NewRowKeepsRows(db, moved, KeyOf(op.key), KeyRec);
    NewRowKeepsRows(db, moved[KeyOf(op.key) := KeyRec], TxOf(op.key), TransferRow(op));
  }

  /** A row under a new key leaves the others as they were. */
  lemma NewRowKeepsRows(db: DB, db': DB, id: RowId, row: Row)
    requires WellFormed(db') && Grows(db, db') && id !in db && RowOk(id, row)
    ensures WellFormed(db'[id := row]) && Grows(db, db'[id := row])
  {
  }

  lemma CheckoutKeepsRows(op: Op, db: DB)
    requires op.Checkout? && WellFormed(db) && Spec(op, db).Committed?
    ensures WellFormed(Spec(op, db).db) && Grows(db, Spec(op, db).db)
  {
    var session := db[SessionOf(op.session)];
    var fee := Fee(session.amount, op.bps);
    var net := Net(session.amount, fee);
    assert RowOk(SessionOf(op.session), session);
    CheckoutCreditsKeepRows(db, op, session.amount, fee, net);
    CheckoutRecordsKeepRows(db, CheckoutCredits(db, op, session.amount, fee, net), op, session);
  }

  lemma CheckoutRecordsKeepRows(db: DB, credited: DB, op: Op, session: Row)
    requires op.Checkout? && WellFormed(credited) && Grows(db, credited) && credited.Keys == db.Keys
    requires SessionOf(op.session) in db && session == db[SessionOf(op.session)] && TxOf(op.txId) !in db
    requires session.Session? && 0 < session.amount <= INT64_MAX && session.sessionStatus == Pending
    ensures WellFormed(CheckoutRecords(credited, op, session)) && Grows(db, CheckoutRecords(credited, op, session))
  {
  }

  lemma CheckoutCreditsKeepRows(db: DB, op: Op, amount: int, fee: int, net: int)
    requires op.Checkout? && WellFormed(db) && 0 < amount <= INT64_MAX
    requires WalletOf(op.wallet) in db && db[WalletOf(op.wallet)].Wallet? && db[WalletOf(op.wallet)].balance >= amount
    requires CreditOk(Credited(db, WalletOf(op.wallet), -amount), WalletOf(op.settlement), net)
    requires CreditOk(db, FeeAccount, Positive(fee))
    ensures var credited := CheckoutCredits(db, op, amount, fee, net);
      WellFormed(credited) && Grows(db, credited) && credited.Keys == db.Keys
  {
    var debited := Credited(db, WalletOf(op.wallet), -amount);
    var settled := Credited(debited, WalletOf(op.settlement), net);
    assert RowOk(WalletOf(op.wallet), db[WalletOf(op.wallet)]);
    CreditKeepsRows(db, WalletOf(op.wallet), -amount);
    CreditKeepsRows(debited, WalletOf(op.settlement), net);
    assert FeeAccount in db ==> settled[FeeAccount] == db[FeeAccount];
    CreditKeepsRows(settled, FeeAccount, Positive(fee));
    GrowsTransitively(db, debited, settled);
    GrowsTransitively(db, settled, Credited(settled, FeeAccount, Positive(fee)));
  }

  lemma CardPayKeepsRows(op: Op, db: DB)
    requires op.CardPay? && WellFormed(db) && Spec(op, db).Committed?
    ensures WellFormed(Spec(op, db).db) && Grows(db, Spec(op, db).db)
  {
    var card := db[CardOf(op.card)];
    assert RowOk(CardOf(op.card), card);
    CardPayDebitKeepsRows(op, db, card);
    var debited := Credited(db, WalletOf(card.wallet), -op.amount);
    SpendKeepsRows(db, debited, op, card);
    NewRowKeepsRows(db, debited[CardOf(op.card) := card.(spent := card.spent + op.amount)], TxOf(op.txId),
                    CardPayRow(op, card.wallet));
  }

  lemma CardPayDebitKeepsRows(op: Op, db: DB, card: Row)
    requires op.CardPay? && WellFormed(db) && card.Card? && 0 < op.amount
    requires HasBalance(db, WalletOf(card.wallet)) && db[WalletOf(card.wallet)].balance >= op.amount
    ensures var debited := Credited(db, WalletOf(card.wallet), -op.amount);
      WellFormed(debited) && Grows(db, debited) && debited.Keys == db.Keys && op.amount <= INT64_MAX
  {
    assert RowOk(WalletOf(card.wallet), db[WalletOf(card.wallet)]);
    CreditKeepsRows(db, WalletOf(card.wallet), -op.amount);
  }

  lemma SpendKeepsRows(db: DB, debited: DB, op: Op, card: Row)
    requires op.CardPay? && WellFormed(debited) && Grows(db, debited)
    requires CardOf(op.card) in db && card == db[CardOf(op.card)] && RowOk(CardOf(op.card), card)
    requires 0 < op.amount && Fits(card.spent + op.amount)
    ensures var spent := debited[CardOf(op.card) := card.(spent := card.spent + op.amount)];
      WellFormed(spent) && Grows(db, spent)
  {
  }

  lemma SettleKeepsRows(op: Op, db: DB)
    requires op.Settle? && WellFormed(db) && Spec(op, db).Committed?
    ensures WellFormed(Spec(op, db).db) && Grows(db, Spec(op, db).db)
  {
    var charged := db[ChargeOf(op.charge) := ChargeRow(op)];
    var booked := WithLegs(charged, op.charge, op.entries);
    LegsKeepRows(charged, op.charge, op.entries);
    LegKeys(charged, op.charge, op.entries);
    assert Grows(db, charged) by {
      forall id | id in db ensures SameIdentity(db[id], charged[id]) {}
    }
    GrowsTransitively(db, charged, booked);
    SettleCreditsKeepRows(db, booked, op);
    GrowsTransitively(db, booked, Spec(op, db).db);
  }

  lemma SettleCreditsKeepRows(db: DB, booked: DB, op: Op)
    requires op.Settle? && WellFormed(booked)
    requires forall id: RowId | id.WalletOf? || id == ClearingAccount || id == FeeAccount ::
      Find(booked, id) == Find(db, id)
    requires CreditOk(db, WalletOf(op.settlement), op.net) && CreditOk(db, ClearingAccount, op.amount)
    requires CreditOk(db, FeeAccount, Positive(op.fee))
    ensures var after := Credited(Credited(Credited(booked, WalletOf(op.settlement), op.net),
                                     ClearingAccount, op.amount), FeeAccount, Positive(op.fee));
      WellFormed(after) && Grows(booked, after)
  {
    assert Find(booked, WalletOf(op.settlement)) == Find(db, WalletOf(op.settlement));
    assert Find(booked, ClearingAccount) == Find(db, ClearingAccount);
    assert Find(booked, FeeAccount) == Find(db, FeeAccount);
    var settled := Credited(booked, WalletOf(op.settlement), op.net);
    CreditKeepsRows(booked, WalletOf(op.settlement), op.net);
    var cleared := Credited(settled, ClearingAccount, op.amount);
    CreditKeepsRows(settled, ClearingAccount, op.amount);
    GrowsTransitively(booked, settled, cleared);
    CreditKeepsRows(cleared, FeeAccount, Positive(op.fee));
    GrowsTransitively(booked, cleared, Credited(cleared, FeeAccount, Positive(op.fee)));
  }

  lemma ShortKeepsRows(op: Op, db: DB)
    requires !op.Transfer? && !op.Checkout? && !op.CardPay? && !op.Settle?
    requires WellFormed(db) && Spec(op, db).Committed?
    ensures WellFormed(Spec(op, db).db) && Grows(db, Spec(op, db).db)
  {
    if op.SetCardStatus? && CardOf(op.card) in db {
      assert RowOk(CardOf(op.card), db[CardOf(op.card)]);
    } else if op.Delete? {
      assert RowOk(WalletOf(op.wallet), db[WalletOf(op.wallet)]);
    }
  }

  /** No operation removes a row, breaks a CHECK constraint, rewrites a ledger, charge or activity
      row, undeletes a wallet, or moves a session other than from PENDING to PAID. */
  lemma CommitKeepsRows(op: Op, db: DB)
    requires WellFormed(db) && Spec(op, db).Committed?
    ensures WellFormed(Spec(op, db).db) && Grows(db, Spec(op, db).db)
  {
    if op.Transfer? {
      TransferKeepsRows(op, db);
    } else if op.Checkout? {
      CheckoutKeepsRows(op, db);
    } else if op.CardPay? {
      CardPayKeepsRows(op, db);
    } else if op.Settle? {
      SettleKeepsRows(op, db);
    } else {
      ShortKeepsRows(op, db);
    }
  }

  /** What a service read before its transaction began is still true later. */
  lemma IssuedStaysTrue(op: Op, db: DB, db': DB)
    requires Issued(op, db) && Grows(db, db')
    ensures Issued(op, db')
  {
    if op.Checkout? {
      var row := db[SessionOf(op.session)];
      assert SameIdentity(row, db'[SessionOf(op.session)]);
      assert SameIdentity(db[MerchantOf(row.merchant)], db'[MerchantOf(row.merchant)]);
    } else if op.Settle? {
      assert SameIdentity(db[MerchantOf(op.merchant)], db'[MerchantOf(op.merchant)]);
    }
  }

  /** The tables after the operations of `log` ran one after another from `base`: None unless each
      of them was issued and committed. */
  ghost function Replay(base: DB, log: seq<Op>): Option<DB> {
    if log == [] then Some(base)
    else
      var n := |log| - 1;
      match Replay(base, log[..n])
      case None => None
      case Some(db) =>
        if Issued(log[n], db) && Spec(log[n], db).Committed? then Some(Spec(log[n], db).db) else None
  }

  lemma {:induction false} ReplayKeepsRows(base: DB, log: seq<Op>)
    requires WellFormed(base) && Replay(base, log).Some?
    ensures WellFormed(Replay(base, log).value) && Grows(base, Replay(base, log).value)
  {
    if log == [] {
      forall id | id in base ensures SameIdentity(base[id], base[id]) {}
    } else {
      var before := log[..|log| - 1];
      ReplayKeepsRows(base, before);
      CommitKeepsRows(log[|log| - 1], Replay(base, before).value);
      GrowsTransitively(base, Replay(base, before).value, Replay(base, log).value);
    }
  }

  /** Appending one more committed operation. */
  lemma ReplayExtends(base: DB, log: seq<Op>, op: Op)
    requires Replay(base, log).Some?
    requires Issued(op, Replay(base, log).value) && Spec(op, Replay(base, log).value).Committed?
    ensures Replay(base, log + [op]) == Some(Spec(op, Replay(base, log).value).db)
  {
    assert (log + [op])[..|log|] == log;
  }
}
