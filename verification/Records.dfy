/** What the rows say of each other in every history: cards, deleted wallets, idempotency keys,
    activity rows and checkout sessions. */
module Records {
  import opened Money
  import opened Tables
  import opened Programs
  import opened Specs
  import opened History
  import opened Laws

  /** The rows a committed operation may write. */
  predicate Writes(op: Op, db: DB, id: RowId) {
    match op
    case Transfer(key, from, to, _, _) => id in {KeyOf(key), WalletOf(from), WalletOf(to), TxOf(key)}
    case Checkout(session, _, wallet, settlement, _, _, txId) =>
      id in {SessionOf(session), WalletOf(wallet), WalletOf(settlement), FeeAccount, TxOf(txId)}
    case CardPay(txId, card, _, _, _, _) =>
      id in {CardOf(card), TxOf(txId)}
      || (CardOf(card) in db && db[CardOf(card)].Card? && id == WalletOf(db[CardOf(card)].wallet))
    case Settle(charge, _, _, _, _, _, settlement) =>
      id in {ChargeOf(charge), WalletOf(settlement), ClearingAccount, FeeAccount} || (id.LegOf? && id.charge == charge)
    case _ => id == Target(op, 0, None)
  }

  /** Everything else is untouched. */
  lemma CommitWritesOnly(op: Op, db: DB, id: RowId)
    requires Spec(op, db).Committed? && !Writes(op, db, id)
    ensures Find(Spec(op, db).db, id) == Find(db, id)
  {
    if op.Settle? {
      SettleWritesOnly(op, db, id);
    } else if op.Checkout? {
      CheckoutWritesOnly(op, db, id);
    }
  }

  lemma SettleWritesOnly(op: Op, db: DB, id: RowId)
    requires op.Settle? && Spec(op, db).Committed? && !Writes(op, db, id)
    ensures Find(Spec(op, db).db, id) == Find(db, id)
  {
    var charged := db[ChargeOf(op.charge) := ChargeRow(op)];
    LegsElsewhere(charged, op.charge, op.entries, id);
  }

  lemma CheckoutWritesOnly(op: Op, db: DB, id: RowId)
    requires op.Checkout? && Spec(op, db).Committed? && !Writes(op, db, id)
    ensures Find(Spec(op, db).db, id) == Find(db, id)
  {
  }

  lemma {:induction false} LegsElsewhere(db: DB, charge: Id, entries: seq<Entry>, id: RowId)
    requires !(id.LegOf? && id.charge == charge)
    ensures Find(WithLegs(db, charge, entries), id) == Find(db, id)
  {
    if entries != [] {
      LegsElsewhere(db, charge, entries[..|entries| - 1], id);
    }
  }

  // ----- card limits -----

  ghost predicate CardsWithinLimit(db: DB) {
    forall c | CardOf(c) in db :: db[CardOf(c)].Card? && 0 <= db[CardOf(c)].spent <= db[CardOf(c)].limit
  }

  /** The limit check's int64 sum cannot be wrapped past the limit: a sum that wraps does not fit the column. */
  lemma WrappedSumDoesNotPass(card: Row, amount: int)
    requires card.Card? && amount > 0 && 0 <= card.spent <= card.limit <= INT64_MAX
    requires Wrap64(amount + card.spent) <= card.limit && Fits(card.spent + amount)
    ensures card.spent + amount <= card.limit
  {
  }

  lemma CommitKeepsCardLimits(op: Op, db: DB)
    requires WellFormed(db) && Spec(op, db).Committed? && CardsWithinLimit(db)
    ensures CardsWithinLimit(Spec(op, db).db)
  {
    var db' := Spec(op, db).db;
    CommitKeepsRows(op, db);
    forall c | CardOf(c) in db' ensures db'[CardOf(c)].Card? && 0 <= db'[CardOf(c)].spent <= db'[CardOf(c)].limit {
      assert RowOk(CardOf(c), db'[CardOf(c)]);
      if !Writes(op, db, CardOf(c)) {
        CommitWritesOnly(op, db, CardOf(c));
      } else if op.CardPay? {
        WrappedSumDoesNotPass(db[CardOf(c)], op.amount);
      }
    }
  }

  // ----- deleted wallets -----

  ghost predicate DeletedAreEmpty(db: DB) {
    forall n | WalletOf(n) in db && !IsSettlementWallet(db, n) ::
      db[WalletOf(n)].Wallet? && (db[WalletOf(n)].deleted ==> db[WalletOf(n)].balance == 0)
  }

  ghost predicate EmptyIfDeleted(db: DB, n: int) {
    WalletOf(n) in db ==> db[WalletOf(n)].Wallet? && (db[WalletOf(n)].deleted ==> db[WalletOf(n)].balance == 0)
  }

  /** A live-wallet check, or the settlement exception, stands before every credit and debit. */
  lemma WrittenWalletIsEmptyIfDeleted(op: Op, db: DB, n: int)
    requires WellFormed(db) && Spec(op, db).Committed? && EmptyIfDeleted(db, n) && Writes(op, db, WalletOf(n))
    requires (op.Checkout? || op.Settle?) ==> n != op.settlement
    requires WellFormed(Spec(op, db).db)
    ensures EmptyIfDeleted(Spec(op, db).db, n)
  {
    assert WalletOf(n) in db ==> RowOk(WalletOf(n), db[WalletOf(n)]);
  }

  lemma CommitKeepsDeletedEmpty(op: Op, db: DB)
    requires WellFormed(db) && Issued(op, db) && Spec(op, db).Committed? && DeletedAreEmpty(db)
    ensures DeletedAreEmpty(Spec(op, db).db)
  {
    var db' := Spec(op, db).db;
    CommitKeepsRows(op, db);
    CommitKeepsMerchants(op, db);
    forall n | WalletOf(n) in db' && !IsSettlementWallet(db', n) ensures EmptyIfDeleted(db', n) {
      if IsSettlementWallet(db, n) {
        SettlementStays(db, db', n);
      }
      assert EmptyIfDeleted(db, n);
      if !Writes(op, db, WalletOf(n)) {
        CommitWritesOnly(op, db, WalletOf(n));
      } else {
        if op.Checkout? || op.Settle? {
          PaysSettlementWallet(op, db);
        }
        WrittenWalletIsEmptyIfDeleted(op, db, n);
      }
    }
  }

  lemma SettlementStays(db: DB, db': DB, n: int)
    requires SameMerchants(db, db') && IsSettlementWallet(db, n)
    ensures IsSettlementWallet(db', n)
  {
    var m :| MerchantOf(m) in db && db[MerchantOf(m)].Merchant? && db[MerchantOf(m)].settlement == n;
    assert Find(db, MerchantOf(m)) == Find(db', MerchantOf(m));
  }

  lemma PaysSettlementWallet(op: Op, db: DB)
    requires Issued(op, db) && (op.Checkout? || op.Settle?)
    ensures IsSettlementWallet(db, op.settlement)
  {
    if op.Checkout? {
      assert MerchantOf(db[SessionOf(op.session)].merchant) in db;
    } else {
      assert MerchantOf(op.merchant) in db;
    }
  }

  // ----- activity rows and idempotency keys -----

  /** A transfer names two wallets and no card; a card payment names a card and no payee; a checkout
      names two wallets, no card and no conversion. */
  predicate ActivityOk(row: Row) {
    && row.TxRec? && row.txStatus == TxCompleted && row.from.Some?
    && (row.card.Some? ==> row.to.None? && row.converted.None?)
    && (row.card.None? ==> row.to.Some?)
    && (row.converted.Some? ==> row.from != row.to)
  }

  ghost predicate ActivitiesOk(db: DB) {
    forall t | TxOf(t) in db :: ActivityOk(db[TxOf(t)])
  }

  /** A key is taken exactly when a transfer's activity row carries it. */
  ghost predicate KeysMatchTransfers(db: DB) {
    forall k :: KeyOf(k) in db <==> IsTransferRow(Find(db, TxOf(k)))
  }

  predicate IsTransferRow(row: Option<Row>) {
    row.Some? && row.value.TxRec? && row.value.converted.Some?
  }

  lemma ActivityAfter(op: Op, db: DB, t: Id)
    requires Spec(op, db).Committed? && TxOf(t) in Spec(op, db).db
    requires TxOf(t) in db ==> ActivityOk(db[TxOf(t)])
    ensures ActivityOk(Spec(op, db).db[TxOf(t)])
  {
    if !Writes(op, db, TxOf(t)) {
      CommitWritesOnly(op, db, TxOf(t));
    }
  }

  lemma KeyAfter(op: Op, db: DB, k: Id)
    requires Spec(op, db).Committed?
    requires KeyOf(k) in db <==> IsTransferRow(Find(db, TxOf(k)))
    ensures KeyOf(k) in Spec(op, db).db <==> IsTransferRow(Find(Spec(op, db).db, TxOf(k)))
  {
    if !Writes(op, db, TxOf(k)) {
      CommitWritesOnly(op, db, TxOf(k));
    }
    if !Writes(op, db, KeyOf(k)) {
      CommitWritesOnly(op, db, KeyOf(k));
    }
  }

  lemma CommitKeepsActivities(op: Op, db: DB)
    requires Spec(op, db).Committed? && ActivitiesOk(db) && KeysMatchTransfers(db)
    ensures ActivitiesOk(Spec(op, db).db) && KeysMatchTransfers(Spec(op, db).db)
  {
    forall t | TxOf(t) in Spec(op, db).db ensures ActivityOk(Spec(op, db).db[TxOf(t)]) {
      ActivityAfter(op, db, t);
    }
    forall k ensures KeyOf(k) in Spec(op, db).db <==> IsTransferRow(Find(Spec(op, db).db, TxOf(k))) {
      assert KeyOf(k) in db <==> IsTransferRow(Find(db, TxOf(k)));
      KeyAfter(op, db, k);
    }
  }

  // ----- checkout sessions -----

  /** The session is paid by this activity row: for its amount, from a wallet of its payer in its
      currency, to its merchant's settlement wallet. */
  ghost predicate PaidProperly(db: DB, session: Row)
    requires session.Session?
  {
    && session.payer.Some? && session.paidBy.Some? && TxOf(session.paidBy.value) in db
    && MerchantOf(session.merchant) in db && db[MerchantOf(session.merchant)].Merchant?
    && var row := db[TxOf(session.paidBy.value)];
    && row.TxRec? && row.amount == session.amount && row.txStatus == TxCompleted
    && row.converted.None? && row.card.None? && row.from.Some?
    && row.to == Some(db[MerchantOf(session.merchant)].settlement)
    && WalletOf(row.from.value) in db
    && var wallet := db[WalletOf(row.from.value)];
    && wallet.Wallet? && wallet.user == session.payer.value && wallet.currency == session.currency
  }

  /** A session is PENDING and unpaid, or PAID with its own activity row, or in another final state. */
  ghost predicate SessionsOk(db: DB) {
    && (forall c | SessionOf(c) in db && db[SessionOf(c)].Session? && db[SessionOf(c)].sessionStatus == Paid ::
          PaidProperly(db, db[SessionOf(c)]))
    && (forall c, d | IsPaid(db, c) && IsPaid(db, d) && c != d :: db[SessionOf(c)].paidBy != db[SessionOf(d)].paidBy)
  }

  predicate IsPaid(db: DB, c: Id) {
    SessionOf(c) in db && db[SessionOf(c)].Session? && db[SessionOf(c)].sessionStatus == Paid
  }

  lemma PaidStaysProper(db: DB, db': DB, session: Row)
    requires Grows(db, db') && session.Session? && PaidProperly(db, session)
    ensures PaidProperly(db', session)
  {
    var row := db[TxOf(session.paidBy.value)];
    assert SameIdentity(row, db'[TxOf(session.paidBy.value)]);
    assert SameIdentity(db[WalletOf(row.from.value)], db'[WalletOf(row.from.value)]);
    assert SameIdentity(db[MerchantOf(session.merchant)], db'[MerchantOf(session.merchant)]);
  }

  lemma CheckoutPaysProperly(op: Op, db: DB)
    requires op.Checkout? && WellFormed(db) && Issued(op, db) && Spec(op, db).Committed?
    ensures IsPaid(Spec(op, db).db, op.session)
    ensures PaidProperly(Spec(op, db).db, Spec(op, db).db[SessionOf(op.session)])
    ensures Spec(op, db).db[SessionOf(op.session)].paidBy == Some(op.txId) && TxOf(op.txId) !in db
  {
    CommitKeepsRows(op, db);
    var db' := Spec(op, db).db;
    var session := db[SessionOf(op.session)];
    assert SameIdentity(db[MerchantOf(session.merchant)], db'[MerchantOf(session.merchant)]);
    assert SameIdentity(db[WalletOf(op.wallet)], db'[WalletOf(op.wallet)]);
    assert db'[TxOf(op.txId)] == CheckoutRow(op, session.amount);
  }

  /** A session that is PAID afterwards was PAID before with the same row, or was just paid. */
  lemma PaidNowOrBefore(op: Op, db: DB, c: Id)
    requires WellFormed(db) && Spec(op, db).Committed? && IsPaid(Spec(op, db).db, c)
    ensures (IsPaid(db, c) && Spec(op, db).db[SessionOf(c)] == db[SessionOf(c)]) || (op.Checkout? && op.session == c)
  {
    if !Writes(op, db, SessionOf(c)) {
      CommitWritesOnly(op, db, SessionOf(c));
    }
  }

  lemma CommitKeepsSessions(op: Op, db: DB)
    requires WellFormed(db) && Issued(op, db) && Spec(op, db).Committed? && SessionsOk(db)
    ensures SessionsOk(Spec(op, db).db)
  {
    var db' := Spec(op, db).db;
    CommitKeepsRows(op, db);
    if op.Checkout? {
      CheckoutPaysProperly(op, db);
    }
    forall c | IsPaid(db', c) ensures PaidProperly(db', db'[SessionOf(c)]) {
      PaidNowOrBefore(op, db, c);
      if !(op.Checkout? && op.session == c) {
        PaidStaysProper(db, db', db[SessionOf(c)]);
      }
    }
    forall c, d | IsPaid(db', c) && IsPaid(db', d) && c != d
      ensures db'[SessionOf(c)].paidBy != db'[SessionOf(d)].paidBy
    {
      PaidNowOrBefore(op, db, c);
      PaidNowOrBefore(op, db, d);
      if op.Checkout? {
        assert IsPaid(db, c) ==> PaidProperly(db, db[SessionOf(c)]);
        assert IsPaid(db, d) ==> PaidProperly(db, db[SessionOf(d)]);
      }
    }
  }

  // ----- all of them, over histories -----

  ghost predicate RecordsOk(db: DB) {
    CardsWithinLimit(db) && DeletedAreEmpty(db) && ActivitiesOk(db) && KeysMatchTransfers(db) && SessionsOk(db)
  }

  lemma {:induction false} ReplayKeepsRecords(base: DB, log: seq<Op>)
    requires WellFormed(base) && RecordsOk(base) && Replay(base, log).Some?
    ensures RecordsOk(Replay(base, log).value)
  {
    if log != [] {
      var before, op := log[..|log| - 1], log[|log| - 1];
      ReplayKeepsRecords(base, before);
      ReplayKeepsRows(base, before);
      var db := Replay(base, before).value;
      CommitKeepsCardLimits(op, db);
      CommitKeepsDeletedEmpty(op, db);
      CommitKeepsActivities(op, db);
      CommitKeepsSessions(op, db);
    }
  }
}
