/**
 What a caller of each operation may expect, written out on the rows: exactly when it commits, which
 error each refusal is, and what the rows are afterwards.
 */
module Outcomes {
  import opened Money
  import opened Tables
  import opened Programs
  import opened Specs
  import opened History
  import opened Records

  // ----- when each operation commits -----

  /** The wallet is there and has not been deleted. */
  predicate WalletIsLive(db: DB, n: int) {
    WalletOf(n) in db && db[WalletOf(n)].Wallet? && !db[WalletOf(n)].deleted
  }

  /** Adding `change` to wallet n keeps its balance in the column, if there is such a wallet. */
  predicate WalletTakes(db: DB, n: int, change: int) {
    WalletOf(n) in db && db[WalletOf(n)].Wallet? ==> 0 <= db[WalletOf(n)].balance + change <= INT64_MAX
  }

  predicate AccountTakes(db: DB, id: RowId, change: int)
    requires id in db ==> db[id].Account?
  {
    id in db ==> IsInt64(db[id].balance + change)
  }

  predicate CanTransfer(op: Op, db: DB)
    requires op.Transfer?
  {
    && op.from != op.to && KeyOf(op.key) !in db && TxOf(op.key) !in db
    && WalletIsLive(db, op.from) && WalletIsLive(db, op.to)
    && 0 < op.amount <= db[WalletOf(op.from)].balance
    && 0 <= db[WalletOf(op.to)].balance + op.converted <= INT64_MAX
  }

  /** The session is there, still to be paid, and in time. */
  predicate IsPayable(op: Op, db: DB)
    requires op.Checkout?
  {
    && SessionOf(op.session) in db && db[SessionOf(op.session)].Session?
    && db[SessionOf(op.session)].sessionStatus == Pending && op.now <= db[SessionOf(op.session)].expiresAt
  }

  /** The payer's own live wallet. */
  predicate OwnsWallet(user: Id, db: DB, n: int) {
    WalletIsLive(db, n) && db[WalletOf(n)].user == user
  }

  /** The net fits the settlement wallet, which may be the payer's own, already debited; and the fee fits fee
      revenue. */
  ghost predicate CreditsFit(op: Op, db: DB)
    requires op.Checkout? && WellFormed(db) && SessionOf(op.session) in db && WalletOf(op.wallet) in db
  {
    assert RowOk(SessionOf(op.session), db[SessionOf(op.session)]);
    assert FeeAccount in db ==> RowOk(FeeAccount, db[FeeAccount]);
    var amount := db[SessionOf(op.session)].amount;
    var fee := Fee(amount, op.bps);
    var net := Net(amount, fee);
    && WalletTakes(db, op.settlement, if op.settlement == op.wallet then net - amount else net)
    && AccountTakes(db, FeeAccount, if fee > 0 then fee else 0)
  }

  ghost predicate CanCheckout(op: Op, db: DB)
    requires op.Checkout? && WellFormed(db)
  {
    && IsPayable(op, db) && OwnsWallet(op.user, db, op.wallet)
    && db[WalletOf(op.wallet)].currency == db[SessionOf(op.session)].currency
    && db[WalletOf(op.wallet)].balance >= db[SessionOf(op.session)].amount
    && TxOf(op.txId) !in db && CreditsFit(op, db)
  }

  /** The card is there, with its user. */
  predicate CardIsKnown(op: Op, db: DB)
    requires op.CardPay?
  {
    CardOf(op.card) in db && db[CardOf(op.card)].Card? && UserOf(db[CardOf(op.card)].user) in db
  }

  predicate DetailsMatch(op: Op, card: Row)
    requires op.CardPay? && card.Card?
  {
    card.cvv == op.cvv && card.expiryMonth == op.month && card.expiryYear == op.year
  }

  predicate CanPay(op: Op, db: DB)
    requires op.CardPay?
  {
    && CardIsKnown(op, db)
    && var card := db[CardOf(op.card)];
    && card.cardStatus == CardActive && DetailsMatch(op, card)
    && 0 < op.amount && card.spent + op.amount <= card.limit
    && WalletOf(card.wallet) in db && db[WalletOf(card.wallet)].Wallet?
    && op.amount <= db[WalletOf(card.wallet)].balance && TxOf(op.txId) !in db
  }

  ghost predicate CanBook(op: Op, db: DB)
    requires op.Settle? && WellFormed(db)
  {
    assert ClearingAccount in db ==> RowOk(ClearingAccount, db[ClearingAccount]);
    assert FeeAccount in db ==> RowOk(FeeAccount, db[FeeAccount]);
    && ChargeOf(op.charge) !in db && 0 < op.amount <= INT64_MAX
    && (forall i: nat | i < |op.entries| ::
          LegOf(op.charge, i) !in db && 0 < op.entries[i].sum <= INT64_MAX)
    && WalletOf(op.settlement) in db && WalletTakes(db, op.settlement, op.net)
    && AccountTakes(db, ClearingAccount, op.amount)
    && AccountTakes(db, FeeAccount, if op.fee > 0 then op.fee else 0)
  }

  predicate CanDelete(op: Op, db: DB)
    requires op.Delete?
  {
    OwnsWallet(op.user, db, op.wallet) && db[WalletOf(op.wallet)].balance == 0
  }

  ghost predicate Can(op: Op, db: DB)
    requires WellFormed(db)
  {
    match op
    case Transfer(_, _, _, _, _) => CanTransfer(op, db)
    case Checkout(_, _, _, _, _, _, _) => CanCheckout(op, db)
    case CardPay(_, _, _, _, _, _) => CanPay(op, db)
    case Settle(_, _, _, _, _, _, _) => CanBook(op, db)
    case Delete(_, _) => CanDelete(op, db)
    case FailedCharge(charge, _, amount) => ChargeOf(charge) !in db && 0 < amount <= INT64_MAX
    case NewWallet(wallet, _, _) => WalletOf(wallet) !in db
    case NewCard(card, _, _, limit, _, month, _) =>
      CardOf(card) !in db && 0 <= limit <= INT64_MAX && 1 <= month <= 12
    case SetCardStatus(_, _, _) => true
    case NewSession(session, _, amount, _, _) => SessionOf(session) !in db && 0 < amount <= INT64_MAX
  }

  lemma TransferCommitsIff(op: Op, db: DB)
    requires op.Transfer? && WellFormed(db)
    ensures Spec(op, db).Committed? <==> CanTransfer(op, db)
  {
  }

  /** A checkout commits if and only if its session is PENDING and in time, the wallet is the payer's own, live,
      in the session's currency and holds the amount, the activity id is new and the credits fit. */
  lemma CheckoutCommitsIff(op: Op, db: DB)
    requires op.Checkout? && WellFormed(db)
    ensures Spec(op, db).Committed? <==> CanCheckout(op, db)
  {
    if IsPayable(op, db) && OwnsWallet(op.user, db, op.wallet) {
      assert RowOk(SessionOf(op.session), db[SessionOf(op.session)]);
      CreditsFitIff(op, db, db[SessionOf(op.session)].amount);
    }
  }

  lemma CreditsFitIff(op: Op, db: DB, amount: int)
    requires op.Checkout? && WellFormed(db) && SessionOf(op.session) in db && WalletOf(op.wallet) in db
    requires db[SessionOf(op.session)].Session? && amount == db[SessionOf(op.session)].amount
    ensures CreditsFit(op, db) <==>
      && CreditOk(Credited(db, WalletOf(op.wallet), -amount), WalletOf(op.settlement), Net(amount, Fee(amount, op.bps)))
      && CreditOk(db, FeeAccount, Positive(Fee(amount, op.bps)))
  {
    assert RowOk(WalletOf(op.wallet), db[WalletOf(op.wallet)]);
    assert WalletOf(op.settlement) in db ==> RowOk(WalletOf(op.settlement), db[WalletOf(op.settlement)]);
    assert FeeAccount in db ==> RowOk(FeeAccount, db[FeeAccount]);
  }

  /** A card payment commits if and only if the card and its user exist, the card is ACTIVE, the details match,
      the amount is positive, within the limit and in the wallet, and the activity id is new. */
  lemma CardPayCommitsIff(op: Op, db: DB)
    requires op.CardPay? && WellFormed(db)
    ensures Spec(op, db).Committed? <==> CanPay(op, db)
  {
    if CardIsKnown(op, db) {
      var card := db[CardOf(op.card)];
      assert RowOk(CardOf(op.card), card);
      assert WalletOf(card.wallet) in db ==> RowOk(WalletOf(card.wallet), db[WalletOf(card.wallet)]);
      assert IsInt64(op.amount + card.spent) ==> Wrap64(op.amount + card.spent) == op.amount + card.spent;
    }
  }

  lemma SettleCommitsIff(op: Op, db: DB)
    requires op.Settle? && WellFormed(db)
    ensures Spec(op, db).Committed? <==> CanBook(op, db)
  {
    assert WalletOf(op.settlement) in db ==> RowOk(WalletOf(op.settlement), db[WalletOf(op.settlement)]);
    assert ClearingAccount in db ==> RowOk(ClearingAccount, db[ClearingAccount]);
    assert FeeAccount in db ==> RowOk(FeeAccount, db[FeeAccount]);
    assert forall i: nat | i < |op.entries| ::
      RowOk(LegOf(op.charge, i), Leg(op.entries[i])) <==> 0 < op.entries[i].sum <= INT64_MAX;
  }

  /** A deletion commits if and only if the wallet is the caller's own, live and empty. */
  lemma DeleteCommitsIff(op: Op, db: DB)
    requires op.Delete? && WellFormed(db)
    ensures Spec(op, db).Committed? <==> CanDelete(op, db)
  {
    assert WalletOf(op.wallet) in db ==> RowOk(WalletOf(op.wallet), db[WalletOf(op.wallet)]);
  }

  lemma CommitsIffCan(op: Op, db: DB)
    requires WellFormed(db)
    ensures Spec(op, db).Committed? <==> Can(op, db)
  {
    if op.Transfer? {
      TransferCommitsIff(op, db);
    } else if op.Checkout? {
      CheckoutCommitsIff(op, db);
    } else if op.CardPay? {
      CardPayCommitsIff(op, db);
    } else if op.Settle? {
      SettleCommitsIff(op, db);
    } else if op.Delete? {
      DeleteCommitsIff(op, db);
    }
  }

  /** Every operation in a history could commit at its moment: no frozen card has paid, no stranger has deleted
      or paid, nothing was paid late. */
  lemma {:induction false} LoggedCould(base: DB, log: seq<Op>, i: nat)
    requires WellFormed(base) && Replay(base, log).Some? && i < |log|
    ensures Replay(base, log[..i]).Some? && WellFormed(Replay(base, log[..i]).value)
    ensures Can(log[i], Replay(base, log[..i]).value)
  {
    var n := |log| - 1;
    if i < n {
      LoggedCould(base, log[..n], i);
      assert log[..n][..i] == log[..i];
    } else {
      ReplayKeepsRows(base, log[..n]);
      CommitsIffCan(log[n], Replay(base, log[..n]).value);
    }
  }

  // ----- what each refusal says -----

  predicate TransferIsWrong(op: Op, db: DB, e: Error)
    requires op.Transfer?
  {
    if op.from == op.to then e == SameWallet
    else if KeyOf(op.key) in db then e == AlreadyProcessed
    else
      match e
      case WalletNotFound => !(WalletIsLive(db, op.from) && WalletIsLive(db, op.to))
      case InsufficientFunds =>
        WalletIsLive(db, op.from) && WalletIsLive(db, op.to) && db[WalletOf(op.from)].balance < op.amount
      case DatabaseError =>
        WalletIsLive(db, op.from) && WalletIsLive(db, op.to) && db[WalletOf(op.from)].balance >= op.amount
        && !CanTransfer(op, db)
      case _ => false
  }

  ghost predicate CheckoutIsWrong(op: Op, db: DB, e: Error)
    requires op.Checkout? && WellFormed(db)
  {
    if !IsPayable(op, db) then
      if SessionOf(op.session) !in db || !db[SessionOf(op.session)].Session? then e == SessionNotFound
      else if db[SessionOf(op.session)].sessionStatus == Pending then e == SessionExpired
      else e == NotPayable
    else if !OwnsWallet(op.user, db, op.wallet) then e == WalletNotFound
    else
      var session, wallet := db[SessionOf(op.session)], db[WalletOf(op.wallet)];
      match e
      case CurrencyMismatch => wallet.currency != session.currency
      case InsufficientFunds => wallet.currency == session.currency && wallet.balance < session.amount
      case DatabaseError =>
        wallet.currency == session.currency && wallet.balance >= session.amount && !CanCheckout(op, db)
      case _ => false
  }

  /** Everything but the settlement wallet is there. */
  predicate OnlyWalletMissing(op: Op, db: DB)
    requires op.Settle?
  {
    && WalletOf(op.settlement) !in db && ChargeOf(op.charge) !in db && 0 < op.amount <= INT64_MAX
    && forall i: nat | i < |op.entries| :: LegOf(op.charge, i) !in db && 0 < op.entries[i].sum <= INT64_MAX
  }

  /** The limit check, on the int64 sum. */
  predicate PassesLimit(op: Op, card: Row)
    requires op.CardPay? && card.Card?
  {
    Wrap64(op.amount + card.spent) <= card.limit
  }

  predicate CardPayIsWrong(op: Op, db: DB, e: Error)
    requires op.CardPay?
  {
    if !CardIsKnown(op, db) then e == NoRows
    else
      var card := db[CardOf(op.card)];
      match e
      case CardNotActive => card.cardStatus != CardActive
      case InvalidCardDetails => card.cardStatus == CardActive && !DetailsMatch(op, card)
      case LimitExceeded => card.cardStatus == CardActive && DetailsMatch(op, card) && !PassesLimit(op, card)
      case NoRows =>
        card.cardStatus == CardActive && DetailsMatch(op, card) && PassesLimit(op, card)
        && WalletOf(card.wallet) !in db
      case InsufficientFunds =>
        card.cardStatus == CardActive && DetailsMatch(op, card) && PassesLimit(op, card)
        && WalletOf(card.wallet) in db && db[WalletOf(card.wallet)].Wallet?
        && db[WalletOf(card.wallet)].balance < op.amount
      case DatabaseError =>
        card.cardStatus == CardActive && DetailsMatch(op, card) && PassesLimit(op, card)
        && WalletOf(card.wallet) in db && db[WalletOf(card.wallet)].Wallet?
        && db[WalletOf(card.wallet)].balance >= op.amount && !CanPay(op, db)
      case _ => false
  }

  /** The error says what is wrong, and that nothing the code checks earlier was. */
  ghost predicate IsWrong(op: Op, db: DB, e: Error)
    requires WellFormed(db)
  {
    match op
    case Transfer(_, _, _, _, _) => TransferIsWrong(op, db, e)
    case Checkout(_, _, _, _, _, _, _) => CheckoutIsWrong(op, db, e)
    case CardPay(_, _, _, _, _, _) => CardPayIsWrong(op, db, e)
    case Settle(_, _, _, _, _, _, _) =>
      if OnlyWalletMissing(op, db) then e == SettlementWalletNotFound else e == DatabaseError && !CanBook(op, db)
    case Delete(user, wallet) =>
      if !OwnsWallet(user, db, wallet) then e == NoRows
      else e == NonZeroBalance && db[WalletOf(wallet)].balance > 0
    case _ => e == DatabaseError && !Can(op, db)
  }

  lemma TransferRefusedIff(op: Op, db: DB, e: Error)
    requires op.Transfer? && WellFormed(db)
    ensures Spec(op, db) == Refused(e) <==> IsWrong(op, db, e)
  {
    TransferCommitsIff(op, db);
  }

  lemma CheckoutRefusedIff(op: Op, db: DB, e: Error)
    requires op.Checkout? && WellFormed(db)
    ensures Spec(op, db) == Refused(e) <==> IsWrong(op, db, e)
  {
    CheckoutCommitsIff(op, db);
    assert SessionOf(op.session) in db ==> RowOk(SessionOf(op.session), db[SessionOf(op.session)]);
  }

  lemma CardPayRefusedIff(op: Op, db: DB, e: Error)
    requires op.CardPay? && WellFormed(db)
    ensures Spec(op, db) == Refused(e) <==> IsWrong(op, db, e)
  {
    if CardIsKnown(op, db) {
      CardPayCommitsIff(op, db);
      KnownCardRefusedIff(op, db, db[CardOf(op.card)], e);
    } else {
      assert CardOf(op.card) in db ==> RowOk(CardOf(op.card), db[CardOf(op.card)]);
    }
  }

  lemma KnownCardRefusedIff(op: Op, db: DB, card: Row, e: Error)
    requires op.CardPay? && WellFormed(db) && CardIsKnown(op, db) && card == db[CardOf(op.card)]
    requires Spec(op, db).Committed? <==> CanPay(op, db)
    ensures Spec(op, db) == Refused(e) <==> CardPayIsWrong(op, db, e)
  {
    assert WalletOf(card.wallet) in db ==> RowOk(WalletOf(card.wallet), db[WalletOf(card.wallet)]);
  }

  lemma SettleRefusedIff(op: Op, db: DB, e: Error)
    requires op.Settle? && WellFormed(db)
    ensures Spec(op, db) == Refused(e) <==> IsWrong(op, db, e)
  {
    SettleCommitsIff(op, db);
    assert WalletOf(op.settlement) in db ==> RowOk(WalletOf(op.settlement), db[WalletOf(op.settlement)]);
    assert forall i: nat | i < |op.entries| ::
      RowOk(LegOf(op.charge, i), Leg(op.entries[i])) <==> 0 < op.entries[i].sum <= INT64_MAX;
  }

  lemma DeleteRefusedIff(op: Op, db: DB, e: Error)
    requires op.Delete? && WellFormed(db)
    ensures Spec(op, db) == Refused(e) <==> IsWrong(op, db, e)
  {
    DeleteCommitsIff(op, db);
  }

  /** An operation is refused with an error if and only if that is what is wrong with it. */
  lemma RefusedIffWrong(op: Op, db: DB, e: Error)
    requires WellFormed(db)
    ensures Spec(op, db) == Refused(e) <==> IsWrong(op, db, e)
  {
    if op.Transfer? {
      TransferRefusedIff(op, db, e);
    } else if op.Checkout? {
      CheckoutRefusedIff(op, db, e);
    } else if op.CardPay? {
      CardPayRefusedIff(op, db, e);
    } else if op.Settle? {
      SettleRefusedIff(op, db, e);
    } else if op.Delete? {
      DeleteRefusedIff(op, db, e);
    } else {
      CommitsIffCan(op, db);
    }
  }

  // ----- what the rows are afterwards -----

  function BalanceIn(db: DB, id: RowId): int {
    if id in db && (db[id].Wallet? || db[id].Account?) then db[id].balance else 0
  }

  /** How much a committed operation moves each balance. */
  ghost function Moved(op: Op, db: DB, id: RowId): int {
    match op
    case Transfer(_, from, to, amount, converted) =>
      if id == WalletOf(from) then -amount else if id == WalletOf(to) then converted else 0
    case Checkout(session, _, wallet, settlement, bps, _, _) =>
      if SessionOf(session) !in db || !db[SessionOf(session)].Session? then 0
      else
        var amount := db[SessionOf(session)].amount;
        var fee := Fee(amount, bps);
        (if id == WalletOf(wallet) then -amount else 0)
        + (if id == WalletOf(settlement) then Net(amount, fee) else 0)
        + (if id == FeeAccount && fee > 0 then fee else 0)
    case CardPay(_, card, _, _, _, amount) =>
      if CardOf(card) in db && db[CardOf(card)].Card? && id == WalletOf(db[CardOf(card)].wallet) then -amount else 0
    case Settle(_, _, amount, fee, net, _, settlement) =>
      if id == WalletOf(settlement) then net
      else if id == ClearingAccount then amount
      else if id == FeeAccount && fee > 0 then fee
      else 0
    case _ => 0
  }

  lemma CreditMoves(db: DB, at: RowId, change: int, id: RowId)
    ensures BalanceIn(Credited(db, at, change), id)
      == BalanceIn(db, id) + if id == at && HasBalance(db, at) then change else 0
  {
  }

  lemma CheckoutMoves(op: Op, db: DB, id: RowId)
    requires op.Checkout? && WellFormed(db) && Spec(op, db).Committed? && HasBalance(db, id)
    ensures BalanceIn(Spec(op, db).db, id) == BalanceIn(db, id) + Moved(op, db, id)
  {
    var amount := db[SessionOf(op.session)].amount;
    var fee := Fee(amount, op.bps);
    var net := Net(amount, fee);
    var debited := Credited(db, WalletOf(op.wallet), -amount);
    var settled := Credited(debited, WalletOf(op.settlement), net);
    CreditMoves(db, WalletOf(op.wallet), -amount, id);
    CreditMoves(debited, WalletOf(op.settlement), net, id);
    CreditMoves(settled, FeeAccount, Positive(fee), id);
    assert RowOk(id, db[id]);
  }

  lemma SettleMoves(op: Op, db: DB, id: RowId)
    requires op.Settle? && WellFormed(db) && Spec(op, db).Committed? && HasBalance(db, id)
    ensures BalanceIn(Spec(op, db).db, id) == BalanceIn(db, id) + Moved(op, db, id)
  {
    var charged := db[ChargeOf(op.charge) := ChargeRow(op)];
    var booked := WithLegs(charged, op.charge, op.entries);
    assert RowOk(id, db[id]);
    LegsElsewhere(charged, op.charge, op.entries, id);
    assert Find(booked, id) == Find(db, id);
    var settled := Credited(booked, WalletOf(op.settlement), op.net);
    var cleared := Credited(settled, ClearingAccount, op.amount);
    CreditMoves(booked, WalletOf(op.settlement), op.net, id);
    CreditMoves(settled, ClearingAccount, op.amount, id);
    CreditMoves(cleared, FeeAccount, Positive(op.fee), id);
  }

  /** Every balance moves by exactly what the operation says. */
  lemma BalancesMove(op: Op, db: DB, id: RowId)
    requires WellFormed(db) && Spec(op, db).Committed? && HasBalance(db, id)
    ensures BalanceIn(Spec(op, db).db, id) == BalanceIn(db, id) + Moved(op, db, id)
  {
    assert RowOk(id, db[id]);
    if op.Checkout? {
      CheckoutMoves(op, db, id);
    } else if op.Settle? {
      SettleMoves(op, db, id);
    }
  }

  /** The rows other than balances that a committed operation leaves. */
  ghost predicate Recorded(op: Op, db: DB, after: DB) {
    match op
    case Transfer(key, from, to, amount, converted) =>
      && Find(after, KeyOf(key)) == Some(KeyRec)
      && Find(after, TxOf(key)) == Some(TxRec(Some(from), Some(to), amount, Some(converted), TxCompleted, None))
    case Checkout(session, user, wallet, settlement, _, _, txId) =>
      && SessionOf(session) in db && db[SessionOf(session)].Session?
      && var s := db[SessionOf(session)];
      && Find(after, SessionOf(session))
         == Some(Session(s.merchant, s.amount, s.currency, Paid, s.expiresAt, Some(user), Some(txId)))
      && Find(after, TxOf(txId)) == Some(TxRec(Some(wallet), Some(settlement), s.amount, None, TxCompleted, None))
    case CardPay(txId, card, _, _, _, amount) =>
      && CardOf(card) in db && db[CardOf(card)].Card?
      && var c := db[CardOf(card)];
      && Find(after, CardOf(card))
         == Some(Card(c.user, c.wallet, c.limit, c.spent + amount, c.cardStatus, c.cvv, c.expiryMonth, c.expiryYear))
      && Find(after, TxOf(txId)) == Some(TxRec(Some(c.wallet), None, amount, None, TxCompleted, Some(card)))
    case Settle(charge, merchant, amount, fee, net, entries, _) =>
      && Find(after, ChargeOf(charge)) == Some(Charge(merchant, amount, fee, net, ChargeSucceeded))
      && forall i: nat | i < |entries| :: Find(after, LegOf(charge, i)) == Some(Leg(entries[i]))
    case Delete(_, wallet) =>
      && WalletOf(wallet) in db && db[WalletOf(wallet)].Wallet?
      && var w := db[WalletOf(wallet)];
      && Find(after, WalletOf(wallet)) == Some(Wallet(w.user, w.currency, w.balance, true))
    case FailedCharge(charge, merchant, amount) =>
      Find(after, ChargeOf(charge)) == Some(Charge(merchant, amount, 0, 0, ChargeFailed))
    case NewWallet(wallet, user, currency) =>
      Find(after, WalletOf(wallet)) == Some(Wallet(user, currency, 0, false))
    case NewCard(card, user, wallet, limit, cvv, month, year) =>
      Find(after, CardOf(card)) == Some(Card(user, wallet, limit, 0, CardActive, cvv, month, year))
    case SetCardStatus(card, user, status) =>
      if CardOf(card) in db && db[CardOf(card)].Card? && db[CardOf(card)].user == user then
        var c := db[CardOf(card)];
        Find(after, CardOf(card))
          == Some(Card(c.user, c.wallet, c.limit, c.spent, status, c.cvv, c.expiryMonth, c.expiryYear))
      else after == db
    case NewSession(session, merchant, amount, currency, expiresAt) =>
      Find(after, SessionOf(session)) == Some(Session(merchant, amount, currency, Pending, expiresAt, None, None))
  }

  lemma {:induction false} LegIsStored(db: DB, charge: Id, entries: seq<Entry>, i: nat)
    requires i < |entries|
    ensures Find(WithLegs(db, charge, entries), LegOf(charge, i)) == Some(Leg(entries[i]))
  {
    if i < |entries| - 1 {
      LegIsStored(db, charge, entries[..|entries| - 1], i);
    }
  }

  lemma SettleRecords(op: Op, db: DB)
    requires op.Settle? && Spec(op, db).Committed?
    ensures Recorded(op, db, Spec(op, db).db)
  {
    var charged := db[ChargeOf(op.charge) := ChargeRow(op)];
    var after := Spec(op, db).db;
    LegsElsewhere(charged, op.charge, op.entries, ChargeOf(op.charge));
    forall i: nat | i < |op.entries| ensures Find(after, LegOf(op.charge, i)) == Some(Leg(op.entries[i])) {
      LegIsStored(charged, op.charge, op.entries, i);
    }
  }

  lemma CommitRecords(op: Op, db: DB)
    requires WellFormed(db) && Spec(op, db).Committed?
    ensures Recorded(op, db, Spec(op, db).db)
  {
    if op.Settle? {
      SettleRecords(op, db);
    } else if op.CardPay? {
      assert RowOk(CardOf(op.card), db[CardOf(op.card)]);
    } else if op.Checkout? {
      assert RowOk(SessionOf(op.session), db[SessionOf(op.session)]);
    } else if op.SetCardStatus? {
      assert CardOf(op.card) in db ==> RowOk(CardOf(op.card), db[CardOf(op.card)]);
    }
  }

  // ----- who takes money from a wallet -----

  /** A wallet's balance drops only by a transfer from it, a checkout of its owner, a payment with a card on it,
      or a negative credit: a converted amount, or a net that has wrapped. */
  lemma BalanceDropsOnlyBy(op: Op, db: DB, n: int)
    requires WellFormed(db) && Spec(op, db).Committed? && WalletOf(n) in db
    requires BalanceIn(Spec(op, db).db, WalletOf(n)) < BalanceIn(db, WalletOf(n))
    ensures
      || (op.Transfer? && (op.from == n || (op.to == n && op.converted < 0)) && WalletIsLive(db, n))
      || (op.Checkout? && op.wallet == n && OwnsWallet(op.user, db, n))
      || (op.Checkout? && op.settlement == n && NetOf(op, db) < 0)
      || (op.CardPay? && CanPay(op, db) && db[CardOf(op.card)].wallet == n)
      || (op.Settle? && op.settlement == n && op.net < 0)
  {
    assert RowOk(WalletOf(n), db[WalletOf(n)]);
    BalancesMove(op, db, WalletOf(n));
    CommitsIffCan(op, db);
  }

  /** The net of the session's amount. */
  function NetOf(op: Op, db: DB): int
    requires op.Checkout?
  {
    if SessionOf(op.session) in db && db[SessionOf(op.session)].Session? then
      Net(db[SessionOf(op.session)].amount, Fee(db[SessionOf(op.session)].amount, op.bps))
    else 0
  }
}
