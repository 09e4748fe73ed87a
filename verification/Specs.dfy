/**
 What each transaction does to the committed tables when it runs alone, stated without
 statements, locks or overlays; and the proof that its program does exactly that.
 */
module Specs {
  import opened Money
  import opened Tables
  import opened Programs

  predicate Fits(balance: int) {
    0 <= balance <= INT64_MAX
  }

  predicate Live(db: DB, wallet: int) {
    IsLiveWallet(Find(db, WalletOf(wallet)))
  }

  predicate OwnedLive(db: DB, wallet: int, user: Id) {
    Live(db, wallet) && db[WalletOf(wallet)].user == user
  }

  predicate HasBalance(db: DB, id: RowId) {
    id in db && (db[id].Wallet? || db[id].Account?)
  }

  /** `db` with `change` added to the balance of `id`, or unchanged when there is no such account. */
  function Credited(db: DB, id: RowId, change: int): DB {
    if HasBalance(db, id) then db[id := db[id].(balance := db[id].balance + change)] else db
  }

  predicate CreditOk(db: DB, id: RowId, change: int) {
    HasBalance(db, id) ==> RowOk(id, db[id].(balance := db[id].balance + change))
  }

  function TransferSpec(op: Op, db: DB): Verdict
    requires op.Transfer?
  {
    if op.from == op.to then Refused(SameWallet)
    else if KeyOf(op.key) in db then Refused(AlreadyProcessed)
    else if !Live(db, op.from) || !Live(db, op.to) then Refused(WalletNotFound)
    else if db[WalletOf(op.from)].balance < op.amount then Refused(InsufficientFunds)
    else if op.amount <= 0 || TxOf(op.key) in db || !Fits(db[WalletOf(op.to)].balance + op.converted)
    then Refused(DatabaseError)
    else
      var moved := Credited(Credited(db, WalletOf(op.from), -op.amount), WalletOf(op.to), op.converted);
      Committed(moved[KeyOf(op.key) := KeyRec][TxOf(op.key) := TransferRow(op)])
  }

  function TransferRow(op: Op): Row
    requires op.Transfer?
  {
    TxRec(Some(op.from), Some(op.to), op.amount, Some(op.converted), TxCompleted, None)
  }

  function CheckoutSpec(op: Op, db: DB): Verdict
    requires op.Checkout?
  {
    var session := Find(db, SessionOf(op.session));
    if session.None? || !session.value.Session? then Refused(SessionNotFound)
    else if session.value.sessionStatus != Pending then Refused(NotPayable)
    else if op.now > session.value.expiresAt then Refused(SessionExpired)
    else if !OwnedLive(db, op.wallet, op.user) then Refused(WalletNotFound)
    else if db[WalletOf(op.wallet)].currency != session.value.currency then Refused(CurrencyMismatch)
    else if db[WalletOf(op.wallet)].balance < session.value.amount then Refused(InsufficientFunds)
    else
      var fee := Fee(session.value.amount, op.bps);
      var net := Net(session.value.amount, fee);
      var debited := Credited(db, WalletOf(op.wallet), -session.value.amount);
      if TxOf(op.txId) in db
         || !CreditOk(debited, WalletOf(op.settlement), net) || !CreditOk(db, FeeAccount, Positive(fee))
      then Refused(DatabaseError)
      else Committed(CheckoutRecords(CheckoutCredits(db, op, session.value.amount, fee, net), op, session.value))
  }

  /** The debit of the payer, the credit of the settlement wallet and the fee revenue. */
  function CheckoutCredits(db: DB, op: Op, amount: int, fee: int, net: int): DB
    requires op.Checkout?
  {
    Credited(Credited(Credited(db, WalletOf(op.wallet), -amount), WalletOf(op.settlement), net),
             FeeAccount, Positive(fee))
  }

  /** The activity row and the PAID mark. */
  function CheckoutRecords(credited: DB, op: Op, session: Row): DB
    requires op.Checkout? && session.Session?
  {
    credited[TxOf(op.txId) := CheckoutRow(op, session.amount)][SessionOf(op.session) := PaidSession(op, session)]
  }

  function CheckoutRow(op: Op, amount: int): Row
    requires op.Checkout?
  {
    TxRec(Some(op.wallet), Some(op.settlement), amount, None, TxCompleted, None)
  }

  function PaidSession(op: Op, session: Row): Row
    requires op.Checkout? && session.Session?
  {
    session.(sessionStatus := Paid, payer := Some(op.user), paidBy := Some(op.txId))
  }

  function CardPaySpec(op: Op, db: DB): Verdict
    requires op.CardPay?
  {
    var found := Find(db, CardOf(op.card));
    if found.None? || !found.value.Card? || UserOf(found.value.user) !in db then Refused(NoRows)
    else
      var card, wallet := found.value, Find(db, WalletOf(found.value.wallet));
      if card.cardStatus != CardActive then Refused(CardNotActive)
      else if card.cvv != op.cvv || card.expiryMonth != op.month || card.expiryYear != op.year
      then Refused(InvalidCardDetails)
      else if Wrap64(op.amount + card.spent) > card.limit then Refused(LimitExceeded)
      else if wallet.None? || !wallet.value.Wallet? then Refused(NoRows)
      else if wallet.value.balance < op.amount then Refused(InsufficientFunds)
      else if op.amount <= 0 || !Fits(card.spent + op.amount) || TxOf(op.txId) in db
      then Refused(DatabaseError)
      else Committed(Credited(db, WalletOf(card.wallet), -op.amount)
                     [CardOf(op.card) := card.(spent := card.spent + op.amount)]
                     [TxOf(op.txId) := CardPayRow(op, card.wallet)])
  }

  function CardPayRow(op: Op, wallet: int): Row
    requires op.CardPay?
  {
    TxRec(Some(wallet), None, op.amount, None, TxCompleted, Some(op.card))
  }

  /** `db` with one ledger row per entry of the charge. */
  function WithLegs(db: DB, charge: Id, entries: seq<Entry>): DB {
    if entries == [] then db
    else
      var last := |entries| - 1;
      WithLegs(db, charge, entries[..last])[LegOf(charge, last) := Leg(entries[last])]
  }

  predicate LegsOk(db: DB, charge: Id, entries: seq<Entry>) {
    forall i: nat :: i < |entries| ==>
      LegOf(charge, i) !in db && RowOk(LegOf(charge, i), Leg(entries[i]))
  }

  function SettleSpec(op: Op, db: DB): Verdict
    requires op.Settle?
  {
    var charge := ChargeRow(op);
    var booked := WithLegs(db[ChargeOf(op.charge) := charge], op.charge, op.entries);
    if ChargeOf(op.charge) in db || !RowOk(ChargeOf(op.charge), charge) || !LegsOk(db, op.charge, op.entries)
    then Refused(DatabaseError)
    else if !HasBalance(db, WalletOf(op.settlement)) then Refused(SettlementWalletNotFound)
    else if !CreditOk(db, WalletOf(op.settlement), op.net)
            || !CreditOk(db, ClearingAccount, op.amount)
            || !CreditOk(db, FeeAccount, Positive(op.fee))
    then Refused(DatabaseError)
    else Committed(Credited(Credited(Credited(booked, WalletOf(op.settlement), op.net),
                                     ClearingAccount, op.amount), FeeAccount, Positive(op.fee)))
  }

  function ChargeRow(op: Op): Row
    requires op.Settle?
  {
    Charge(op.merchant, op.amount, op.fee, op.net, ChargeSucceeded)
  }

  function DeleteSpec(op: Op, db: DB): Verdict
    requires op.Delete?
  {
    if !OwnedLive(db, op.wallet, op.user) then Refused(NoRows)
    else if db[WalletOf(op.wallet)].balance > 0 then Refused(NonZeroBalance)
    else Committed(db[WalletOf(op.wallet) := db[WalletOf(op.wallet)].(deleted := true)])
  }

  function InsertSpec(db: DB, id: RowId, row: Row): Verdict {
    if id in db || !RowOk(id, row) then Refused(DatabaseError) else Committed(db[id := row])
  }

  function Spec(op: Op, db: DB): Verdict {
    match op
    case Transfer(_, _, _, _, _) => TransferSpec(op, db)
    case Checkout(_, _, _, _, _, _, _) => CheckoutSpec(op, db)
    case CardPay(_, _, _, _, _, _) => CardPaySpec(op, db)
    case Settle(_, _, _, _, _, _, _) => SettleSpec(op, db)
    case Delete(_, _) => DeleteSpec(op, db)
    case FailedCharge(charge, merchant, amount) =>
      InsertSpec(db, ChargeOf(charge), Charge(merchant, amount, 0, 0, ChargeFailed))
    case NewWallet(wallet, user, currency) =>
      InsertSpec(db, WalletOf(wallet), Wallet(user, currency, 0, false))
    case NewCard(card, user, wallet, limit, cvv, month, year) =>
      InsertSpec(db, CardOf(card), Card(user, wallet, limit, 0, CardActive, cvv, month, year))
    case SetCardStatus(card, user, status) =>
      var found := Find(db, CardOf(card));
      if found.Some? && found.value.Card? && found.value.user == user
      then Committed(db[CardOf(card) := found.value.(cardStatus := status)])
      else Committed(db)
    case NewSession(session, merchant, amount, currency, expiresAt) =>
      InsertSpec(db, SessionOf(session), Session(merchant, amount, currency, Pending, expiresAt, None, None))
  }

  function Resume(op: Op, db: DB, stage: Stage): Verdict {
    match stage
    case Stopped(e) => Refused(e)
    case At(l) => Finish(op, db, l)
  }

  lemma {:induction false} Unfold(op: Op, db: DB, l: Local)
    ensures l.pc == End(op) ==> Finish(op, db, l) == Committed(db + l.overlay)
    ensures l.pc != End(op) ==> Finish(op, db, l) == Resume(op, db, Advance(op, db, l))
  {
  }

  lemma TransferRunsToSpec(op: Op, db: DB)
    requires op.Transfer? && WellFormed(db) && op.from != op.to
    ensures Finish(op, db, START) == TransferSpec(op, db)
  {
    Unfold(op, db, START);
    var s1 := Advance(op, db, START);
    if s1.At? {
      Unfold(op, db, s1.local);
      var s2 := Advance(op, db, s1.local);
      if s2.At? {
        Unfold(op, db, s2.local);
        var s3 := Advance(op, db, s2.local);
        if s3.At? {
          TransferTail(op, db, s3.local);
        }
      }
    }
  }

  lemma TransferTail(op: Op, db: DB, l: Local)
    requires op.Transfer? && WellFormed(db) && op.from != op.to
    requires KeyOf(op.key) !in db && Live(db, op.from) && Live(db, op.to)
    requires l.pc == 3 && l.overlay == map[KeyOf(op.key) := KeyRec]
    ensures Finish(op, db, l) == TransferSpec(op, db)
  {
    Unfold(op, db, l);
    var s4 := Advance(op, db, l);
    assert RowOk(WalletOf(op.from), db[WalletOf(op.from)]);
    if s4.At? {
      TransferCredit(op, db, s4.local);
      TransferTables(op, db, s4.local.overlay);
    }
  }

  /** The overlay of the key and the debit, published under the later writes. */
  lemma TransferTables(op: Op, db: DB, overlay: DB)
    requires op.Transfer? && op.from != op.to && Live(db, op.from)
    requires overlay == map[KeyOf(op.key) := KeyRec,
      WalletOf(op.from) := db[WalletOf(op.from)].(balance := db[WalletOf(op.from)].balance - op.amount)]
    ensures Credited(db + overlay, WalletOf(op.to), op.converted)
      == Credited(Credited(db, WalletOf(op.from), -op.amount), WalletOf(op.to), op.converted)[KeyOf(op.key) := KeyRec]
  {
    assert db + overlay == Credited(db, WalletOf(op.from), -op.amount)[KeyOf(op.key) := KeyRec];
  }

  /** The credit and the activity row, after the debit. */
  lemma TransferCredit(op: Op, db: DB, l: Local)
    requires op.Transfer? && Live(db, op.to) && op.amount <= INT64_MAX
    requires l.pc == 4 && WalletOf(op.to) !in l.overlay && TxOf(op.key) !in l.overlay
    ensures Finish(op, db, l) ==
      if op.amount <= 0 || TxOf(op.key) in db || !Fits(db[WalletOf(op.to)].balance + op.converted)
      then Refused(DatabaseError)
      else Committed(Credited(db + l.overlay, WalletOf(op.to), op.converted)[TxOf(op.key) := TransferRow(op)])
  {
    Unfold(op, db, l);
    var s5 := Advance(op, db, l);
    if s5.At? {
      assert db + s5.local.overlay == Credited(db + l.overlay, WalletOf(op.to), op.converted);
      TransferEnd(op, db, s5.local);
    }
  }

  lemma TransferEnd(op: Op, db: DB, l: Local)
    requires op.Transfer? && op.amount <= INT64_MAX && l.pc == 5 && TxOf(op.key) !in l.overlay
    ensures Finish(op, db, l) ==
      if op.amount <= 0 || TxOf(op.key) in db then Refused(DatabaseError)
      else Committed((db + l.overlay)[TxOf(op.key) := TransferRow(op)])
  {
    Unfold(op, db, l);
    var s6 := Advance(op, db, l);
    if s6.At? {
      Unfold(op, db, s6.local);
      assert db + s6.local.overlay == (db + l.overlay)[TxOf(op.key) := TransferRow(op)];
    }
  }

  lemma CheckoutRunsToSpec(op: Op, db: DB)
    requires op.Checkout? && WellFormed(db)
    ensures Finish(op, db, START) == CheckoutSpec(op, db)
  {
    Unfold(op, db, START);
    var s1 := Advance(op, db, START);
    if s1.At? {
      Unfold(op, db, s1.local);
      var s2 := Advance(op, db, s1.local);
      if s2.At? {
        if s1.local.pc == 8 {
          Unfold(op, db, s2.local);
        } else {
          CheckoutTail(op, db, s2.local);
        }
      }
    }
  }

  lemma CheckoutTail(op: Op, db: DB, l: Local)
    requires op.Checkout? && WellFormed(db)
    requires l.pc == 2 && l.overlay == map[] && l.memo == Find(db, SessionOf(op.session))
    requires l.memo.Some? && l.memo.value.Session? && l.memo.value.sessionStatus == Pending
    requires op.now <= l.memo.value.expiresAt && OwnedLive(db, op.wallet, op.user)
    requires db[WalletOf(op.wallet)].currency == l.memo.value.currency
    requires db[WalletOf(op.wallet)].balance >= l.memo.value.amount
    ensures Finish(op, db, l) == CheckoutSpec(op, db)
  {
    Unfold(op, db, l);
    CheckoutDebit(op, db, l, l.memo.value.amount);
    var debited := Credited(db, WalletOf(op.wallet), -l.memo.value.amount);
    CheckoutCredit(op, db, Advance(op, db, l).local, debited, Fee(l.memo.value.amount, op.bps));
  }

  lemma CheckoutDebit(op: Op, db: DB, l: Local, amount: int)
    requires op.Checkout? && WellFormed(db) && l.pc == 2 && l.overlay == map[] && amount == SessionAmount(l.memo)
    requires l.memo == Find(db, SessionOf(op.session)) && l.memo.Some?
    requires Live(db, op.wallet) && db[WalletOf(op.wallet)].balance >= amount
    ensures var s3 := Advance(op, db, l);
      && s3.At? && s3.local.pc == 3 && s3.local.memo == l.memo
      && s3.local.overlay.Keys == {WalletOf(op.wallet)} && WellFormed(s3.local.overlay)
      && db + s3.local.overlay == Credited(db, WalletOf(op.wallet), -amount)
  {
    assert RowOk(WalletOf(op.wallet), db[WalletOf(op.wallet)]) && RowOk(SessionOf(op.session), l.memo.value);
  }

  /** The credits of the settlement wallet and of the fee account, on top of the debit. */
  lemma CheckoutCredit(op: Op, db: DB, l: Local, debited: DB, fee: int)
    requires op.Checkout? && WellFormed(db) && WellFormed(l.overlay)
    requires l.pc == 3 && l.memo == Find(db, SessionOf(op.session)) && l.memo.Some? && l.memo.value.Session?
    requires fee == Fee(l.memo.value.amount, op.bps)
    requires l.overlay.Keys == {WalletOf(op.wallet)} && debited == db + l.overlay
    ensures Finish(op, db, l) ==
      var net := Net(l.memo.value.amount, fee);
      var settled := Credited(debited, WalletOf(op.settlement), net);
      if TxOf(op.txId) in db
         || !CreditOk(debited, WalletOf(op.settlement), net) || !CreditOk(db, FeeAccount, Positive(fee))
      then Refused(DatabaseError)
      else Committed(CheckoutRecords(Credited(settled, FeeAccount, Positive(fee)), op, l.memo.value))
  {
    var net := Net(l.memo.value.amount, fee);
    assert Visible(db, l.overlay, WalletOf(op.settlement)) == Find(debited, WalletOf(op.settlement));
    assert HasBalance(debited, WalletOf(op.settlement)) ==> debited[WalletOf(op.settlement)].Wallet?;
    Unfold(op, db, l);
    var s4 := Advance(op, db, l);
    if s4.At? {
      var settled := Credited(debited, WalletOf(op.settlement), net);
      assert db + s4.local.overlay == settled;
      CheckoutFee(op, db, s4.local, settled, fee);
    }
  }

  lemma CheckoutFee(op: Op, db: DB, l: Local, settled: DB, fee: int)
    requires op.Checkout? && WellFormed(db)
    requires l.memo == Find(db, SessionOf(op.session)) && l.memo.Some? && l.memo.value.Session?
    requires fee == Fee(l.memo.value.amount, op.bps) && l.pc == if fee > 0 then 4 else 5
    requires l.overlay.Keys <= {WalletOf(op.wallet), WalletOf(op.settlement)} && settled == db + l.overlay
    ensures Finish(op, db, l) ==
      if TxOf(op.txId) in db || !CreditOk(db, FeeAccount, Positive(fee))
      then Refused(DatabaseError)
      else Committed(CheckoutRecords(Credited(settled, FeeAccount, Positive(fee)), op, l.memo.value))
  {
    assert FeeAccount in db ==> db[FeeAccount] == settled[FeeAccount] && RowOk(FeeAccount, db[FeeAccount]);
    if fee > 0 {
      Unfold(op, db, l);
      CheckoutFeeCredit(op, db, l, settled, fee);
      var s5 := Advance(op, db, l);
      if s5.At? {
        CheckoutEnd(op, db, s5.local);
      }
    } else {
      assert Credited(settled, FeeAccount, 0) == settled;
      CheckoutEnd(op, db, l);
    }
  }

  lemma CheckoutFeeCredit(op: Op, db: DB, l: Local, settled: DB, fee: int)
    requires op.Checkout? && l.pc == 4 && l.memo.Some? && l.memo.value.Session?
    requires fee == Fee(l.memo.value.amount, op.bps) && fee > 0
    requires FeeAccount in db ==> RowOk(FeeAccount, db[FeeAccount])
    requires FeeAccount !in l.overlay && settled == db + l.overlay
    ensures var s5 := Advance(op, db, l);
      if CreditOk(db, FeeAccount, fee) then
        && s5.At? && s5.local.pc == 5 && s5.local.memo == l.memo
        && db + s5.local.overlay == Credited(settled, FeeAccount, fee)
        && s5.local.overlay.Keys <= l.overlay.Keys + {FeeAccount}
      else s5 == Stopped(DatabaseError)
  {
  }

  /** The last two statements: the activity row and the PAID mark. */
  lemma CheckoutEnd(op: Op, db: DB, l: Local)
    requires op.Checkout? && WellFormed(db)
    requires l.pc == 5 && l.memo == Find(db, SessionOf(op.session)) && l.memo.Some? && l.memo.value.Session?
    requires TxOf(op.txId) !in l.overlay && SessionOf(op.session) !in l.overlay
    ensures Finish(op, db, l) ==
      if TxOf(op.txId) in db then Refused(DatabaseError)
      else Committed(CheckoutRecords(db + l.overlay, op, l.memo.value))
  {
    assert RowOk(SessionOf(op.session), l.memo.value);
    Unfold(op, db, l);
    var s6 := Advance(op, db, l);
    if s6.At? {
      Unfold(op, db, s6.local);
      var s7 := Advance(op, db, s6.local);
      Unfold(op, db, s7.local);
      assert db + s7.local.overlay == CheckoutRecords(db + l.overlay, op, l.memo.value);
    }
  }

  lemma CardPayRunsToSpec(op: Op, db: DB)
    requires op.CardPay? && WellFormed(db)
    ensures Finish(op, db, START) == CardPaySpec(op, db)
  {
    Unfold(op, db, START);
    var s1 := Advance(op, db, START);
    if s1.At? {
      Unfold(op, db, s1.local);
      var s2 := Advance(op, db, s1.local);
      if s2.At? {
        Unfold(op, db, s2.local);
        var s3 := Advance(op, db, s2.local);
        if s3.At? {
          CardPayTail(op, db, s3.local);
        }
      }
    }
  }

  lemma CardPayTail(op: Op, db: DB, l: Local)
    requires op.CardPay? && WellFormed(db)
    requires l.pc == 3 && l.overlay == map[] && l.memo == Find(db, CardOf(op.card))
    requires l.memo.Some? && l.memo.value.Card? && UserOf(l.memo.value.user) in db
    requires l.memo.value.cardStatus == CardActive && l.memo.value.cvv == op.cvv
    requires l.memo.value.expiryMonth == op.month && l.memo.value.expiryYear == op.year
    requires Wrap64(op.amount + l.memo.value.spent) <= l.memo.value.limit
    requires WalletOf(l.memo.value.wallet) in db && db[WalletOf(l.memo.value.wallet)].balance >= op.amount
    ensures Finish(op, db, l) == CardPaySpec(op, db)
  {
    assert RowOk(CardOf(op.card), l.memo.value);
    CardPayWrites(op, db, l, l.memo.value);
  }

  /** The debit, the spend counter and the activity row. */
  lemma CardPayWrites(op: Op, db: DB, l: Local, card: Row)
    requires op.CardPay? && WellFormed(db) && card.Card? && RowOk(CardOf(op.card), card)
    requires l.pc == 3 && l.overlay == map[] && l.memo == Some(card) == Find(db, CardOf(op.card))
    requires WalletOf(card.wallet) in db && db[WalletOf(card.wallet)].balance >= op.amount
    ensures HasBalance(db, WalletOf(card.wallet))
    ensures Finish(op, db, l) ==
      if op.amount <= 0 || !Fits(card.spent + op.amount) || TxOf(op.txId) in db then Refused(DatabaseError)
      else Committed(Credited(db, WalletOf(card.wallet), -op.amount)
                     [CardOf(op.card) := card.(spent := card.spent + op.amount)]
                     [TxOf(op.txId) := CardPayRow(op, card.wallet)])
  {
    Unfold(op, db, l);
    CardPayDebit(op, db, l, card);
    var s4 := Advance(op, db, l);
    if s4.At? {
      CardPayEnd(op, db, s4.local, card);
    }
  }

  lemma CardPayDebit(op: Op, db: DB, l: Local, card: Row)
    requires op.CardPay? && WellFormed(db) && card.Card? && l.pc == 3 && l.overlay == map[] && l.memo == Some(card)
    requires WalletOf(card.wallet) in db && db[WalletOf(card.wallet)].balance >= op.amount
    ensures HasBalance(db, WalletOf(card.wallet))
    ensures var s4 := Advance(op, db, l);
      if Fits(db[WalletOf(card.wallet)].balance - op.amount) then
        && s4.At? && s4.local.pc == 4 && s4.local.memo == l.memo
        && db + s4.local.overlay == Credited(db, WalletOf(card.wallet), -op.amount)
        && s4.local.overlay.Keys == {WalletOf(card.wallet)}
      else s4 == Stopped(DatabaseError)
    ensures op.amount > 0 ==> Fits(db[WalletOf(card.wallet)].balance - op.amount)
  {
    assert RowOk(WalletOf(card.wallet), db[WalletOf(card.wallet)]);
  }

  /** The spend counter and the activity row, after the debit. */
  lemma CardPayEnd(op: Op, db: DB, l: Local, card: Row)
    requires op.CardPay? && card.Card? && RowOk(CardOf(op.card), card)
    requires l.pc == 4 && l.memo == Some(card) == Find(db, CardOf(op.card))
    requires CardOf(op.card) !in l.overlay && TxOf(op.txId) !in l.overlay
    ensures Finish(op, db, l) ==
      if op.amount <= 0 || !Fits(card.spent + op.amount) || TxOf(op.txId) in db then Refused(DatabaseError)
      else Committed((db + l.overlay)[CardOf(op.card) := card.(spent := card.spent + op.amount)]
                                     [TxOf(op.txId) := CardPayRow(op, card.wallet)])
  {
    Unfold(op, db, l);
    var s5 := Advance(op, db, l);
    if s5.At? {
      Unfold(op, db, s5.local);
      var s6 := Advance(op, db, s5.local);
      if s6.At? {
        Unfold(op, db, s6.local);
        assert db + s6.local.overlay == (db + l.overlay)[CardOf(op.card) := card.(spent := card.spent + op.amount)]
                                                        [TxOf(op.txId) := CardPayRow(op, card.wallet)];
      }
    }
  }

  lemma SettleRunsToSpec(op: Op, db: DB)
    requires op.Settle? && WellFormed(db)
    ensures Finish(op, db, START) == SettleSpec(op, db)
  {
    Unfold(op, db, START);
    var s1 := Advance(op, db, START);
    if s1.At? {
      assert s1.local.overlay == LegsSoFar(op, 0);
      SettleLegs(op, db, s1.local, 0);
    }
  }

  /** The overlay of a settlement that has inserted its first i ledger rows. */
  function LegsSoFar(op: Op, i: nat): DB
    requires op.Settle? && i <= |op.entries|
  {
    WithLegs(map[ChargeOf(op.charge) := ChargeRow(op)], op.charge, op.entries[..i])
  }

  /** The insertion of ledger row i. */
  lemma SettleLeg(op: Op, db: DB, l: Local, i: nat)
    requires op.Settle? && i < |op.entries| && l.pc == i + 1 && l.overlay == LegsSoFar(op, i)
    ensures var s := Advance(op, db, l);
      if LegOf(op.charge, i) !in db && RowOk(LegOf(op.charge, i), Leg(op.entries[i]))
      then s.At? && s.local.pc == i + 2 && s.local.overlay == LegsSoFar(op, i + 1)
      else s == Stopped(DatabaseError)
  {
    LegKeys(map[ChargeOf(op.charge) := ChargeRow(op)], op.charge, op.entries[..i]);
    assert op.entries[..i + 1][..i] == op.entries[..i];
  }

  /** The loop over the ledger entries, from entry i on. */
  lemma {:induction false} SettleLegs(op: Op, db: DB, l: Local, i: nat)
    requires op.Settle? && WellFormed(db) && ChargeOf(op.charge) !in db
    requires RowOk(ChargeOf(op.charge), ChargeRow(op))
    requires i <= |op.entries| && l.pc == i + 1 && l.overlay == LegsSoFar(op, i)
    requires LegsOk(db, op.charge, op.entries[..i])
    ensures Finish(op, db, l) == SettleSpec(op, db)
    decreases |op.entries| - i
  {
    if i == |op.entries| {
      assert op.entries[..i] == op.entries;
      SettleBalances(op, db, l);
    } else {
      Unfold(op, db, l);
      SettleLeg(op, db, l, i);
      var s := Advance(op, db, l);
      if s.At? {
        SettleLegs(op, db, s.local, i + 1);
      } else {
        assert !(LegOf(op.charge, i) !in db && RowOk(LegOf(op.charge, i), Leg(op.entries[i])));
      }
    }
  }

  /** Which keys WithLegs writes, and that it commutes with an underlying map. */
  lemma {:induction false} LegKeys(db: DB, charge: Id, entries: seq<Entry>)
    ensures forall id :: id in WithLegs(db, charge, entries) <==>
      id in db || (id.LegOf? && id.charge == charge && id.index < |entries|)
    ensures forall id | id in db && !id.LegOf? :: WithLegs(db, charge, entries)[id] == db[id]
  {
    if entries != [] {
      LegKeys(db, charge, entries[..|entries| - 1]);
    }
  }

  lemma {:induction false} LegsOver(db: DB, seed: DB, charge: Id, entries: seq<Entry>)
    ensures db + WithLegs(seed, charge, entries) == WithLegs(db + seed, charge, entries)
  {
    if entries != [] {
      LegsOver(db, seed, charge, entries[..|entries| - 1]);
    }
  }

  lemma SettleBalances(op: Op, db: DB, l: Local)
    requires op.Settle? && WellFormed(db) && ChargeOf(op.charge) !in db
    requires RowOk(ChargeOf(op.charge), ChargeRow(op)) && LegsOk(db, op.charge, op.entries)
    requires l.pc == |op.entries| + 1
    requires l.overlay == WithLegs(map[ChargeOf(op.charge) := ChargeRow(op)], op.charge, op.entries)
    ensures Finish(op, db, l) == SettleSpec(op, db)
  {
    var seed := map[ChargeOf(op.charge) := ChargeRow(op)];
    LegKeys(seed, op.charge, op.entries);
    LegsOver(db, seed, op.charge, op.entries);
    assert db + seed == db[ChargeOf(op.charge) := ChargeRow(op)];
    SettleWallet(op, db, l, db + l.overlay);
  }

  /** The credit of the settlement wallet, after the ledger rows. */
  lemma SettleWallet(op: Op, db: DB, l: Local, booked: DB)
    requires op.Settle? && WellFormed(db)
    requires l.pc == |op.entries| + 1 && booked == db + l.overlay
    requires forall id | id in l.overlay :: id.ChargeOf? || id.LegOf?
    ensures Finish(op, db, l) ==
      if WalletOf(op.settlement) !in db then Refused(SettlementWalletNotFound)
      else if !CreditOk(db, WalletOf(op.settlement), op.net) || !CreditOk(db, ClearingAccount, op.amount)
              || !CreditOk(db, FeeAccount, Positive(op.fee))
      then Refused(DatabaseError)
      else Committed(Credited(Credited(Credited(booked, WalletOf(op.settlement), op.net),
                                       ClearingAccount, op.amount), FeeAccount, Positive(op.fee)))
  {
    assert WalletOf(op.settlement) in db ==> RowOk(WalletOf(op.settlement), db[WalletOf(op.settlement)]);
    Unfold(op, db, l);
    var s1 := Advance(op, db, l);
    if s1.At? {
      var settled := Credited(booked, WalletOf(op.settlement), op.net);
      assert db + s1.local.overlay == settled;
      SettleSystemAccounts(op, db, s1.local, settled);
    }
  }

  lemma SettleSystemAccounts(op: Op, db: DB, l: Local, settled: DB)
    requires op.Settle? && WellFormed(db)
    requires l.pc == |op.entries| + 2
    requires ClearingAccount !in l.overlay && FeeAccount !in l.overlay && settled == db + l.overlay
    ensures Finish(op, db, l) ==
      if !CreditOk(db, ClearingAccount, op.amount) || !CreditOk(db, FeeAccount, Positive(op.fee))
      then Refused(DatabaseError)
      else Committed(Credited(Credited(settled, ClearingAccount, op.amount), FeeAccount, Positive(op.fee)))
  {
    assert ClearingAccount in db ==> RowOk(ClearingAccount, db[ClearingAccount]);
    Unfold(op, db, l);
    var s2 := Advance(op, db, l);
    if s2.At? {
      var cleared := Credited(settled, ClearingAccount, op.amount);
      assert db + s2.local.overlay == cleared;
      SettleFee(op, db, s2.local, cleared);
    }
  }

  lemma SettleFee(op: Op, db: DB, l: Local, cleared: DB)
    requires op.Settle? && WellFormed(db)
    requires l.pc == if op.fee > 0 then |op.entries| + 3 else |op.entries| + 4
    requires FeeAccount !in l.overlay && cleared == db + l.overlay
    ensures Finish(op, db, l) ==
      if !CreditOk(db, FeeAccount, Positive(op.fee)) then Refused(DatabaseError)
      else Committed(Credited(cleared, FeeAccount, Positive(op.fee)))
  {
    assert FeeAccount in db ==> RowOk(FeeAccount, db[FeeAccount]);
    Unfold(op, db, l);
    if op.fee > 0 {
      var s3 := Advance(op, db, l);
      if s3.At? {
        Unfold(op, db, s3.local);
        assert db + s3.local.overlay == Credited(cleared, FeeAccount, op.fee);
      }
    } else {
      assert Credited(cleared, FeeAccount, 0) == cleared;
    }
  }

  lemma ShortRunsToSpec(op: Op, db: DB)
    requires !op.Transfer? && !op.Checkout? && !op.CardPay? && !op.Settle? && WellFormed(db)
    ensures Finish(op, db, START) == Spec(op, db)
  {
    Unfold(op, db, START);
    var s1 := Advance(op, db, START);
    if s1.At? {
      Unfold(op, db, s1.local);
      var s2 := Advance(op, db, s1.local);
      if op.Delete? && s2.At? {
        Unfold(op, db, s2.local);
        assert db + s2.local.overlay == Spec(op, db).db;
      } else if !op.Delete? {
        assert Spec(op, db).Committed? && db + s1.local.overlay == Spec(op, db).db;
      }
    }
  }

  /** Run alone, every program gives exactly its specified verdict: the same error or the same new tables. */
  lemma SoloIsSpec(op: Op, db: DB)
    requires WellFormed(db)
    ensures Solo(op, db) == Spec(op, db)
  {
    if Begins(op) {
      if op.Transfer? {
        TransferRunsToSpec(op, db);
      } else if op.Checkout? {
        CheckoutRunsToSpec(op, db);
      } else if op.CardPay? {
        CardPayRunsToSpec(op, db);
      } else if op.Settle? {
        SettleRunsToSpec(op, db);
      } else {
        ShortRunsToSpec(op, db);
      }
    }
  }
}
