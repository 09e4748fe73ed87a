/**
 Each money-moving transaction as the sequence of SQL statements its repository method
 sends.  A statement locks and reads one row and may write that row; the writes stay in
 the transaction's private overlay until it commits.
 */
module Programs {
  import opened Money
  import opened Tables

  datatype Op =
    | Transfer(key: Id, from: int, to: int, amount: int, converted: int)
    | Checkout(session: Id, user: Id, wallet: int, settlement: int, bps: int, now: int, txId: Id)
    | CardPay(txId: Id, card: Id, cvv: string, month: int, year: int, amount: int)
    | Settle(charge: Id, merchant: Id, amount: int, fee: int, net: int,
             entries: seq<Entry>, settlement: int)
    | Delete(user: Id, wallet: int)
    | FailedCharge(charge: Id, merchant: Id, amount: int)
    | NewWallet(wallet: int, user: Id, currency: string)
    | NewCard(card: Id, user: Id, wallet: int, limit: int, cvv: string, month: int, year: int)
    | SetCardStatus(card: Id, user: Id, status: CardStatus)
    | NewSession(session: Id, merchant: Id, amount: int, currency: string, expiresAt: int)

  /** The progress of one transaction: its next statement, the row its first SELECT returned,
      its uncommitted writes and the row locks it holds. */
  datatype Local = Local(pc: nat, memo: Option<Row>, overlay: DB, locks: set<RowId>)

  const START := Local(0, None, map[], {})

  datatype Stage = At(local: Local) | Stopped(error: Error)

  datatype Effect = Go(pc: nat, memo: Option<Row>, write: Option<Row>) | Fail(error: Error)

  /** No pc of `op` reaches beyond this bound. */
  function Limit(op: Op): nat {
    match op
    case Transfer(_, _, _, _, _) => 6
    case Checkout(_, _, _, _, _, _, _) => 10
    case CardPay(_, _, _, _, _, _) => 6
    case Settle(_, _, _, _, _, entries, _) => |entries| + 4
    case Delete(_, _) => 2
    case _ => 1
  }

  /** The pc at which `op` calls tx.Commit. */
  function End(op: Op): nat {
    if op.Checkout? then 7 else Limit(op)
  }

  function Min(x: int, y: int): int {
    if x > y then y else x
  }

  function Max(x: int, y: int): int {
    if x > y then x else y
  }

  /** The row that statement `pc` locks. */
  function Target(op: Op, pc: nat, memo: Option<Row>): RowId {
    match op
    case Transfer(key, from, to, _, _) =>
      if pc == 0 then KeyOf(key)
      else if pc == 1 then WalletOf(Min(from, to))
      else if pc == 2 then WalletOf(Max(from, to))
      else if pc == 3 then WalletOf(from)
      else if pc == 4 then WalletOf(to)
      else TxOf(key)
    case Checkout(session, _, wallet, settlement, _, _, txId) =>
      if pc == 1 || pc == 2 then WalletOf(wallet)
      else if pc == 3 then WalletOf(settlement)
      else if pc == 4 then FeeAccount
      else if pc == 5 then TxOf(txId)
      else SessionOf(session)
    case CardPay(txId, card, _, _, _, _) =>
      var known := if memo.Some? && memo.value.Card? then memo else None;
      if pc == 1 && known.Some? then UserOf(known.value.user)
      else if (pc == 2 || pc == 3) && known.Some? then WalletOf(known.value.wallet)
      else if pc == 5 then TxOf(txId)
      else CardOf(card)
    case Settle(charge, _, _, _, _, entries, settlement) =>
      if pc == 0 then ChargeOf(charge)
      else if pc <= |entries| then LegOf(charge, pc - 1)
      else if pc == |entries| + 1 then WalletOf(settlement)
      else if pc == |entries| + 2 then ClearingAccount
      else FeeAccount
    case Delete(_, wallet) => WalletOf(wallet)
    case FailedCharge(charge, _, _) => ChargeOf(charge)
    case NewWallet(wallet, _, _) => WalletOf(wallet)
    case NewCard(card, _, _, _, _, _, _) => CardOf(card)
    case SetCardStatus(card, _, _) => CardOf(card)
    case NewSession(session, _, _, _, _) => SessionOf(session)
  }

  /** UPDATE ... SET balance = balance + change: no row, no effect. */
  function AddToBalance(pc: nat, memo: Option<Row>, row: Option<Row>, change: int): Effect {
    if row.Some? && (row.value.Wallet? || row.value.Account?) then
      Go(pc, memo, Some(row.value.(balance := row.value.balance + change)))
    else
      Go(pc, memo, None)
  }

  /** INSERT of a row whose primary key must be new. */
  function Insert(pc: nat, memo: Option<Row>, row: Option<Row>, record: Row): Effect {
    if row.None? then Go(pc, memo, Some(record)) else Fail(DatabaseError)
  }

  function ExecTransfer(op: Op, pc: nat, memo: Option<Row>, row: Option<Row>): (e: Effect)
    requires op.Transfer?
    ensures e.Go? ==> pc < e.pc <= Limit(op)
  {
    match pc
    case 0 => if row.None? then Go(1, memo, Some(KeyRec)) else Fail(AlreadyProcessed)
    case 1 => if IsLiveWallet(row) then Go(2, memo, None) else Fail(WalletNotFound)
    case 2 => if IsLiveWallet(row) then Go(3, memo, None) else Fail(WalletNotFound)
    case 3 =>
      if row.Some? && row.value.Wallet? && row.value.balance >= op.amount
      then AddToBalance(4, memo, row, -op.amount)
      else Fail(InsufficientFunds)
    case 4 => AddToBalance(5, memo, row, op.converted)
    case 5 =>
      Insert(6, memo, row, TxRec(Some(op.from), Some(op.to), op.amount, Some(op.converted), TxCompleted, None))
    case _ => Fail(DatabaseError)
  }

  function SessionAmount(memo: Option<Row>): int {
    if memo.Some? && memo.value.Session? then memo.value.amount else 0
  }

  function ExecCheckout(op: Op, pc: nat, memo: Option<Row>, row: Option<Row>): (e: Effect)
    requires op.Checkout?
    ensures e.Go? ==> pc < e.pc <= Limit(op)
  {
    var amount := SessionAmount(memo);
    var fee := Fee(amount, op.bps);
    match pc
    case 0 =>
      if row.None? || !row.value.Session? then Fail(SessionNotFound)
      else if row.value.sessionStatus != Pending then Fail(NotPayable)
      else if op.now > row.value.expiresAt then Go(8, row, None)
      else Go(1, row, None)
    case 1 =>
      if !IsLiveWallet(row) || row.value.user != op.user then Fail(WalletNotFound)
      else if memo.Some? && memo.value.Session? && row.value.currency != memo.value.currency
      then Fail(CurrencyMismatch)
      else if row.value.balance < amount then Fail(InsufficientFunds)
      else Go(2, memo, None)
    case 2 => AddToBalance(3, memo, row, -amount)
    case 3 => AddToBalance(if fee > 0 then 4 else 5, memo, row, Net(amount, fee))
    case 4 => AddToBalance(5, memo, row, fee)
    case 5 =>
      Insert(6, memo, row, TxRec(Some(op.wallet), Some(op.settlement), amount, None, TxCompleted, None))
    case 6 =>
      if row.Some? && row.value.Session?
      then Go(7, memo, Some(row.value.(sessionStatus := Paid, payer := Some(op.user), paidBy := Some(op.txId))))
      else Go(7, memo, None)
    case 8 =>
      // The EXPIRED mark is written, and then undone by the deferred rollback.
      if row.Some? && row.value.Session?
      then Go(9, memo, Some(row.value.(sessionStatus := Expired)))
      else Go(9, memo, None)
    case 9 => Fail(SessionExpired)
    case _ => Fail(DatabaseError)
  }

  function ExecCardPay(op: Op, pc: nat, memo: Option<Row>, row: Option<Row>): (e: Effect)
    requires op.CardPay?
    ensures e.Go? ==> pc < e.pc <= Limit(op)
  {
    match pc
    case 0 => if row.None? then Fail(NoRows) else Go(1, row, None)
    case 1 =>
      if row.None? || memo.None? || !memo.value.Card? then Fail(NoRows)
      else if memo.value.cardStatus != CardActive then Fail(CardNotActive)
      else if memo.value.cvv != op.cvv || memo.value.expiryMonth != op.month || memo.value.expiryYear != op.year
      then Fail(InvalidCardDetails)
      else if Wrap64(op.amount + memo.value.spent) > memo.value.limit then Fail(LimitExceeded)
      else Go(2, memo, None)
    case 2 =>
      if row.None? || !row.value.Wallet? then Fail(NoRows)
      else if row.value.balance < op.amount then Fail(InsufficientFunds)
      else Go(3, memo, None)
    case 3 => AddToBalance(4, memo, row, -op.amount)
    case 4 =>
      if row.Some? && row.value.Card?
      then Go(5, memo, Some(row.value.(spent := row.value.spent + op.amount)))
      else Go(5, memo, None)
    case 5 =>
      var wallet := if memo.Some? && memo.value.Card? then memo.value.wallet else 0;
      Insert(6, memo, row, TxRec(Some(wallet), None, op.amount, None, TxCompleted, Some(op.card)))
    case _ => Fail(DatabaseError)
  }

  function ExecSettle(op: Op, pc: nat, memo: Option<Row>, row: Option<Row>): (e: Effect)
    requires op.Settle?
    ensures e.Go? ==> pc < e.pc <= Limit(op)
  {
    var k := |op.entries|;
    if pc == 0 then
      Insert(1, memo, row, Charge(op.merchant, op.amount, op.fee, op.net, ChargeSucceeded))
    else if pc <= k then Insert(pc + 1, memo, row, Leg(op.entries[pc - 1]))
    else if pc == k + 1 then
      if row.Some? && row.value.Wallet? then AddToBalance(k + 2, memo, row, op.net)
      else Fail(SettlementWalletNotFound)
    else if pc == k + 2 then
      AddToBalance(if op.fee > 0 then k + 3 else k + 4, memo, row, op.amount)
    else if pc == k + 3 then AddToBalance(k + 4, memo, row, op.fee)
    else Fail(DatabaseError)
  }

  function ExecDelete(op: Op, pc: nat, memo: Option<Row>, row: Option<Row>): (e: Effect)
    requires op.Delete?
    ensures e.Go? ==> pc < e.pc <= Limit(op)
  {
    match pc
    case 0 =>
      if !IsLiveWallet(row) || row.value.user != op.user then Fail(NoRows)
      else if row.value.balance > 0 then Fail(NonZeroBalance)
      else Go(1, memo, None)
    case 1 =>
      if row.Some? && row.value.Wallet? && row.value.user == op.user
      then Go(2, memo, Some(row.value.(deleted := true)))
      else Go(2, memo, None)
    case _ => Fail(DatabaseError)
  }

  /** What statement `pc` does with the row it locked. */
  function Exec(op: Op, pc: nat, memo: Option<Row>, row: Option<Row>): (e: Effect)
    ensures e.Go? ==> pc < e.pc <= Limit(op)
  {
    match op
    case Transfer(_, _, _, _, _) => ExecTransfer(op, pc, memo, row)
    case Checkout(_, _, _, _, _, _, _) => ExecCheckout(op, pc, memo, row)
    case CardPay(_, _, _, _, _, _) => ExecCardPay(op, pc, memo, row)
    case Settle(_, _, _, _, _, _, _) => ExecSettle(op, pc, memo, row)
    case Delete(_, _) => ExecDelete(op, pc, memo, row)
    case _ => if pc == 0 then ExecSingle(op, memo, row) else Fail(DatabaseError)
  }

  /** The operations that are one autocommitted statement. */
  function ExecSingle(op: Op, memo: Option<Row>, row: Option<Row>): (e: Effect)
    ensures e.Go? ==> e.pc == 1
  {
    match op
    case FailedCharge(_, merchant, amount) =>
      Insert(1, memo, row, Charge(merchant, amount, 0, 0, ChargeFailed))
    case NewWallet(_, user, currency) => Insert(1, memo, row, Wallet(user, currency, 0, false))
    case NewCard(_, user, wallet, limit, cvv, month, year) =>
      Insert(1, memo, row, Card(user, wallet, limit, 0, CardActive, cvv, month, year))
    case SetCardStatus(_, user, status) =>
      if row.Some? && row.value.Card? && row.value.user == user
      then Go(1, memo, Some(row.value.(cardStatus := status)))
      else Go(1, memo, None)
    case NewSession(_, merchant, amount, currency, expiresAt) =>
      Insert(1, memo, row, Session(merchant, amount, currency, Pending, expiresAt, None, None))
    case _ => Fail(DatabaseError)
  }

  /** One statement of a transaction: lock, read, check constraints, write to the overlay. */
  function Advance(op: Op, db: DB, l: Local): Stage {
    var id := Target(op, l.pc, l.memo);
    match Exec(op, l.pc, l.memo, Visible(db, l.overlay, id))
    case Fail(e) => Stopped(e)
    case Go(pc, memo, None) => At(Local(pc, memo, l.overlay, l.locks + {id}))
    case Go(pc, memo, Some(row)) =>
      if RowOk(id, row) then At(Local(pc, memo, l.overlay[id := row], l.locks + {id}))
      else Stopped(DatabaseError)
  }

  /** Runs the remaining statements with nobody else touching the database. */
  function Finish(op: Op, db: DB, l: Local): Verdict
    decreases Limit(op) - l.pc
  {
    if l.pc == End(op) then Committed(db + l.overlay)
    else
      match Advance(op, db, l)
      case Stopped(e) => Refused(e)
      case At(l') => Finish(op, db, l')
  }

  /** Transfer refuses two equal wallets before it begins its transaction. */
  predicate Begins(op: Op) {
    op.Transfer? ==> op.from != op.to
  }

  function Solo(op: Op, db: DB): Verdict {
    if Begins(op) then Finish(op, db, START) else Refused(SameWallet)
  }

  /** The first n statements of `op`, run alone on `db`. */
  function Prefix(op: Op, db: DB, n: nat): Stage {
    if n == 0 then At(START)
    else
      match Prefix(op, db, n - 1)
      case Stopped(e) => Stopped(e)
      case At(l) => if l.pc == End(op) then Stopped(DatabaseError) else Advance(op, db, l)
  }

  /** `db` and `db'` hold the same rows under `ids`. */
  ghost predicate Agree(db: DB, db': DB, ids: set<RowId>) {
    forall id | id in ids :: Find(db, id) == Find(db', id)
  }

  lemma {:induction false} PrefixWritesOnlyLockedRows(op: Op, db: DB, n: nat)
    ensures Prefix(op, db, n).At? ==> Prefix(op, db, n).local.overlay.Keys <= Prefix(op, db, n).local.locks
  {
    if n > 0 {
      PrefixWritesOnlyLockedRows(op, db, n - 1);
    }
  }

  /** A prefix depends only on the rows it has locked: changes elsewhere do not disturb it. */
  lemma {:induction false} PrefixDependsOnLockedRows(op: Op, db: DB, db': DB, n: nat)
    requires Prefix(op, db, n).At?
    requires Agree(db, db', Prefix(op, db, n).local.locks)
    ensures Prefix(op, db', n) == Prefix(op, db, n)
  {
    if n > 0 {
      var l := Prefix(op, db, n - 1).local;
      var id := Target(op, l.pc, l.memo);
      assert l.locks + {id} == Prefix(op, db, n).local.locks;
      PrefixDependsOnLockedRows(op, db, db', n - 1);
      assert Find(db, id) == Find(db', id);
    }
  }

  lemma {:induction false} FinishAfterPrefix(op: Op, db: DB, n: nat)
    requires Prefix(op, db, n).At?
    ensures Finish(op, db, Prefix(op, db, n).local) == Finish(op, db, START)
  {
    if n > 0 {
      FinishAfterPrefix(op, db, n - 1);
    }
  }
}
