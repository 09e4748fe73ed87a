/**
 The repository methods as they are written: each opens a transaction on the database, sends
 its statements one after another against the transaction's own view, and commits or returns
 an error with nothing changed.  Each is proved to have exactly its specified verdict.
 */
module Repositories {
  import opened Money
  import opened Tables
  import opened Programs
  import opened Specs

  datatype ChargeReply = ChargeReply(success: bool, transactionId: Option<Id>, failureReason: string)

  /** A row of charge_idempotency, under its merchant and key. */
  datatype Cached = Cached(hash: int, status: int, reply: ChargeReply)

  type Cache = map<(Id, string), Cached>

  class Database {
    var rows: DB
    var chargeCache: Cache

    constructor (rows: DB)
      ensures this.rows == rows && chargeCache == map[]
    {
      this.rows := rows;
      this.chargeCache := map[];
    }
  }

  /** What a repository method has returned and left behind when its verdict is `verdict`. */
  predicate Outcome(err: Option<Error>, before: DB, after: DB, verdict: Verdict) {
    match verdict
    case Committed(db) => err == None && after == db
    case Refused(e) => err == Some(e) && after == before
  }

  /** UPDATE ... SET balance = balance + change WHERE the key is `id`: None when a constraint fails. */
  method UpdateBalance(tx: DB, id: RowId, change: int) returns (r: Option<DB>)
    requires id.WalletOf? || id == ClearingAccount || id == FeeAccount
    requires id in tx ==> RowOk(id, tx[id])
    ensures r.Some? <==> CreditOk(tx, id, change)
    ensures r.Some? ==> r.value == Credited(tx, id, change)
  {
    if id !in tx {
      return Some(tx);
    }
    var row := tx[id].(balance := tx[id].balance + change);
    if !RowOk(id, row) {
      return None;
    }
    return Some(tx[id := row]);
  }

  class TransactionRepository {
    const pool: Database

    constructor (pool: Database)
      ensures this.pool == pool
    {
      this.pool := pool;
    }

    method Transfer(key: Id, from: int, to: int, amount: int, converted: int) returns (err: Option<Error>)
      requires WellFormed(pool.rows)
      modifies pool`rows
      ensures Outcome(err, old(pool.rows), pool.rows,
                      TransferSpec(Op.Transfer(key, from, to, amount, converted), old(pool.rows)))
    {
      if from == to {
        return Some(SameWallet);
      }
      var tx := pool.rows;
      if KeyOf(key) in tx {
        return Some(AlreadyProcessed);
      }
      tx := tx[KeyOf(key) := KeyRec];

      var firstNumber, secondNumber := from, to;
      if from > to {
        firstNumber, secondNumber := to, from;
      }
      if !IsLiveWallet(Find(tx, WalletOf(firstNumber))) {
        return Some(WalletNotFound);
      }
      var firstId := firstNumber;
      if !IsLiveWallet(Find(tx, WalletOf(secondNumber))) {
        return Some(WalletNotFound);
      }
      var secondId := secondNumber;
      var fromId, toId := secondId, firstId;
      if firstNumber == from {
        fromId, toId := firstId, secondId;
      }
      assert fromId == from && toId == to && Live(pool.rows, from) && Live(pool.rows, to);

      var source := tx[WalletOf(fromId)];
      if source.balance < amount {
        return Some(InsufficientFunds);
      }
      if !Fits(source.balance - amount) {
        return Some(DatabaseError);
      }
      tx := tx[WalletOf(fromId) := source.(balance := source.balance - amount)];

      var target := tx[WalletOf(toId)];
      if !Fits(target.balance + converted) {
        return Some(DatabaseError);
      }
      tx := tx[WalletOf(toId) := target.(balance := target.balance + converted)];

      if TxOf(key) in tx || amount <= 0 {
        return Some(DatabaseError);
      }
      tx := tx[TxOf(key) := TxRec(Some(fromId), Some(toId), amount, Some(converted), TxCompleted, None)];
      pool.rows := tx;
      return None;
    }
  }

  class CheckoutRepository {
    const pool: Database

    constructor (pool: Database)
      ensures this.pool == pool
    {
      this.pool := pool;
    }

    method ExecuteWalletPayment(session: Id, user: Id, wallet: int, settlement: int, bps: int, now: int, txId: Id)
      returns (err: Option<Error>)
      requires WellFormed(pool.rows)
      modifies pool`rows
      ensures Outcome(err, old(pool.rows), pool.rows,
                      CheckoutSpec(Checkout(session, user, wallet, settlement, bps, now, txId), old(pool.rows)))
    {
      var tx := pool.rows;
      if SessionOf(session) !in tx {
        return Some(SessionNotFound);
      }
      assert RowOk(SessionOf(session), tx[SessionOf(session)]);
      var found := tx[SessionOf(session)];
      if found.sessionStatus != Pending {
        return Some(NotPayable);
      }
      if now > found.expiresAt {
        tx := tx[SessionOf(session) := found.(sessionStatus := Expired)];
        return Some(SessionExpired);
      }

      if !IsLiveWallet(Find(tx, WalletOf(wallet))) || tx[WalletOf(wallet)].user != user {
        return Some(WalletNotFound);
      }
      var payer := tx[WalletOf(wallet)];
      if payer.currency != found.currency {
        return Some(CurrencyMismatch);
      }
      if payer.balance < found.amount {
        return Some(InsufficientFunds);
      }

      var feeAmount := Fee(found.amount, bps);
      var netAmount := Net(found.amount, feeAmount);

      assert RowOk(SessionOf(session), found);
      var moved := MoveFunds(tx, wallet, found.amount, settlement, netAmount, feeAmount);
      if moved.None? {
        return Some(DatabaseError);
      }
      tx := moved.value;

      if TxOf(txId) in tx {
        return Some(DatabaseError);
      }
      tx := tx[TxOf(txId) := TxRec(Some(wallet), Some(settlement), found.amount, None, TxCompleted, None)];
      tx := tx[SessionOf(session) := found.(sessionStatus := Paid, payer := Some(user), paidBy := Some(txId))];
      pool.rows := tx;
      return None;
    }

    /** The debit of the payer, the net credit of the settlement wallet, and the fee credit when there
        is a fee. */
    method MoveFunds(tx: DB, wallet: int, amount: int, settlement: int, net: int, fee: int) returns (r: Option<DB>)
      requires WellFormed(tx) && WalletOf(wallet) in tx && tx[WalletOf(wallet)].balance >= amount > 0
      ensures r.Some? <==> CreditOk(Credited(tx, WalletOf(wallet), -amount), WalletOf(settlement), net)
                           && CreditOk(tx, FeeAccount, Positive(fee))
      ensures r.Some? ==>
        r.value == Credited(Credited(Credited(tx, WalletOf(wallet), -amount), WalletOf(settlement), net),
                            FeeAccount, Positive(fee))
    {
      assert RowOk(WalletOf(wallet), tx[WalletOf(wallet)]);
      assert WalletOf(settlement) in tx ==> RowOk(WalletOf(settlement), tx[WalletOf(settlement)]);
      assert FeeAccount in tx ==> RowOk(FeeAccount, tx[FeeAccount]);
      r := UpdateBalance(tx, WalletOf(wallet), -amount);
      r := UpdateBalance(r.value, WalletOf(settlement), net);
      if r.None? {
        return;
      }
      ghost var settled := r.value;
      if fee > 0 {
        r := UpdateBalance(r.value, FeeAccount, fee);
      } else {
        assert Credited(settled, FeeAccount, 0) == settled;
      }
    }
  }

  class CardRepository {
    const pool: Database

    constructor (pool: Database)
      ensures this.pool == pool
    {
      this.pool := pool;
    }

    method ProcessPayment(txId: Id, cardId: Id, cvv: string, expiryMonth: int, expiryYear: int, amount: int)
      returns (err: Option<Error>)
      requires WellFormed(pool.rows)
      modifies pool`rows
      ensures Outcome(err, old(pool.rows), pool.rows,
                      Spec(CardPay(txId, cardId, cvv, expiryMonth, expiryYear, amount), old(pool.rows)))
    {
      var tx := pool.rows;
      if CardOf(cardId) !in tx {
        return Some(NoRows);
      }
      assert RowOk(CardOf(cardId), tx[CardOf(cardId)]);
      var card := tx[CardOf(cardId)];
      if UserOf(card.user) !in tx {
        return Some(NoRows);
      }
      if card.cardStatus != CardActive {
        return Some(CardNotActive);
      }
      if card.cvv != cvv || card.expiryMonth != expiryMonth || card.expiryYear != expiryYear {
        return Some(InvalidCardDetails);
      }
      if Wrap64(amount + card.spent) > card.limit {
        return Some(LimitExceeded);
      }

      if WalletOf(card.wallet) !in tx {
        return Some(NoRows);
      }
      assert RowOk(WalletOf(card.wallet), tx[WalletOf(card.wallet)]);
      var wallet := tx[WalletOf(card.wallet)];
      if wallet.balance < amount {
        return Some(InsufficientFunds);
      }
      var debited := UpdateBalance(tx, WalletOf(card.wallet), -amount);
      if debited.None? {
        return Some(DatabaseError);
      }
      tx := debited.value;
      if !Fits(card.spent + amount) {
        return Some(DatabaseError);
      }
      tx := tx[CardOf(cardId) := card.(spent := card.spent + amount)];
      if TxOf(txId) in tx || amount <= 0 {
        return Some(DatabaseError);
      }
      tx := tx[TxOf(txId) := TxRec(Some(card.wallet), None, amount, None, TxCompleted, Some(cardId))];
      pool.rows := tx;
      return None;
    }
  }

  class WalletRepository {
    const pool: Database

    constructor (pool: Database)
      ensures this.pool == pool
    {
      this.pool := pool;
    }

    method Delete(user: Id, wallet: int) returns (err: Option<Error>)
      requires WellFormed(pool.rows)
      modifies pool`rows
      ensures Outcome(err, old(pool.rows), pool.rows, Spec(Op.Delete(user, wallet), old(pool.rows)))
    {
      var tx := pool.rows;
      if !IsLiveWallet(Find(tx, WalletOf(wallet))) || tx[WalletOf(wallet)].user != user {
        return Some(NoRows);
      }
      var row := tx[WalletOf(wallet)];
      if row.balance > 0 {
        return Some(NonZeroBalance);
      }
      tx := tx[WalletOf(wallet) := row.(deleted := true)];
      pool.rows := tx;
      return None;
    }
  }

  class ChargeRepository {
    const pool: Database

    constructor (pool: Database)
      ensures this.pool == pool
    {
      this.pool := pool;
    }

    method GetIdempotency(merchant: Id, key: string) returns (record: Option<Cached>)
      ensures record == if (merchant, key) in pool.chargeCache then Some(pool.chargeCache[(merchant, key)]) else None
    {
      if (merchant, key) in pool.chargeCache {
        return Some(pool.chargeCache[(merchant, key)]);
      }
      return None;
    }

    /** ON CONFLICT updates the status and the body, and keeps the first request hash. */
    method SaveIdempotency(merchant: Id, key: string, record: Cached)
      modifies pool`chargeCache
      ensures pool.chargeCache == Upserted(old(pool.chargeCache), merchant, key, record)
      ensures pool.chargeCache.Keys == old(pool.chargeCache).Keys + {(merchant, key)}
      ensures forall other | other in old(pool.chargeCache) && other != (merchant, key) ::
        pool.chargeCache[other] == old(pool.chargeCache)[other]
      ensures var saved := pool.chargeCache[(merchant, key)];
        && saved.status == record.status && saved.reply == record.reply
        && ((merchant, key) in old(pool.chargeCache) ==> saved.hash == old(pool.chargeCache)[(merchant, key)].hash)
        && ((merchant, key) !in old(pool.chargeCache) ==> saved.hash == record.hash)
    {
      var hash := record.hash;
      if (merchant, key) in pool.chargeCache {
        hash := pool.chargeCache[(merchant, key)].hash;
      }
      pool.chargeCache := pool.chargeCache[(merchant, key) := record.(hash := hash)];
    }

    method SaveFailedCharge(charge: Id, merchant: Id, amount: int) returns (err: Option<Error>)
      requires WellFormed(pool.rows)
      modifies pool`rows
      ensures Outcome(err, old(pool.rows), pool.rows, Spec(FailedCharge(charge, merchant, amount), old(pool.rows)))
    {
      if ChargeOf(charge) in pool.rows || !(0 < amount <= INT64_MAX) {
        return Some(DatabaseError);
      }
      pool.rows := pool.rows[ChargeOf(charge) := Charge(merchant, amount, 0, 0, ChargeFailed)];
      return None;
    }

    method ProcessSettlement(charge: Id, merchant: Id, amount: int, fee: int, net: int,
                             entries: seq<Entry>, settlement: int)
      returns (err: Option<Error>)
      requires WellFormed(pool.rows)
      modifies pool`rows
      ensures Outcome(err, old(pool.rows), pool.rows,
                      Spec(Settle(charge, merchant, amount, fee, net, entries, settlement), old(pool.rows)))
    {
      ghost var op := Settle(charge, merchant, amount, fee, net, entries, settlement);
      var tx := pool.rows;
      if ChargeOf(charge) in tx || !(0 < amount <= INT64_MAX) {
        return Some(DatabaseError);
      }
      tx := tx[ChargeOf(charge) := Charge(merchant, amount, fee, net, ChargeSucceeded)];

      var booked := InsertEntries(tx, charge, entries);
      if booked.None? {
        return Some(DatabaseError);
      }
      tx := booked.value;
      BookedBalances(op, pool.rows, tx);

      if WalletOf(settlement) !in tx {
        return Some(SettlementWalletNotFound);
      }
      var settled := UpdateBalances(tx, settlement, net, amount, fee);
      SettleVerdict(op, pool.rows, booked.value);
      if settled.None? {
        return Some(DatabaseError);
      }
      pool.rows := settled.value;
      return None;
    }

    /** The loop that inserts one ledger row per entry. */
    method InsertEntries(tx: DB, charge: Id, entries: seq<Entry>) returns (r: Option<DB>)
      ensures r.Some? <==> LegsOk(tx, charge, entries)
      ensures r.Some? ==> r.value == WithLegs(tx, charge, entries)
    {
      var rows := tx;
      var i := 0;
      while i < |entries|
        invariant 0 <= i <= |entries|
        invariant rows == WithLegs(tx, charge, entries[..i])
        invariant LegsOk(tx, charge, entries[..i])
      {
        var entry := entries[i];
        LegKeys(tx, charge, entries[..i]);
        if LegOf(charge, i) in rows || !(0 < entry.sum <= INT64_MAX) {
          assert !RowOk(LegOf(charge, i), Leg(entries[i])) || LegOf(charge, i) in tx;
          return None;
        }
        rows := rows[LegOf(charge, i) := Leg(entry)];
        assert entries[..i + 1][..i] == entries[..i];
        i := i + 1;
      }
      assert entries[..i] == entries;
      return Some(rows);
    }

    /** The net credit, the clearing credit, and the fee credit when there is a fee. */
    method UpdateBalances(tx: DB, settlement: int, net: int, amount: int, fee: int) returns (r: Option<DB>)
      requires WalletOf(settlement) in tx && RowOk(WalletOf(settlement), tx[WalletOf(settlement)])
      requires ClearingAccount in tx ==> RowOk(ClearingAccount, tx[ClearingAccount])
      requires FeeAccount in tx ==> RowOk(FeeAccount, tx[FeeAccount])
      ensures r.Some? <==> CreditOk(tx, WalletOf(settlement), net) && CreditOk(tx, ClearingAccount, amount)
                           && CreditOk(tx, FeeAccount, Positive(fee))
      ensures r.Some? ==>
        r.value == Credited(Credited(Credited(tx, WalletOf(settlement), net), ClearingAccount, amount),
                            FeeAccount, Positive(fee))
    {
      r := UpdateBalance(tx, WalletOf(settlement), net);
      if r.None? {
        return;
      }
      r := UpdateBalance(r.value, ClearingAccount, amount);
      if r.None? {
        return;
      }
      ghost var cleared := r.value;
      if fee > 0 {
        r := UpdateBalance(r.value, FeeAccount, fee);
      } else {
        assert Credited(cleared, FeeAccount, 0) == cleared;
      }
    }
  }

  /** What the settlement's last checks come to once its charge and ledger rows are booked. */
  lemma SettleVerdict(op: Op, db: DB, booked: DB)
    requires op.Settle? && WellFormed(db) && ChargeOf(op.charge) !in db
    requires RowOk(ChargeOf(op.charge), ChargeRow(op)) && LegsOk(db, op.charge, op.entries)
    requires booked == WithLegs(db[ChargeOf(op.charge) := ChargeRow(op)], op.charge, op.entries)
    requires WalletOf(op.settlement) in booked
    ensures SettleSpec(op, db) ==
      if !CreditOk(booked, WalletOf(op.settlement), op.net) || !CreditOk(booked, ClearingAccount, op.amount)
         || !CreditOk(booked, FeeAccount, Positive(op.fee))
      then Refused(DatabaseError)
      else Committed(Credited(Credited(Credited(booked, WalletOf(op.settlement), op.net),
                                       ClearingAccount, op.amount), FeeAccount, Positive(op.fee)))
  {
    BookedBalances(op, db, booked);
    assert Find(booked, FeeAccount) == Find(db, FeeAccount);
    assert Find(booked, ClearingAccount) == Find(db, ClearingAccount);
    assert Find(booked, WalletOf(op.settlement)) == Find(db, WalletOf(op.settlement));
  }

  /** Booking a charge and its ledger rows leaves every account as it was. */
  lemma BookedBalances(op: Op, db: DB, booked: DB)
    requires op.Settle? && WellFormed(db) && LegsOk(db, op.charge, op.entries)
    requires booked == WithLegs(db[ChargeOf(op.charge) := ChargeRow(op)], op.charge, op.entries)
    ensures forall id: RowId | id.WalletOf? || id == ClearingAccount || id == FeeAccount ::
      Find(booked, id) == Find(db, id) && (id in db ==> RowOk(id, db[id]))
  {
    LegKeys(db[ChargeOf(op.charge) := ChargeRow(op)], op.charge, op.entries);
  }

  function Upserted(cache: Cache, merchant: Id, key: string, record: Cached): Cache {
    var hash := if (merchant, key) in cache then cache[(merchant, key)].hash else record.hash;
    cache[(merchant, key) := record.(hash := hash)]
  }
}
