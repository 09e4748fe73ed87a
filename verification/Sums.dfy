/** Sums of a row weight over all the tables, and how one row write changes them. */
module Sums {
  import opened Money
  import opened Tables

  /** What can be totalled over the tables.  `base` is the database in which merchants' fee rates are
      looked up. */
  datatype Quantity =
    | Money
    | Created(base: DB)
    | BalanceOf(id: RowId)
    | ClearingDebits
    | FeeCredits
    | PaidFees(base: DB)
    | CardPayments(card: Id)
    | StatementFlow(wallet: int)
    | LegTotal(charge: Id, kind: EntryType)
    | Owed(charge: Id, kind: EntryType)

  /** The differences of quantities that no committed operation changes. */
  datatype Law =
    | Conservation(base: DB)
    | ClearingLedger
    | FeeLedger(base: DB)
    | CardSpend(card: Id)
    | WalletStatement(wallet: int)
    | ChargeDebits(charge: Id)
    | ChargeCredits(charge: Id)

  /** The fee of a payment of `amount` to `merchant`. */
  function MerchantFee(base: DB, merchant: Id, amount: int): int {
    if MerchantOf(merchant) in base && base[MerchantOf(merchant)].Merchant?
    then Fee(amount, base[MerchantOf(merchant)].bps) else 0
  }

  function CheckoutDrift(base: DB, session: Row): int
    requires session.Session?
  {
    var fee := MerchantFee(base, session.merchant, session.amount);
    Drift(session.amount, fee, Net(session.amount, fee))
  }

  /** Wallets + fee revenue - clearing + card spend - (converted - amount) of every transfer. */
  function MoneyWeight(id: RowId, row: Row): int {
    match row
    case Wallet(_, _, balance, _) => balance
    case Card(_, _, _, spent, _, _, _, _) => spent
    case Account(balance) => if id == FeeAccount then balance else -balance
    case TxRec(_, _, amount, converted, _, _) => if converted.Some? then amount - converted.value else 0
    case _ => 0
  }

  /** What the fees of paid sessions and succeeded charges created by wrapping below zero. */
  function CreatedWeight(base: DB, row: Row): int {
    match row
    case Session(_, _, _, status, _, _, _) => if status == Paid then CheckoutDrift(base, row) else 0
    case Charge(_, amount, fee, net, status) => if status == ChargeSucceeded then Drift(amount, fee, net) else 0
    case _ => 0
  }

  function BalanceWeight(of: RowId, id: RowId, row: Row): int {
    if id != of then 0
    else if row.Wallet? || row.Account? then row.balance
    else if row.Card? then row.spent
    else if row.Charge? && row.chargeStatus == ChargeSucceeded then row.amount
    else 0
  }

  function EntryWeight(account: AccountType, kind: EntryType, row: Row): int {
    if row.Leg? && row.entry.account == account && row.entry.kind == kind then row.entry.sum else 0
  }

  function PaidFeeWeight(base: DB, row: Row): int {
    if row.Session? && row.sessionStatus == Paid then Positive(MerchantFee(base, row.merchant, row.amount)) else 0
  }

  function CardPaymentWeight(card: Id, row: Row): int {
    if row.TxRec? && row.card == Some(card) then row.amount else 0
  }

  /** The statement filter: COMPLETED rows from or to the wallet. */
  predicate OnStatement(wallet: int, row: Row) {
    row.TxRec? && row.txStatus == TxCompleted && (row.from == Some(wallet) || row.to == Some(wallet))
  }

  /** Inflow less outflow of one statement row, by the rule of the PDF export. */
  function Flow(wallet: int, row: Row): int
    requires row.TxRec?
  {
    if row.from == Some(wallet) || row.card.Some? then -row.amount
    else if row.converted.Some? then row.converted.value
    else row.amount
  }

  function FlowWeight(wallet: int, row: Row): int {
    if OnStatement(wallet, row) then Flow(wallet, row) else 0
  }

  function LegWeight(charge: Id, kind: EntryType, id: RowId, row: Row): int {
    if row.Leg? && id.LegOf? && id.charge == charge && row.entry.kind == kind then row.entry.sum else 0
  }

  /** What the ledger entries of one kind must total for this charge. */
  function ChargeOwes(charge: Id, kind: EntryType, id: RowId, row: Row): int {
    if row.Charge? && id == ChargeOf(charge) && row.chargeStatus == ChargeSucceeded then
      if kind == Debit then row.amount else row.net + Positive(row.fee)
    else 0
  }

  function Weigh(q: Quantity, id: RowId, row: Row): int {
    match q
    case Money => MoneyWeight(id, row)
    case Created(base) => CreatedWeight(base, row)
    case BalanceOf(of) => BalanceWeight(of, id, row)
    case ClearingDebits => EntryWeight(AcquiringClearing, Debit, row)
    case FeeCredits => EntryWeight(PlatformFeeRevenue, Credit, row)
    case PaidFees(base) => PaidFeeWeight(base, row)
    case CardPayments(card) => CardPaymentWeight(card, row)
    case StatementFlow(wallet) => FlowWeight(wallet, row)
    case LegTotal(charge, kind) => LegWeight(charge, kind, id, row)
    case Owed(charge, kind) => ChargeOwes(charge, kind, id, row)
  }

  ghost function Pick(db: DB): RowId
    requires db != map[]
    ensures Pick(db) in db
  {
    assert exists id :: id in db;
    var id :| id in db;
    id
  }

  /** The total weight of all rows. */
  ghost function Sum(q: Quantity, db: DB): int
    decreases |db|
  {
    if db == map[] then 0
    else
      var id := Pick(db);
      assert (db - {id}).Keys == db.Keys - {id};
      Weigh(q, id, db[id]) + Sum(q, db - {id})
  }

  /** Any row can be split off the total. */
  lemma {:induction false} SumSplit(q: Quantity, db: DB, id: RowId)
    requires id in db
    ensures Sum(q, db) == Weigh(q, id, db[id]) + Sum(q, db - {id})
    decreases |db|
  {
    var picked := Pick(db);
    if picked != id {
      assert (db - {picked}).Keys == db.Keys - {picked} && (db - {id}).Keys == db.Keys - {id};
      SumSplit(q, db - {picked}, id);
      SumSplit(q, db - {id}, picked);
      assert db - {picked} - {id} == db - {id} - {picked};
    }
  }

  /** The weight of the row now stored under `id`, if any. */
  function WeightAt(q: Quantity, db: DB, id: RowId): int {
    if id in db then Weigh(q, id, db[id]) else 0
  }

  /** Writing one row changes the total by the change of that row's weight. */
  lemma SumWrite(q: Quantity, db: DB, id: RowId, row: Row)
    ensures Sum(q, db[id := row]) == Sum(q, db) - WeightAt(q, db, id) + Weigh(q, id, row)
  {
    SumSplit(q, db[id := row], id);
    if id in db {
      SumSplit(q, db, id);
      assert db[id := row] - {id} == db - {id};
    } else {
      assert db[id := row] - {id} == db;
    }
  }

  /** The total of the rows listed in `ids`. */
  function Listed(q: Quantity, db: DB, ids: seq<RowId>): int {
    if ids == [] then 0 else WeightAt(q, db, ids[0]) + Listed(q, db, ids[1..])
  }

  ghost predicate Distinct(ids: seq<RowId>) {
    forall i, j | 0 <= i < j < |ids| :: ids[i] != ids[j]
  }

  lemma {:induction false} SumOfNothing(q: Quantity, db: DB)
    requires forall id | id in db :: Weigh(q, id, db[id]) == 0
    ensures Sum(q, db) == 0
    decreases |db|
  {
    if db != map[] {
      var id := Pick(db);
      assert (db - {id}).Keys == db.Keys - {id};
      SumOfNothing(q, db - {id});
    }
  }

  /** Rows listed once each carry the whole total when every other row weighs nothing. */
  lemma {:induction false} SumOfListed(q: Quantity, db: DB, ids: seq<RowId>)
    requires Distinct(ids) && forall i | 0 <= i < |ids| :: ids[i] in db
    requires forall id | id in db && id !in ids :: Weigh(q, id, db[id]) == 0
    ensures Sum(q, db) == Listed(q, db, ids)
  {
    if ids == [] {
      SumOfNothing(q, db);
    } else {
      var rest := db - {ids[0]};
      SumSplit(q, db, ids[0]);
      assert forall i | 0 <= i < |ids[1..]| :: ids[1..][i] == ids[i + 1];
      SumOfListed(q, rest, ids[1..]);
      ListedElsewhere(q, db, rest, ids[1..]);
    }
  }

  lemma {:induction false} ListedElsewhere(q: Quantity, db: DB, db': DB, ids: seq<RowId>)
    requires forall i | 0 <= i < |ids| :: Find(db, ids[i]) == Find(db', ids[i])
    ensures Listed(q, db, ids) == Listed(q, db', ids)
  {
    if ids != [] {
      assert Find(db, ids[0]) == Find(db', ids[0]);
      ListedElsewhere(q, db, db', ids[1..]);
    }
  }

  /** Tables whose rows weigh the same have the same total. */
  lemma {:induction false} SumByWeights(q: Quantity, db: DB, db': DB)
    requires forall id :: WeightAt(q, db, id) == WeightAt(q, db', id)
    ensures Sum(q, db) == Sum(q, db')
    decreases |db|
  {
    if db == map[] {
      forall id | id in db' ensures Weigh(q, id, db'[id]) == 0 {
        assert WeightAt(q, db, id) == WeightAt(q, db', id);
      }
      SumOfNothing(q, db');
    } else {
      var id := Pick(db);
      assert (db - {id}).Keys == db.Keys - {id};
      assert WeightAt(q, db, id) == WeightAt(q, db', id);
      forall other ensures WeightAt(q, db - {id}, other) == WeightAt(q, db' - {id}, other) {
        assert WeightAt(q, db, other) == WeightAt(q, db', other);
      }
      SumByWeights(q, db - {id}, db' - {id});
      SumWithout(q, db, id);
      SumWithout(q, db', id);
    }
  }

  lemma SumWithout(q: Quantity, db: DB, id: RowId)
    ensures Sum(q, db) == WeightAt(q, db, id) + Sum(q, db - {id})
  {
    if id in db {
      SumSplit(q, db, id);
    } else {
      assert db - {id} == db;
    }
  }

  /** The total of a quantity that only one row can carry is that row's weight. */
  lemma SumOfOne(q: Quantity, id: RowId, db: DB)
    requires forall other | other in db && other != id :: Weigh(q, other, db[other]) == 0
    ensures Sum(q, db) == WeightAt(q, db, id)
  {
    if id in db {
      SumOfListed(q, db, [id]);
    } else {
      SumOfNothing(q, db);
    }
  }

  // ----- laws -----

  /** What one row contributes to the law. */
  function LawWeight(law: Law, id: RowId, row: Row): int {
    match law
    case Conservation(base) => Weigh(Money, id, row) - Weigh(Created(base), id, row)
    case ClearingLedger => Weigh(BalanceOf(ClearingAccount), id, row) - Weigh(ClearingDebits, id, row)
    case FeeLedger(base) =>
      Weigh(BalanceOf(FeeAccount), id, row) - Weigh(FeeCredits, id, row) - Weigh(PaidFees(base), id, row)
    case CardSpend(card) => Weigh(BalanceOf(CardOf(card)), id, row) - Weigh(CardPayments(card), id, row)
    case WalletStatement(wallet) =>
      Weigh(BalanceOf(WalletOf(wallet)), id, row) - Weigh(StatementFlow(wallet), id, row)
    case ChargeDebits(charge) => Weigh(LegTotal(charge, Debit), id, row) - Weigh(Owed(charge, Debit), id, row)
    case ChargeCredits(charge) => Weigh(LegTotal(charge, Credit), id, row) - Weigh(Owed(charge, Credit), id, row)
  }

  ghost function Total(law: Law, db: DB): int {
    match law
    case Conservation(base) => Sum(Money, db) - Sum(Created(base), db)
    case ClearingLedger => Sum(BalanceOf(ClearingAccount), db) - Sum(ClearingDebits, db)
    case FeeLedger(base) => Sum(BalanceOf(FeeAccount), db) - Sum(FeeCredits, db) - Sum(PaidFees(base), db)
    case CardSpend(card) => Sum(BalanceOf(CardOf(card)), db) - Sum(CardPayments(card), db)
    case WalletStatement(wallet) => Sum(BalanceOf(WalletOf(wallet)), db) - Sum(StatementFlow(wallet), db)
    case ChargeDebits(charge) => Sum(LegTotal(charge, Debit), db) - Sum(Owed(charge, Debit), db)
    case ChargeCredits(charge) => Sum(LegTotal(charge, Credit), db) - Sum(Owed(charge, Credit), db)
  }

  /** Writing one row changes a law's total by the change of that row's weight. */
  lemma TotalWrite(law: Law, db: DB, id: RowId, row: Row)
    ensures Total(law, db[id := row]) ==
      Total(law, db) - (if id in db then LawWeight(law, id, db[id]) else 0) + LawWeight(law, id, row)
  {
    forall q: Quantity
      ensures Sum(q, db[id := row]) == Sum(q, db) - WeightAt(q, db, id) + Weigh(q, id, row)
    {
      SumWrite(q, db, id, row);
    }
  }
}
