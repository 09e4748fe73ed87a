/** The wallet statement: the row filter of GetTransactions and the totals of the PDF export. */
module Statements {
  import opened Money
  import opened Tables
  import opened Interleaving
  import opened Sums
  import opened Laws
  import opened Records
  import opened Guarantees
  import opened Repositories

  /** A transaction as the query returns it: converted_amount falls back to the amount. */
  datatype Transaction = Transaction(id: Id, from: Option<int>, to: Option<int>, amount: int, converted: int,
                                     card: Option<Id>)

  function AsTransaction(id: Id, row: Row): Transaction
    requires row.TxRec?
  {
    Transaction(id, row.from, row.to, row.amount,
                if row.converted.Some? then row.converted.value else row.amount, row.card)
  }

  function Keys(ts: seq<Transaction>): (ids: seq<RowId>)
    ensures |ids| == |ts| && forall i | 0 <= i < |ts| :: ids[i] == TxOf(ts[i].id)
  {
    if ts == [] then [] else [TxOf(ts[0].id)] + Keys(ts[1..])
  }

  /** Transaction tx is a statement row of the wallet, as stored. */
  ghost predicate IsStatementRow(tx: Transaction, wallet: int, db: DB) {
    TxOf(tx.id) in db && OnStatement(wallet, db[TxOf(tx.id)]) && tx == AsTransaction(tx.id, db[TxOf(tx.id)])
  }

  /** `ts` is the wallet's statement: its COMPLETED rows, each once, in some order. */
  ghost predicate IsStatement(ts: seq<Transaction>, wallet: int, db: DB) {
    && Distinct(Keys(ts))
    && (forall i | 0 <= i < |ts| :: IsStatementRow(ts[i], wallet, db))
    && (forall t | TxOf(t) in db && OnStatement(wallet, db[TxOf(t)]) :: TxOf(t) in Keys(ts))
  }

  /** GetTransactions for one wallet, without its date bounds. */
  method GetTransactions(pool: Database, wallet: int) returns (ts: seq<Transaction>)
    ensures IsStatement(ts, wallet, pool.rows)
  {
    ts := [];
    var todo := pool.rows.Keys;
    while todo != {}
      invariant todo <= pool.rows.Keys
      invariant Distinct(Keys(ts))
      invariant forall i | 0 <= i < |ts| :: IsStatementRow(ts[i], wallet, pool.rows) && TxOf(ts[i].id) !in todo
      invariant forall t | TxOf(t) in pool.rows && OnStatement(wallet, pool.rows[TxOf(t)]) ::
        TxOf(t) in todo || TxOf(t) in Keys(ts)
      decreases todo
    {
      var id :| id in todo;
      todo := todo - {id};
      if id.TxOf? && OnStatement(wallet, pool.rows[id]) {
        ghost var before := ts;
        ts := ts + [AsTransaction(id.id, pool.rows[id])];
        assert Keys(ts) == Keys(before) + [id];
      }
    }
  }

  predicate IsOutflow(tx: Transaction, wallet: int) {
    tx.from == Some(wallet) || tx.card.Some?
  }

  function Inflow(ts: seq<Transaction>, wallet: int): int {
    if ts == [] then 0
    else
      var n := |ts| - 1;
      Inflow(ts[..n], wallet) + if IsOutflow(ts[n], wallet) then 0 else ts[n].converted
  }

  function Outflow(ts: seq<Transaction>, wallet: int): int {
    if ts == [] then 0
    else
      var n := |ts| - 1;
      Outflow(ts[..n], wallet) + if IsOutflow(ts[n], wallet) then ts[n].amount else 0
  }

  /** Adding to a wrapped total and wrapping again is wrapping the true total. */
  lemma WrapOfSum(x: int, y: int)
    ensures Wrap64(Wrap64(x) + y) == Wrap64(x + y)
  {
    var q := (x - INT64_MIN) / TWO_64;
    assert Wrap64(x) == x - q * TWO_64;
    WrapShift(x + y, q);
  }

  lemma WrapOnce(x: int)
    ensures Wrap64(x - TWO_64) == Wrap64(x)
  {
  }

  lemma {:induction false} WrapShift(x: int, q: int)
    ensures Wrap64(x - q * TWO_64) == Wrap64(x)
    decreases if q >= 0 then q else -q
  {
    if q > 0 {
      WrapShift(x - TWO_64, q - 1);
      WrapOnce(x);
      assert x - TWO_64 - (q - 1) * TWO_64 == x - q * TWO_64;
    } else if q < 0 {
      WrapShift(x + TWO_64, q + 1);
      WrapOnce(x + TWO_64);
      assert x + TWO_64 - (q + 1) * TWO_64 == x - q * TWO_64;
    }
  }

  /** The totals of TransactionsToPDF, in int64. */
  method StatementTotals(transactions: seq<Transaction>, wallet: int) returns (totalInflow: int, totalOutflow: int)
    ensures totalInflow == Wrap64(Inflow(transactions, wallet))
    ensures totalOutflow == Wrap64(Outflow(transactions, wallet))
  {
    totalInflow, totalOutflow := 0, 0;
    for i := 0 to |transactions|
      invariant totalInflow == Wrap64(Inflow(transactions[..i], wallet))
      invariant totalOutflow == Wrap64(Outflow(transactions[..i], wallet))
    {
      var tx := transactions[i];
      assert transactions[..i + 1][..i] == transactions[..i];
      var isOutflow := tx.from == Some(wallet) || tx.card.Some?;
      if isOutflow {
        WrapOfSum(Outflow(transactions[..i], wallet), tx.amount);
        totalOutflow := Wrap64(totalOutflow + tx.amount);
      } else {
        WrapOfSum(Inflow(transactions[..i], wallet), tx.converted);
        totalInflow := Wrap64(totalInflow + tx.converted);
      }
    }
    assert transactions[..|transactions|] == transactions;
  }

  // ----- the statement agrees with the balance -----

  /** Inflow less outflow of a statement is the total flow of its rows. */
  lemma {:induction false} TotalsAreListed(ts: seq<Transaction>, wallet: int, db: DB)
    requires forall i | 0 <= i < |ts| :: IsStatementRow(ts[i], wallet, db)
    ensures Inflow(ts, wallet) - Outflow(ts, wallet) == Listed(StatementFlow(wallet), db, Keys(ts))
  {
    if ts != [] {
      var n := |ts| - 1;
      TotalsAreListed(ts[..n], wallet, db);
      RowFlow(ts[n], wallet, db);
      KeysSplit(ts);
      ListedAppend(StatementFlow(wallet), db, Keys(ts[..n]), TxOf(ts[n].id));
    }
  }

  lemma {:induction false} KeysSplit(ts: seq<Transaction>)
    requires ts != []
    ensures Keys(ts) == Keys(ts[..|ts| - 1]) + [TxOf(ts[|ts| - 1].id)]
  {
    var split := Keys(ts[..|ts| - 1]) + [TxOf(ts[|ts| - 1].id)];
    assert |split| == |Keys(ts)| && forall i | 0 <= i < |split| :: split[i] == Keys(ts)[i];
  }

  lemma RowFlow(tx: Transaction, wallet: int, db: DB)
    requires IsStatementRow(tx, wallet, db)
    ensures WeightAt(StatementFlow(wallet), db, TxOf(tx.id))
      == if IsOutflow(tx, wallet) then -tx.amount else tx.converted
  {
  }

  lemma {:induction false} ListedAppend(q: Quantity, db: DB, ids: seq<RowId>, id: RowId)
    ensures Listed(q, db, ids + [id]) == Listed(q, db, ids) + WeightAt(q, db, id)
  {
    if ids != [] {
      assert (ids + [id])[1..] == ids[1..] + [id];
      ListedAppend(q, db, ids[1..], id);
    }
  }

  /** Rows that are not listed on the statement have no flow. */
  lemma UnlistedHasNoFlow(ts: seq<Transaction>, wallet: int, db: DB, id: RowId)
    requires WellFormed(db) && IsStatement(ts, wallet, db) && id in db && id !in Keys(ts)
    ensures Weigh(StatementFlow(wallet), id, db[id]) == 0
  {
    assert RowOk(id, db[id]);
  }

  lemma ListedRowsAreStored(ts: seq<Transaction>, wallet: int, db: DB)
    requires IsStatement(ts, wallet, db)
    ensures forall i | 0 <= i < |Keys(ts)| :: Keys(ts)[i] in db
  {
    forall i | 0 <= i < |Keys(ts)| ensures Keys(ts)[i] in db {
      assert IsStatementRow(ts[i], wallet, db);
    }
  }

  /** The totals of any listing of the statement are the sum over the table: each row counts exactly once. */
  lemma {:induction false} TotalsAreTableSum(ts: seq<Transaction>, wallet: int, db: DB)
    requires WellFormed(db) && IsStatement(ts, wallet, db)
    ensures Inflow(ts, wallet) - Outflow(ts, wallet) == Sum(StatementFlow(wallet), db)
  {
    TotalsAreListed(ts, wallet, db);
    ListedRowsAreStored(ts, wallet, db);
    forall id | id in db && id !in Keys(ts) ensures Weigh(StatementFlow(wallet), id, db[id]) == 0 {
      UnlistedHasNoFlow(ts, wallet, db, id);
    }
    SumOfListed(StatementFlow(wallet), db, Keys(ts));
  }

  /** In every reachable state, for a wallet that settles for no merchant: the statement's inflow less its
      outflow is the current balance less the opening balance, and no card payment is misfiled. */
  lemma {:induction false} StatementIsRight(base: DB, trace: seq<Step>, wallet: int, ts: seq<Transaction>)
    requires Fresh(base) && Behaves(Opening(base), trace) && !IsSettlementWallet(base, wallet)
    requires WalletOf(wallet) in After(Opening(base), trace).committed
    requires IsStatement(ts, wallet, After(Opening(base), trace).committed)
    ensures var db := After(Opening(base), trace).committed;
      db[WalletOf(wallet)].Wallet?
      && Inflow(ts, wallet) - Outflow(ts, wallet)
         == db[WalletOf(wallet)].balance - WeightAt(BalanceOf(WalletOf(wallet)), base, WalletOf(wallet))
    ensures IsInt64(Inflow(ts, wallet) - Outflow(ts, wallet))
    ensures forall i | 0 <= i < |ts| :: IsOutflow(ts[i], wallet) <==> ts[i].from == Some(wallet)
  {
    var db := After(Opening(base), trace).committed;
    ReachableIsReplay(base, trace);
    StatementAgreesWithBalance(base, trace, wallet);
    TotalsAreTableSum(ts, wallet, db);
    BalanceIsInt64(base, wallet);
    BalanceIsInt64(db, wallet);
    forall i | 0 <= i < |ts| ensures IsOutflow(ts[i], wallet) <==> ts[i].from == Some(wallet) {
      assert IsStatementRow(ts[i], wallet, db) && ActivityOk(db[TxOf(ts[i].id)]);
    }
  }

  lemma BalanceIsInt64(db: DB, wallet: int)
    requires WellFormed(db)
    ensures 0 <= WeightAt(BalanceOf(WalletOf(wallet)), db, WalletOf(wallet)) <= INT64_MAX
  {
    if WalletOf(wallet) in db {
      assert RowOk(WalletOf(wallet), db[WalletOf(wallet)]);
    }
  }

  /** The printed int64 totals differ by the true difference, even when both have wrapped. */
  lemma {:induction false} PrintedTotalsDifferRight(ts: seq<Transaction>, wallet: int, inflow: int, outflow: int)
    requires inflow == Wrap64(Inflow(ts, wallet)) && outflow == Wrap64(Outflow(ts, wallet))
    requires IsInt64(Inflow(ts, wallet) - Outflow(ts, wallet))
    ensures Wrap64(inflow - outflow) == Inflow(ts, wallet) - Outflow(ts, wallet)
  {
    WrapOfDifference(Inflow(ts, wallet), Outflow(ts, wallet));
  }

  lemma WrapOfDifference(x: int, y: int)
    ensures Wrap64(Wrap64(x) - Wrap64(y)) == Wrap64(x - y)
  {
    var p, q := (x - INT64_MIN) / TWO_64, (y - INT64_MIN) / TWO_64;
    assert Wrap64(x) == x - p * TWO_64 && Wrap64(y) == y - q * TWO_64;
    WrapShift(x - y, p - q);
    assert x - y - (p - q) * TWO_64 == Wrap64(x) - Wrap64(y);
  }
}
