/** The transfer service: the rate table, the currency pre-read and the rounded conversion. */
module Transfers {
  import opened Tables
  import opened Programs
  import opened Specs
  import opened History
  import opened Interleaving
  import opened Guarantees
  import Outcomes
  import opened Repositories

  /** The rate table of the exchange service; equal currencies convert at 1. */
  function GetRate(from: string, to: string): Option<real> {
    if from == to then Some(1.0)
    else if from == "TRY" && to == "USD" then Some(0.021)
    else if from == "USD" && to == "TRY" then Some(47.06)
    else if from == "USD" && to == "EUR" then Some(0.93)
    else if from == "EUR" && to == "USD" then Some(1.07)
    else if from == "EUR" && to == "TRY" then Some(54.46)
    else if from == "TRY" && to == "EUR" then Some(0.019)
    else None
  }

  predicate IsTraded(currency: string) {
    currency == "TRY" || currency == "USD" || currency == "EUR"
  }

  /** Between the three currencies every rate exists and is positive; for any other there is only the rate of a
      currency to itself, which is 1. */
  lemma RatesThereAre(a: string, b: string)
    ensures GetRate(a, b).Some? <==> a == b || (IsTraded(a) && IsTraded(b))
    ensures GetRate(a, b).Some? ==> GetRate(a, b).value > 0.0
    ensures a == b ==> GetRate(a, b) == Some(1.0)
  {
  }

  /** The table is consistent: going through a third currency, or there and back, is within a tenth of going
      straight. */
  lemma RatesAreConsistent(a: string, b: string, c: string)
    requires GetRate(a, b).Some? && GetRate(b, c).Some?
    ensures GetRate(a, c).Some?
    ensures var direct, through := GetRate(a, c).value, GetRate(a, b).value * GetRate(b, c).value;
      0.9 * direct <= through <= 1.1 * direct
  {
  }

  /** Lira are worth the least and euro the most, so no rate is inverted: a dollar buys more than one lira, and
      a euro more than one dollar. */
  lemma RatesHaveTheirDirection()
    ensures GetRate("TRY", "USD").value < 1.0 < GetRate("USD", "TRY").value
    ensures GetRate("TRY", "EUR").value < 1.0 < GetRate("EUR", "TRY").value
    ensures GetRate("USD", "EUR").value < 1.0 < GetRate("EUR", "USD").value
  {
  }

  /** math.Round: to the nearest integer, halves away from zero. */
  function Round(x: real): int {
    if x >= 0.0 then (x + 0.5).Floor else -((-x + 0.5).Floor)
  }

  function Convert(amount: int, rate: real): int {
    Round(amount as real * rate)
  }

  /** Each conversion is within half a minor unit of exact, keeps the sign, and is exact at rate 1. */
  lemma ConversionIsWithinHalf(amount: int, rate: real)
    requires rate > 0.0
    ensures -0.5 <= Convert(amount, rate) as real - amount as real * rate <= 0.5
    ensures amount >= 0 ==> Convert(amount, rate) >= 0
    ensures rate == 1.0 ==> Convert(amount, rate) == amount
  {
    var exact := amount as real * rate;
    if amount >= 0 {
      ProductSign(amount as real, rate);
    } else {
      ProductSign(-amount as real, rate);
      assert -amount as real * rate == -exact;
    }
  }

  /** A conversion that falls on a half goes away from zero. */
  lemma HalfGoesAwayFromZero(amount: int, rate: real, whole: nat)
    requires rate > 0.0
    ensures amount as real * rate == whole as real + 0.5 ==> Convert(amount, rate) == whole + 1
    ensures amount as real * rate == -(whole as real) - 0.5 ==> Convert(amount, rate) == -(whole as int) - 1
  {
  }

  lemma ProductSign(x: real, y: real)
    requires x >= 0.0 && y > 0.0
    ensures x * y >= 0.0
  {
  }

  /** Sending more never delivers less. */
  lemma ConversionIsMonotone(a: int, b: int, rate: real)
    requires a <= b && rate > 0.0
    ensures Convert(a, rate) <= Convert(b, rate)
  {
    ProductSign((b - a) as real, rate);
    assert (b - a) as real * rate == b as real * rate - a as real * rate;
  }

  datatype ServiceError = MissingKey | WalletUnknown | RateUnknown | FromRepository(error: Error)

  /** The conversion between two wallets' currencies, if both have rows and a rate exists. */
  function ConvertedBetween(db: DB, from: int, to: int, amount: int): Option<int> {
    if WalletOf(from) in db && db[WalletOf(from)].Wallet? && WalletOf(to) in db && db[WalletOf(to)].Wallet? then
      match GetRate(db[WalletOf(from)].currency, db[WalletOf(to)].currency)
      case None => None
      case Some(rate) => Some(Convert(amount, rate))
    else None
  }

  function TransferServiceSpec(db: DB, key: Option<Id>, from: int, to: int, amount: int): (DB, Option<ServiceError>) {
    if key.None? then (db, Some(MissingKey))
    else if !Live(db, from) || !Live(db, to) then (db, Some(WalletUnknown))
    else
      match ConvertedBetween(db, from, to, amount)
      case None => (db, Some(RateUnknown))
      case Some(converted) =>
        match TransferSpec(Op.Transfer(key.value, from, to, amount, converted), db)
        case Refused(e) => (db, Some(FromRepository(e)))
        case Committed(db') => (db', None)
  }

  /** What a refused transfer says: what is wrong with it, and nothing that the code checks earlier. */
  lemma TransferRefusalIsTrue(db: DB, key: Option<Id>, from: int, to: int, amount: int)
    requires WellFormed(db)
    ensures var err := TransferServiceSpec(db, key, from, to, amount).1;
      && (err == Some(MissingKey) <==> key.None?)
      && (err == Some(WalletUnknown) <==> key.Some? && !(Live(db, from) && Live(db, to)))
      && (err == Some(RateUnknown) <==>
            key.Some? && Live(db, from) && Live(db, to)
            && GetRate(db[WalletOf(from)].currency, db[WalletOf(to)].currency).None?)
      && forall e :: err == Some(FromRepository(e)) ==>
           ConvertedBetween(db, from, to, amount).Some?
           && var converted := ConvertedBetween(db, from, to, amount).value;
           Outcomes.TransferIsWrong(Op.Transfer(key.value, from, to, amount, converted), db, e)
  {
    if key.Some? && ConvertedBetween(db, from, to, amount).Some? {
      var op := Op.Transfer(key.value, from, to, amount, ConvertedBetween(db, from, to, amount).value);
      forall e ensures Spec(op, db) == Refused(e) <==> Outcomes.TransferIsWrong(op, db, e) {
        Outcomes.TransferRefusedIff(op, db, e);
      }
    }
  }

  /** Exactly when a transfer succeeds, and what a caller then finds: the amount off the sender's wallet, the
      conversion on the receiver's, and every other wallet as it was. */
  lemma TransferSucceedsIff(db: DB, key: Option<Id>, from: int, to: int, amount: int)
    requires WellFormed(db)
    ensures TransferServiceSpec(db, key, from, to, amount).1.None? <==> CanTransfer(db, key, from, to, amount)
    ensures CanTransfer(db, key, from, to, amount) ==>
      var after := TransferServiceSpec(db, key, from, to, amount).0;
      && BalanceIn(after, from) == BalanceIn(db, from) - amount
      && BalanceIn(after, to) == BalanceIn(db, to) + ConvertedBetween(db, from, to, amount).value
      && (forall n | n != from && n != to :: Find(after, WalletOf(n)) == Find(db, WalletOf(n)))
      && KeyOf(key.value) in after && TxOf(key.value) in after
    ensures !CanTransfer(db, key, from, to, amount) ==> TransferServiceSpec(db, key, from, to, amount).0 == db
  {
    if Live(db, from) {
      assert RowOk(WalletOf(from), db[WalletOf(from)]);
    }
  }

  /** A key not used before, two different live wallets with a rate between them, a positive amount that the
      sender has, and room for the conversion. */
  predicate CanTransfer(db: DB, key: Option<Id>, from: int, to: int, amount: int) {
    && key.Some? && KeyOf(key.value) !in db && TxOf(key.value) !in db
    && from != to && Live(db, from) && Live(db, to)
    && 0 < amount <= BalanceIn(db, from)
    && var converted := ConvertedBetween(db, from, to, amount);
    && converted.Some? && Fits(BalanceIn(db, to) + converted.value)
  }

  function BalanceIn(db: DB, wallet: int): int {
    if WalletOf(wallet) in db && db[WalletOf(wallet)].Wallet? then db[WalletOf(wallet)].balance else 0
  }

  /** What a committed transfer sends to the webhook queue. */
  datatype TransactionWebhookEvent = TransactionWebhookEvent(key: Id, from: int, to: int, amount: int)

  /** What it tells the receiver: how much of their currency has come. */
  datatype MoneyReceived = MoneyReceived(user: Id, amount: int, currency: string)

  class TransactionService {
    const repo: TransactionRepository
    /** Whether there is a notification service. */
    const notifies: bool
    var webHookQueue: seq<TransactionWebhookEvent>
    var notifications: seq<MoneyReceived>

    constructor (repo: TransactionRepository, notifies: bool)
      ensures this.repo == repo && this.notifies == notifies && webHookQueue == [] && notifications == []
    {
      this.repo, this.notifies, webHookQueue, notifications := repo, notifies, [], [];
    }

    /** Exactly the transfers that commit are put in the webhook queue and told to the receiver, once each. */
    method Transfer(key: Option<Id>, from: int, to: int, amount: int) returns (err: Option<ServiceError>)
      requires WellFormed(repo.pool.rows)
      modifies repo.pool`rows, this
      ensures (repo.pool.rows, err) == TransferServiceSpec(old(repo.pool.rows), key, from, to, amount)
      ensures err.Some? ==> webHookQueue == old(webHookQueue) && notifications == old(notifications)
      ensures err.None? ==> CanTransfer(old(repo.pool.rows), key, from, to, amount)
      ensures err.None? ==>
        webHookQueue == old(webHookQueue) + [TransactionWebhookEvent(key.value, from, to, amount)]
      ensures err.None? ==>
        var receiver := old(repo.pool.rows)[WalletOf(to)];
        var converted := ConvertedBetween(old(repo.pool.rows), from, to, amount).value;
        notifications == old(notifications)
          + if notifies then [MoneyReceived(receiver.user, converted, receiver.currency)] else []
    {
      ghost var before := repo.pool.rows;
      if key.None? {
        return Some(MissingKey);
      }
      var sender := Find(repo.pool.rows, WalletOf(from));
      if !IsLiveWallet(sender) {
        return Some(WalletUnknown);
      }
      var receiver := Find(repo.pool.rows, WalletOf(to));
      if !IsLiveWallet(receiver) {
        return Some(WalletUnknown);
      }
      var rate := GetRate(sender.value.currency, receiver.value.currency);
      if rate.None? {
        return Some(RateUnknown);
      }
      var convertedAmount := Convert(amount, rate.value);
      var failure := repo.Transfer(key.value, from, to, amount, convertedAmount);
      if failure.Some? {
        return Some(FromRepository(failure.value));
      }
      TransferSucceedsIff(before, key, from, to, amount);
      webHookQueue := webHookQueue + [TransactionWebhookEvent(key.value, from, to, amount)];
      if notifies {
        notifications := notifications + [MoneyReceived(receiver.value.user, convertedAmount, receiver.value.currency)];
      }
      return None;
    }
  }

  /** The conversion pre-read outside the transaction is the one for the wallets' currencies in every
      later state, however many transactions commit in between. */
  lemma PreReadConversionStaysRight(db: DB, later: DB, from: int, to: int, amount: int)
    requires Grows(db, later) && ConvertedBetween(db, from, to, amount).Some?
    ensures ConvertedBetween(later, from, to, amount) == ConvertedBetween(db, from, to, amount)
  {
    assert SameIdentity(db[WalletOf(from)], later[WalletOf(from)]);
    assert SameIdentity(db[WalletOf(to)], later[WalletOf(to)]);
  }

  /** A transfer issued with a conversion read in some reachable state credits, when it commits in a later
      one, that conversion for the currencies of the two wallets at that moment. */
  lemma CommittedConversionIsCurrent(base: DB, early: seq<Step>, late: seq<Step>, t: nat, op: Op)
    requires Fresh(base) && Behaves(Opening(base), early + late)
    requires Behaves(Opening(base), early)
    requires var s := After(Opening(base), early + late);
      IsRunning(s, t) && s.threads[t].op == op && Enabled(s, Commit(t))
    requires op.Transfer?
    requires ConvertedBetween(After(Opening(base), early).committed, op.from, op.to, op.amount) == Some(op.converted)
    ensures var s := After(Opening(base), early + late);
      && ConvertedBetween(s.committed, op.from, op.to, op.amount) == Some(op.converted)
      && Spec(op, s.committed) == Committed(Apply(s, Commit(t)).committed)
  {
    var s0, s := After(Opening(base), early), After(Opening(base), early + late);
    OpeningHoldsInv(base);
    BehaviourKeepsInv(base, Opening(base), early);
    Continues(Opening(base), early, late);
    BehaviourKeepsInv(base, s0, late);
    BehaviourGrows(base, s0, late);
    PreReadConversionStaysRight(s0.committed, s.committed, op.from, op.to, op.amount);
    CommitIsSpec(base, s, t);
  }

  lemma {:induction false} Continues(s: Sys, early: seq<Step>, late: seq<Step>)
    requires Behaves(s, early + late) && Behaves(s, early)
    ensures Behaves(After(s, early), late) && After(s, early + late) == After(After(s, early), late)
    decreases |early|
  {
    if early == [] {
      assert early + late == late;
    } else {
      assert (early + late)[0] == early[0] && (early + late)[1..] == early[1..] + late;
      Continues(Apply(s, early[0]), early[1..], late);
    }
  }

  /** Committed rows keep their identity along any behaviour. */
  lemma {:induction false} BehaviourGrows(base: DB, s: Sys, trace: seq<Step>)
    requires Inv(base, s) && Behaves(s, trace)
    ensures Grows(s.committed, After(s, trace).committed)
    decreases |trace|
  {
    if trace == [] {
      forall id | id in s.committed ensures SameIdentity(s.committed[id], s.committed[id]) {}
    } else {
      var s' := Apply(s, trace[0]);
      StepKeepsInv(base, s, trace[0]);
      BehaviourGrows(base, s', trace[1..]);
      if trace[0].Commit? {
        CommitIsSpec(base, s, trace[0].thread);
        CommitKeepsRows(s.threads[trace[0].thread].op, s.committed);
      } else {
        forall id | id in s.committed ensures SameIdentity(s.committed[id], s'.committed[id]) {}
      }
      GrowsTransitively(s.committed, s'.committed, After(s, trace).committed);
    }
  }
}
