/**
 ProcessCharge: idempotent replay, the decline path, the fee split and the settlement; and
 what a merchant may rely on over any sequence of charge calls that do not overlap.
 */
module Charging {
  import opened Money
  import opened Tables
  import opened Programs
  import opened Specs
  import opened History
  import opened Outcomes
  import opened Repositories

  /** The card validator's verdict on the card in the request. */
  datatype CardCheck = Accepted | Declined(reason: string)

  /** One call: the authenticated merchant, the Idempotency-Key header, the request's hash, amount and
      card verdict, the fresh identifiers drawn, and whether its cache read and write succeed. */
  datatype Call = Call(merchant: Id, settlement: int, bps: int, key: string, hash: int, amount: int,
                       check: CardCheck, chargeId: Id, failedId: Id, readOk: bool, saveOk: bool)

  datatype Answer = Answered(reply: ChargeReply, status: int) | InternalError

  datatype State = State(db: DB, cache: Cache)

  function SettleOp(c: Call): Op {
    var fee := Fee(c.amount, c.bps);
    var net := Net(c.amount, fee);
    Settle(c.chargeId, c.merchant, c.amount, fee, net, Legs(c.amount, fee, net), c.settlement)
  }

  function DeclinedAnswer(reason: string): Answer {
    Answered(ChargeReply(false, None, reason), if reason == "Insufficient funds" then 402 else 400)
  }

  function SucceededAnswer(c: Call): Answer {
    Answered(ChargeReply(true, Some(c.chargeId), ""), 200)
  }

  function Remembered(cache: Cache, c: Call, answer: Answer): Cache
    requires answer.Answered?
  {
    if c.key != "" && c.saveOk
    then Upserted(cache, c.merchant, c.key, Cached(c.hash, answer.status, answer.reply))
    else cache
  }

  function AfterVerdict(db: DB, verdict: Verdict): DB {
    match verdict
    case Committed(db') => db'
    case Refused(_) => db
  }

  /** The call is answered from the store. */
  predicate IsReplay(st: State, c: Call) {
    c.key != "" && c.readOk && (c.merchant, c.key) in st.cache
  }

  function StoredAnswer(st: State, c: Call): Answer
    requires IsReplay(st, c)
  {
    var cached := st.cache[(c.merchant, c.key)];
    Answered(cached.reply, cached.status)
  }

  /** What a call does between its lookup and its save: the tables it leaves, and its answer. */
  function Charged(db: DB, c: Call): (DB, Answer) {
    if c.check.Declined? then
      (AfterVerdict(db, Spec(FailedCharge(c.failedId, c.merchant, c.amount), db)), DeclinedAnswer(c.check.reason))
    else if ClearingAccount !in db || FeeAccount !in db then (db, InternalError)
    else
      match Spec(SettleOp(c), db)
      case Refused(_) => (db, InternalError)
      case Committed(db') => (db', SucceededAnswer(c))
  }

  /** Lookup, charge and save, with nothing in between. */
  function ChargeSpec(st: State, c: Call): (State, Answer) {
    if IsReplay(st, c) then (st, StoredAnswer(st, c))
    else
      var (db, answer) := Charged(st.db, c);
      (State(db, if answer.Answered? then Remembered(st.cache, c, answer) else st.cache), answer)
  }

  class ChargeService {
    const chargeRepo: ChargeRepository

    constructor (chargeRepo: ChargeRepository)
      ensures this.chargeRepo == chargeRepo
    {
      this.chargeRepo := chargeRepo;
    }

    method ProcessCharge(c: Call) returns (answer: Answer)
      requires WellFormed(chargeRepo.pool.rows)
      modifies chargeRepo.pool
      ensures (State(chargeRepo.pool.rows, chargeRepo.pool.chargeCache), answer)
        == ChargeSpec(State(old(chargeRepo.pool.rows), old(chargeRepo.pool.chargeCache)), c)
    {
      if c.key != "" && c.readOk {
        var record := chargeRepo.GetIdempotency(c.merchant, c.key);
        if record.Some? {
          return Answered(record.value.reply, record.value.status);
        }
      }

      if c.check.Declined? {
        var failed := ChargeReply(false, None, c.check.reason);
        var statusCode := 400;
        if c.check.reason == "Insufficient funds" {
          statusCode := 402;
        }
        var _ := chargeRepo.SaveFailedCharge(c.failedId, c.merchant, c.amount);
        if c.key != "" && c.saveOk {
          chargeRepo.SaveIdempotency(c.merchant, c.key, Cached(c.hash, statusCode, failed));
        }
        return Answered(failed, statusCode);
      }

      var feeAmount := Fee(c.amount, c.bps);
      var netAmount := Net(c.amount, feeAmount);
      if ClearingAccount !in chargeRepo.pool.rows || FeeAccount !in chargeRepo.pool.rows {
        return InternalError;
      }
      var ledgerEntries := [Entry(AcquiringClearing, Debit, c.amount), Entry(MerchantPayable, Credit, netAmount)];
      if feeAmount > 0 {
        ledgerEntries := ledgerEntries + [Entry(PlatformFeeRevenue, Credit, feeAmount)];
      }
      assert ledgerEntries == Legs(c.amount, feeAmount, netAmount);
      var err := chargeRepo.ProcessSettlement(c.chargeId, c.merchant, c.amount, feeAmount, netAmount,
                                              ledgerEntries, c.settlement);
      if err.Some? {
        return InternalError;
      }
      var success := ChargeReply(true, Some(c.chargeId), "");
      if c.key != "" && c.saveOk {
        chargeRepo.SaveIdempotency(c.merchant, c.key, Cached(c.hash, 200, success));
      }
      return Answered(success, 200);
    }
  }

  // ----- which accepted charges settle -----

  /** Both system accounts and the settlement wallet exist, the identifiers are new, the amount is a positive
      int64, and the three credits fit their columns. */
  ghost predicate RoomFor(db: DB, c: Call) {
    var fee := Fee(c.amount, c.bps);
    var net := Net(c.amount, fee);
    && ClearingAccount in db && FeeAccount in db && HasBalance(db, WalletOf(c.settlement))
    && ChargeOf(c.chargeId) !in db
    && (forall i: nat | i < |Legs(c.amount, fee, net)| :: LegOf(c.chargeId, i) !in db)
    && 0 < c.amount <= INT64_MAX
    && CreditOk(db, WalletOf(c.settlement), net) && CreditOk(db, ClearingAccount, c.amount)
    && CreditOk(db, FeeAccount, Positive(fee))
  }

  /** The legs of a charge pass the ledger's CHECK if and only if the net one does. */
  lemma LegsPassIffNetPositive(db: DB, c: Call)
    requires 0 < c.amount <= INT64_MAX
    requires var fee := Fee(c.amount, c.bps);
      forall i: nat | i < |Legs(c.amount, fee, Net(c.amount, fee))| :: LegOf(c.chargeId, i) !in db
    ensures LegsOk(db, c.chargeId, SettleOp(c).entries) <==> Net(c.amount, Fee(c.amount, c.bps)) > 0
  {
    FeeIsSmall(c.amount, c.bps);
    var entries := SettleOp(c).entries;
    assert entries[0] == Entry(AcquiringClearing, Debit, c.amount);
    assert entries[1] == Entry(MerchantPayable, Credit, SettleOp(c).net);
    assert |entries| == 3 ==> entries[2] == Entry(PlatformFeeRevenue, Credit, SettleOp(c).fee);
  }

  /** An accepted charge that is not a replay settles if and only if there is room for it and its net is
      positive; otherwise the call fails and changes nothing. */
  lemma SettlesIffNetPositive(st: State, c: Call)
    requires c.check.Accepted? && !IsReplay(st, c)
    ensures ChargeSpec(st, c).1 == SucceededAnswer(c)
      <==> RoomFor(st.db, c) && Net(c.amount, Fee(c.amount, c.bps)) > 0
    ensures ChargeSpec(st, c).1 == SucceededAnswer(c) || ChargeSpec(st, c) == (st, InternalError)
  {
    var op := SettleOp(c);
    if ChargeSpec(st, c).1 == SucceededAnswer(c) {
      assert LegsOk(st.db, op.charge, op.entries);
    }
    if 0 < c.amount <= INT64_MAX && forall i: nat | i < |op.entries| :: LegOf(c.chargeId, i) !in st.db {
      LegsPassIffNetPositive(st.db, c);
    }
  }

  /** Nothing but the store stands between this call and its settlement. */
  ghost predicate CanSettle(db: DB, c: Call) {
    c.check.Accepted? && RoomFor(db, c) && Net(c.amount, Fee(c.amount, c.bps)) > 0
  }

  /** What a merchant is told, on a call that is not answered from the store: success with status 200 and the
      charge's own id exactly when the charge could settle; a decline's own reason without an id, with 402
      exactly for insufficient funds and 400 otherwise; and an internal error in every other case. */
  lemma AnswerTellsWhatHappened(st: State, c: Call)
    requires !IsReplay(st, c)
    ensures var (after, answer) := ChargeSpec(st, c);
      && (answer.Answered? && answer.reply.success <==> CanSettle(st.db, c))
      && (answer.Answered? ==> (answer.status == 200 <==> answer.reply.success))
      && (answer.Answered? && answer.reply.success ==>
            answer.reply.transactionId == Some(c.chargeId) && answer.reply.failureReason == "")
      && (c.check.Declined? ==>
            answer.Answered? && answer.reply.transactionId.None? && answer.reply.failureReason == c.check.reason
            && answer.status == if c.check.reason == "Insufficient funds" then 402 else 400)
      && (answer.InternalError? <==> c.check.Accepted? && !CanSettle(st.db, c))
      && (answer.InternalError? ==> after == st)
  {
    if c.check.Accepted? {
      SettlesIffNetPositive(st, c);
    }
  }

  /** What a settled charge stores: its SUCCEEDED row with fee and net, the gross debit of clearing, the net
      credit of the merchant, and a fee credit exactly when there is a fee. */
  lemma SettledChargeIsBooked(st: State, c: Call)
    requires WellFormed(st.db) && !IsReplay(st, c) && CanSettle(st.db, c)
    ensures var after, fee, net := ChargeSpec(st, c).0.db, Fee(c.amount, c.bps), Net(c.amount, Fee(c.amount, c.bps));
      && Find(after, ChargeOf(c.chargeId)) == Some(Row.Charge(c.merchant, c.amount, fee, net, ChargeSucceeded))
      && Find(after, LegOf(c.chargeId, 0)) == Some(Leg(Entry(AcquiringClearing, Debit, c.amount)))
      && Find(after, LegOf(c.chargeId, 1)) == Some(Leg(Entry(MerchantPayable, Credit, net)))
      && (fee > 0 ==> Find(after, LegOf(c.chargeId, 2)) == Some(Leg(Entry(PlatformFeeRevenue, Credit, fee))))
  {
    var op := SettleOp(c);
    SettlesIffNetPositive(st, c);
    SettleRecords(op, st.db);
    assert op.entries[0] == Entry(AcquiringClearing, Debit, c.amount);
    assert op.entries[1] == Entry(MerchantPayable, Credit, op.net);
    assert op.fee > 0 ==> op.entries[2] == Entry(PlatformFeeRevenue, Credit, op.fee);
  }

  /** And the balances it moves: the merchant's by the net, clearing by the gross, fee revenue by the fee. */
  lemma SettledChargeMoves(st: State, c: Call, id: RowId)
    requires WellFormed(st.db) && !IsReplay(st, c) && CanSettle(st.db, c) && HasBalance(st.db, id)
    ensures var fee := Fee(c.amount, c.bps);
      BalanceIn(ChargeSpec(st, c).0.db, id) == BalanceIn(st.db, id)
        + (if id == WalletOf(c.settlement) then Net(c.amount, fee)
           else if id == ClearingAccount then c.amount
           else if id == FeeAccount && fee > 0 then fee
           else 0)
  {
    SettlesIffNetPositive(st, c);
    SettleMoves(SettleOp(c), st.db, id);
  }

  /** The first saved answer of a key is stored under its merchant and key with the request's hash, and no other
      entry changes. */
  lemma NewKeyIsRemembered(st: State, c: Call)
    requires c.key != "" && (c.merchant, c.key) !in st.cache
    ensures var (after, answer) := ChargeSpec(st, c);
      if answer.Answered? && c.saveOk
      then after.cache == st.cache[(c.merchant, c.key) := Cached(c.hash, answer.status, answer.reply)]
      else after.cache == st.cache
  {
  }

  /** What a decline leaves: a FAILED row with no fee and no net when its id is new and its amount valid, and
      no balance moved. */
  lemma DeclineIsRecorded(st: State, c: Call)
    requires WellFormed(st.db) && !IsReplay(st, c) && c.check.Declined?
    ensures var after := ChargeSpec(st, c).0.db;
      if ChargeOf(c.failedId) !in st.db && 0 < c.amount <= INT64_MAX
      then after == st.db[ChargeOf(c.failedId) := Row.Charge(c.merchant, c.amount, 0, 0, ChargeFailed)]
      else after == st.db
  {
  }

  /** A merchant at 100% is settled after all when the amount is large enough for its fee to wrap. */
  lemma FullRateSettlesWhenTheFeeWraps(st: State, c: Call)
    requires c.check.Accepted? && !IsReplay(st, c) && RoomFor(st.db, c)
    requires c.bps == 10000
    ensures ChargeSpec(st, c).1 == SucceededAnswer(c)
      <==> c.amount > NO_WRAP_MAX && c.amount - Fee(c.amount, c.bps) <= INT64_MAX
  {
    SettlesIffNetPositive(st, c);
    NothingLeftIff(c.amount, c.bps);
    FeeIsSmall(c.amount, c.bps);
  }

  // ----- sequences of calls, with other committed operations between them -----

  datatype Event = Request(call: Call) | Other(op: Op)

  function StateAfter(st: State, events: seq<Event>): State {
    if events == [] then st
    else
      var before := StateAfter(st, events[..|events| - 1]);
      match events[|events| - 1]
      case Request(c) => ChargeSpec(before, c).0
      case Other(op) => State(AfterVerdict(before.db, Spec(op, before.db)), before.cache)
  }

  /** The answer to the charge call at position i. */
  function AnswerAt(st: State, events: seq<Event>, i: nat): Answer
    requires i < |events| && events[i].Request?
  {
    ChargeSpec(StateAfter(st, events[..i]), events[i].call).1
  }

  predicate IsCallFor(e: Event, merchant: Id, key: string) {
    e.Request? && e.call.merchant == merchant && e.call.key == key
  }

  /** Call i of this merchant and key has been answered and its answer was saved. */
  predicate Saves(st: State, events: seq<Event>, i: nat, merchant: Id, key: string) {
    && i < |events| && IsCallFor(events[i], merchant, key)
    && events[i].call.saveOk && AnswerAt(st, events, i).Answered?
  }

  /** The store had an answer at the start, or a call before position j saved one. */
  ghost predicate SavedBefore(st: State, events: seq<Event>, j: nat, merchant: Id, key: string) {
    (merchant, key) in st.cache || exists i: nat :: i < j && Saves(st, events, i, merchant, key)
  }

  /** What the events before position n did, seen from any longer sequence. */
  lemma SavesInPrefix(st: State, events: seq<Event>, n: nat, i: nat, merchant: Id, key: string)
    requires i < n <= |events|
    ensures Saves(st, events[..n], i, merchant, key) <==> Saves(st, events, i, merchant, key)
  {
    assert events[..n][..i] == events[..i];
  }

  lemma SavedInPrefix(st: State, events: seq<Event>, n: nat, merchant: Id, key: string)
    requires n <= |events|
    ensures SavedBefore(st, events[..n], n, merchant, key) <==> SavedBefore(st, events, n, merchant, key)
  {
    forall i: nat | i < n
      ensures Saves(st, events[..n], i, merchant, key) <==> Saves(st, events, i, merchant, key)
    {
      SavesInPrefix(st, events, n, i, merchant, key);
    }
  }

  /** The store holds an answer exactly when it did at the start or some call saved one. */
  lemma {:induction false} StoredIffSaved(st: State, events: seq<Event>, merchant: Id, key: string)
    requires key != ""
    ensures (merchant, key) in StateAfter(st, events).cache <==> SavedBefore(st, events, |events|, merchant, key)
  {
    if events != [] {
      var n := |events| - 1;
      StoredIffSaved(st, events[..n], merchant, key);
      SavedInPrefix(st, events, n, merchant, key);
      LastCallStores(st, events, merchant, key);
      SavedByLast(st, events, merchant, key);
    }
  }

  lemma SavedByLast(st: State, events: seq<Event>, merchant: Id, key: string)
    requires events != []
    ensures SavedBefore(st, events, |events|, merchant, key)
      <==> SavedBefore(st, events, |events| - 1, merchant, key) || Saves(st, events, |events| - 1, merchant, key)
  {
  }

  lemma LastCallStores(st: State, events: seq<Event>, merchant: Id, key: string)
    requires events != [] && key != ""
    ensures (merchant, key) in StateAfter(st, events).cache
      <==> (merchant, key) in StateAfter(st, events[..|events| - 1]).cache
           || Saves(st, events, |events| - 1, merchant, key)
  {
  }

  /** A call is answered from the store if and only if its own read succeeds and an answer was saved before
      it; the saves and reads of all other calls do not matter. */
  lemma ReplaysIffSavedBefore(st: State, events: seq<Event>, j: nat)
    requires j < |events| && events[j].Request?
    ensures var c := events[j].call;
      IsReplay(StateAfter(st, events[..j]), c)
      <==> c.key != "" && c.readOk && SavedBefore(st, events, j, c.merchant, c.key)
  {
    var c := events[j].call;
    if c.key != "" {
      StoredIffSaved(st, events[..j], c.merchant, c.key);
      SavedInPrefix(st, events, j, c.merchant, c.key);
    }
  }

  /** A stored answer stays as it is as long as no later call of its key both misses it and saves. */
  lemma {:induction false} CacheEntryStays(st: State, events: seq<Event>, i: nat, merchant: Id, key: string)
    requires key != "" && i <= |events| && (merchant, key) in StateAfter(st, events[..i]).cache
    requires forall l | i <= l < |events| && IsCallFor(events[l], merchant, key) ::
      events[l].call.readOk || !events[l].call.saveOk
    ensures (merchant, key) in StateAfter(st, events).cache
    ensures StateAfter(st, events).cache[(merchant, key)] == StateAfter(st, events[..i]).cache[(merchant, key)]
  {
    if i < |events| {
      var n := |events| - 1;
      assert events[..n][..i] == events[..i];
      CacheEntryStays(st, events[..n], i, merchant, key);
      assert IsCallFor(events[n], merchant, key) ==> events[n].call.readOk || !events[n].call.saveOk;
    } else {
      assert events[..i] == events;
    }
  }

  /** The answer of call i is in the store after it: it saved it, or had it from there. */
  lemma AnswerIsStored(st: State, events: seq<Event>, i: nat)
    requires i < |events| && events[i].Request? && events[i].call.key != "" && AnswerAt(st, events, i).Answered?
    requires var c := events[i].call;
      c.saveOk || (c.readOk && SavedBefore(st, events, i, c.merchant, c.key))
    ensures var c, cache, answer := events[i].call, StateAfter(st, events[..i + 1]).cache, AnswerAt(st, events, i);
      && (c.merchant, c.key) in cache
      && cache[(c.merchant, c.key)].reply == answer.reply && cache[(c.merchant, c.key)].status == answer.status
  {
    ReplaysIffSavedBefore(st, events, i);
    assert events[..i + 1][..i] == events[..i];
  }

  /** Replay: once call i's answer is stored, a later call of the same merchant and key whose read succeeds
      gets the same reply and status, whatever its body, and changes nothing; unless a call in between lost
      its read and saved another answer. */
  lemma LaterCallReplaysAnswer(st: State, events: seq<Event>, i: nat, j: nat)
    requires i < j < |events| && events[i].Request? && events[i].call.key != "" && AnswerAt(st, events, i).Answered?
    requires IsCallFor(events[j], events[i].call.merchant, events[i].call.key) && events[j].call.readOk
    requires var c := events[i].call;
      c.saveOk || (c.readOk && SavedBefore(st, events, i, c.merchant, c.key))
    requires forall l | i < l < j && IsCallFor(events[l], events[i].call.merchant, events[i].call.key) ::
      events[l].call.readOk || !events[l].call.saveOk
    ensures AnswerAt(st, events, j) == AnswerAt(st, events, i)
    ensures StateAfter(st, events[..j + 1]) == StateAfter(st, events[..j])
  {
    var c := events[i].call;
    AnswerIsStored(st, events, i);
    assert events[..j][..i + 1] == events[..i + 1];
    CacheEntryStays(st, events[..j], i + 1, c.merchant, c.key);
    assert events[..j + 1][..j] == events[..j];
  }

  /** The call at position i settled: it answered with success of its own and its charge row appeared. */
  predicate Settles(st: State, events: seq<Event>, i: nat) {
    && i < |events| && events[i].Request?
    && var before := StateAfter(st, events[..i]);
    && StateAfter(st, events[..i + 1]).db != before.db
    && ChargeSpec(before, events[i].call).1 == SucceededAnswer(events[i].call)
  }

  /** A call that settles stores a new charge row. */
  lemma SettlementIsNew(db: DB, c: Call)
    requires CanSettle(db, c)
    ensures Charged(db, c).1 == SucceededAnswer(c) && ChargeOf(c.chargeId) !in db
    ensures Find(Charged(db, c).0, ChargeOf(c.chargeId)) == Some(ChargeRow(SettleOp(c)))
  {
    SettlesIffNetPositive(State(db, map[]), c);
    LegKeys(db[ChargeOf(c.chargeId) := ChargeRow(SettleOp(c))], c.chargeId, SettleOp(c).entries);
  }

  /** From one state: a call settles exactly when it could and is not a replay. */
  lemma SettlesFrom(st: State, c: Call)
    ensures ChargeSpec(st, c).0.db != st.db && ChargeSpec(st, c).1 == SucceededAnswer(c)
      <==> CanSettle(st.db, c) && !IsReplay(st, c)
  {
    if !IsReplay(st, c) && c.check.Accepted? {
      SettlesIffNetPositive(st, c);
      if CanSettle(st.db, c) {
        SettlementIsNew(st.db, c);
      }
    }
  }

  /** Exactly when a call settles, in any sequence of calls and other operations. */
  lemma SettlesIffNotReplayed(st: State, events: seq<Event>, j: nat)
    requires j < |events| && events[j].Request?
    ensures var c := events[j].call;
      Settles(st, events, j)
      <==> CanSettle(StateAfter(st, events[..j]).db, c)
           && !(c.key != "" && c.readOk && SavedBefore(st, events, j, c.merchant, c.key))
  {
    ReplaysIffSavedBefore(st, events, j);
    assert events[..j + 1][..j] == events[..j];
    SettlesFrom(StateAfter(st, events[..j]), events[j].call);
  }

  predicate AreCallsFor(events: seq<Event>, i: nat, j: nat, merchant: Id, key: string) {
    i < j < |events| && IsCallFor(events[i], merchant, key) && IsCallFor(events[j], merchant, key)
  }

  predicate BothSettle(st: State, events: seq<Event>, i: nat, j: nat, merchant: Id, key: string) {
    AreCallsFor(events, i, j, merchant, key) && Settles(st, events, i) && Settles(st, events, j)
  }

  /** Call j comes after a settling call of its key, could itself settle, and either loses its read or has no
      saved answer before it. */
  ghost predicate SlipsThrough(st: State, events: seq<Event>, i: nat, j: nat, merchant: Id, key: string) {
    && AreCallsFor(events, i, j, merchant, key) && Settles(st, events, i)
    && CanSettle(StateAfter(st, events[..j]).db, events[j].call)
    && (!events[j].call.readOk || !SavedBefore(st, events, j, merchant, key))
  }

  lemma BothSettleIffSlipsThrough(st: State, events: seq<Event>, i: nat, j: nat, merchant: Id, key: string)
    requires key != ""
    ensures BothSettle(st, events, i, j, merchant, key) <==> SlipsThrough(st, events, i, j, merchant, key)
  {
    if AreCallsFor(events, i, j, merchant, key) {
      SettlesIffNotReplayed(st, events, j);
    }
  }

  /** At most one settlement per merchant and key, exactly when no call slips through. */
  lemma AtMostOneSettlementIff(st: State, events: seq<Event>, merchant: Id, key: string)
    requires key != ""
    ensures (forall i: nat, j: nat :: !BothSettle(st, events, i, j, merchant, key))
      <==> (forall i: nat, j: nat :: !SlipsThrough(st, events, i, j, merchant, key))
  {
    forall i: nat, j: nat
      ensures BothSettle(st, events, i, j, merchant, key) <==> SlipsThrough(st, events, i, j, merchant, key)
    {
      BothSettleIffSlipsThrough(st, events, i, j, merchant, key);
    }
  }

  /** In particular when no read of the key is lost and every settling call's answer is saved. */
  lemma AtMostOneSettlementPerKey(st: State, events: seq<Event>, merchant: Id, key: string)
    requires key != ""
    requires forall i: nat | i < |events| && IsCallFor(events[i], merchant, key) ::
      events[i].call.readOk && (Settles(st, events, i) ==> events[i].call.saveOk)
    ensures forall i: nat, j: nat :: !BothSettle(st, events, i, j, merchant, key)
  {
    forall i: nat, j: nat ensures !SlipsThrough(st, events, i, j, merchant, key) {
      if AreCallsFor(events, i, j, merchant, key) && Settles(st, events, i) {
        assert Saves(st, events, i, merchant, key);
      }
    }
    AtMostOneSettlementIff(st, events, merchant, key);
  }

  /** Two calls, one after the other, with a new key and room for both: both settle if and only if the first
      one's save or the second one's read is lost. */
  lemma TwoCallsSettleTwiceIff(st: State, c: Call, d: Call)
    requires c.key != "" && d.merchant == c.merchant && d.key == c.key && (c.merchant, c.key) !in st.cache
    requires CanSettle(st.db, c) && CanSettle(ChargeSpec(st, c).0.db, d)
    ensures Settles(st, [Request(c), Request(d)], 0) && Settles(st, [Request(c), Request(d)], 1)
      <==> !c.saveOk || !d.readOk
  {
    var events := [Request(c), Request(d)];
    assert events[..0] == [] && events[..1] == [Request(c)];
    SettlesIffNotReplayed(st, events, 0);
    SettlesIffNotReplayed(st, events, 1);
    SettlesIffNetPositive(st, c);
    assert AnswerAt(st, events, 0).Answered?;
    assert Saves(st, events, 0, c.merchant, c.key) <==> c.saveOk;
  }
}
