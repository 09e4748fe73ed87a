/** Every committed operation leaves every law's total unchanged. */
module Laws {
  import opened Money
  import opened Tables
  import opened Programs
  import opened Specs
  import opened History
  import opened Sums

  /** Both system accounts exist, and so does every merchant's settlement wallet. */
  ghost predicate Seeded(db: DB) {
    && ClearingAccount in db && FeeAccount in db
    && forall m | MerchantOf(m) in db :: db[MerchantOf(m)].Merchant? && WalletOf(db[MerchantOf(m)].settlement) in db
  }

  ghost predicate SameMerchants(base: DB, db: DB) {
    forall m :: Find(base, MerchantOf(m)) == Find(db, MerchantOf(m))
  }

  ghost predicate IsSettlementWallet(db: DB, wallet: int) {
    exists m :: MerchantOf(m) in db && db[MerchantOf(m)].Merchant? && db[MerchantOf(m)].settlement == wallet
  }

  /** The laws that look up fee rates look them up among the same merchants; a statement law is for a
      wallet that is nobody's settlement wallet. */
  ghost predicate Applies(law: Law, db: DB) {
    match law
    case Conservation(base) => SameMerchants(base, db)
    case FeeLedger(base) => SameMerchants(base, db)
    case WalletStatement(wallet) => !IsSettlementWallet(db, wallet)
    case _ => true
  }

  /** What crediting `change` to account `id` adds to the law's total. */
  function CreditWeight(law: Law, id: RowId, change: int): int {
    match law
    case Conservation(_) => if id == ClearingAccount then -change else change
    case ClearingLedger => if id == ClearingAccount then change else 0
    case FeeLedger(_) => if id == FeeAccount then change else 0
    case WalletStatement(wallet) => if id == WalletOf(wallet) then change else 0
    case _ => 0
  }

  /** `id` is a wallet or a system account with a row of its own type. */
  predicate IsAccount(db: DB, id: RowId) {
    && id in db
    && ((id.WalletOf? && db[id].Wallet?) || ((id == ClearingAccount || id == FeeAccount) && db[id].Account?))
  }

  lemma CreditKeepsAccounts(db: DB, id: RowId, change: int)
    requires IsAccount(db, id)
    ensures forall other | IsAccount(db, other) :: IsAccount(Credited(db, id, change), other)
  {
  }

  lemma BalanceWeighs(law: Law, id: RowId, row: Row, change: int)
    requires (id.WalletOf? && row.Wallet?) || ((id == ClearingAccount || id == FeeAccount) && row.Account?)
    ensures LawWeight(law, id, row.(balance := row.balance + change))
      == LawWeight(law, id, row) + CreditWeight(law, id, change)
  {
  }

  lemma CreditSum(law: Law, db: DB, id: RowId, change: int)
    requires IsAccount(db, id)
    ensures Total(law, Credited(db, id, change)) == Total(law, db) + CreditWeight(law, id, change)
  {
    var row := db[id];
    var credited := row.(balance := row.balance + change);
    assert Credited(db, id, change) == db[id := credited];
    BalanceWeighs(law, id, row, change);
    TotalWrite(law, db, id, credited);
  }

  lemma TransferKeepsLaw(law: Law, op: Op, db: DB)
    requires op.Transfer? && WellFormed(db) && Spec(op, db).Committed?
    ensures Total(law, Spec(op, db).db) == Total(law, db)
  {
    var debited := Credited(db, WalletOf(op.from), -op.amount);
    var moved := Credited(debited, WalletOf(op.to), op.converted);
    CreditSum(law, db, WalletOf(op.from), -op.amount);
    CreditSum(law, debited, WalletOf(op.to), op.converted);
    TotalWrite(law, moved, KeyOf(op.key), KeyRec);
    TotalWrite(law, moved[KeyOf(op.key) := KeyRec], TxOf(op.key), TransferRow(op));
    TransferWeights(law, op);
  }

  lemma TransferWeights(law: Law, op: Op)
    requires op.Transfer? && op.from != op.to
    ensures CreditWeight(law, WalletOf(op.from), -op.amount) + CreditWeight(law, WalletOf(op.to), op.converted)
      + LawWeight(law, KeyOf(op.key), KeyRec) + LawWeight(law, TxOf(op.key), TransferRow(op)) == 0
  {
  }

  lemma CheckoutShape(op: Op, db: DB, session: Row, fee: int, net: int)
    requires op.Checkout? && WellFormed(db) && Seeded(db) && Issued(op, db) && Spec(op, db).Committed?
    requires session == db[SessionOf(op.session)]
    requires fee == Fee(session.amount, op.bps) && net == Net(session.amount, fee)
    ensures Spec(op, db).db == CheckoutRecords(CheckoutCredits(db, op, session.amount, fee, net), op, session)
    ensures IsAccount(db, WalletOf(op.wallet)) && IsAccount(db, WalletOf(op.settlement)) && IsAccount(db, FeeAccount)
    ensures session.sessionStatus == Pending && SessionOf(op.session) in db && TxOf(op.txId) !in db
  {
    assert RowOk(WalletOf(op.settlement), db[WalletOf(op.settlement)]) && RowOk(FeeAccount, db[FeeAccount]);
  }

  lemma CheckoutKeepsLaw(law: Law, op: Op, db: DB)
    requires op.Checkout? && WellFormed(db) && Seeded(db) && Applies(law, db)
    requires Issued(op, db) && Spec(op, db).Committed?
    ensures Total(law, Spec(op, db).db) == Total(law, db)
  {
    var session := db[SessionOf(op.session)];
    var fee := Fee(session.amount, op.bps);
    var net := Net(session.amount, fee);
    CheckoutShape(op, db, session, fee, net);
    CheckoutSum(law, op, db, session, fee, net);
    CheckoutWeights(law, op, db, session, fee, net);
  }

  lemma CheckoutSum(law: Law, op: Op, db: DB, session: Row, fee: int, net: int)
    requires op.Checkout? && IsAccount(db, WalletOf(op.wallet))
    requires IsAccount(db, WalletOf(op.settlement)) && IsAccount(db, FeeAccount)
    requires session.Session? && Find(db, SessionOf(op.session)) == Some(session) && TxOf(op.txId) !in db
    ensures Total(law, CheckoutRecords(CheckoutCredits(db, op, session.amount, fee, net), op, session))
      == Total(law, db) + CreditWeight(law, WalletOf(op.wallet), -session.amount)
      + CreditWeight(law, WalletOf(op.settlement), net) + CreditWeight(law, FeeAccount, Positive(fee))
      + LawWeight(law, TxOf(op.txId), CheckoutRow(op, session.amount))
      + LawWeight(law, SessionOf(op.session), PaidSession(op, session)) - LawWeight(law, SessionOf(op.session), session)
  {
    var credited := CheckoutCredits(db, op, session.amount, fee, net);
    CheckoutCreditsSum(law, op, db, session.amount, fee, net);
    CheckoutRecordsSum(law, op, credited, session);
  }

  lemma CheckoutRecordsSum(law: Law, op: Op, credited: DB, session: Row)
    requires op.Checkout? && session.Session? && Find(credited, SessionOf(op.session)) == Some(session)
    requires TxOf(op.txId) !in credited
    ensures Total(law, CheckoutRecords(credited, op, session)) ==
      Total(law, credited) + LawWeight(law, TxOf(op.txId), CheckoutRow(op, session.amount))
         + LawWeight(law, SessionOf(op.session), PaidSession(op, session))
         - LawWeight(law, SessionOf(op.session), session)
  {
    var recorded := credited[TxOf(op.txId) := CheckoutRow(op, session.amount)];
    TotalWrite(law, credited, TxOf(op.txId), CheckoutRow(op, session.amount));
    TotalWrite(law, recorded, SessionOf(op.session), PaidSession(op, session));
  }

  lemma CheckoutCreditsSum(law: Law, op: Op, db: DB, amount: int, fee: int, net: int)
    requires op.Checkout? && IsAccount(db, WalletOf(op.wallet))
    requires IsAccount(db, WalletOf(op.settlement)) && IsAccount(db, FeeAccount)
    ensures Total(law, CheckoutCredits(db, op, amount, fee, net)) == Total(law, db)
      + CreditWeight(law, WalletOf(op.wallet), -amount)
      + CreditWeight(law, WalletOf(op.settlement), net) + CreditWeight(law, FeeAccount, Positive(fee))
  {
    ThreeCredits(law, db, WalletOf(op.wallet), -amount, WalletOf(op.settlement), net, FeeAccount, Positive(fee));
  }

  lemma ThreeCredits(law: Law, db: DB, a: RowId, x: int, b: RowId, y: int, c: RowId, z: int)
    requires IsAccount(db, a) && IsAccount(db, b) && IsAccount(db, c)
    ensures Total(law, Credited(Credited(Credited(db, a, x), b, y), c, z)) ==
      Total(law, db) + CreditWeight(law, a, x) + CreditWeight(law, b, y) + CreditWeight(law, c, z)
  {
    var first := Credited(db, a, x);
    CreditKeepsAccounts(db, a, x);
    CreditSum(law, db, a, x);
    var second := Credited(first, b, y);
    CreditKeepsAccounts(first, b, y);
    CreditSum(law, first, b, y);
    CreditSum(law, second, c, z);
  }

  /** The weights of the activity row and of the PAID mark. */
  lemma CheckoutRecordWeights(law: Law, op: Op, session: Row, fee: int, net: int)
    requires op.Checkout? && session.Session? && session.sessionStatus == Pending
    requires net == Net(session.amount, fee)
    requires law.Conservation? || law.FeeLedger? ==> MerchantFee(law.base, session.merchant, session.amount) == fee
    requires law.WalletStatement? ==> op.settlement != law.wallet
    ensures LawWeight(law, TxOf(op.txId), CheckoutRow(op, session.amount))
      + LawWeight(law, SessionOf(op.session), PaidSession(op, session))
      - LawWeight(law, SessionOf(op.session), session)
      == match law
         case Conservation(_) => session.amount - net - Positive(fee)
         case FeeLedger(_) => -Positive(fee)
         case WalletStatement(wallet) => if op.wallet == wallet then session.amount else 0
         case _ => 0
  {
  }

  lemma CheckoutWeights(law: Law, op: Op, db: DB, session: Row, fee: int, net: int)
    requires op.Checkout? && Applies(law, db) && Issued(op, db)
    requires session == db[SessionOf(op.session)] && session.sessionStatus == Pending
    requires fee == Fee(session.amount, op.bps) && net == Net(session.amount, fee)
    ensures CreditWeight(law, WalletOf(op.wallet), -session.amount)
      + CreditWeight(law, WalletOf(op.settlement), net) + CreditWeight(law, FeeAccount, Positive(fee))
      + LawWeight(law, TxOf(op.txId), CheckoutRow(op, session.amount))
      + LawWeight(law, SessionOf(op.session), PaidSession(op, session))
      - LawWeight(law, SessionOf(op.session), session) == 0
  {
    if law.Conservation? || law.FeeLedger? {
      assert Find(law.base, MerchantOf(session.merchant)) == Find(db, MerchantOf(session.merchant));
    }
    CheckoutRecordWeights(law, op, session, fee, net);
  }

  /** The tables after a committed card payment, as a debit and two records. */
  function CardPayRecords(debited: DB, op: Op, card: Row): DB
    requires op.CardPay? && card.Card?
  {
    debited[CardOf(op.card) := card.(spent := card.spent + op.amount)][TxOf(op.txId) := CardPayRow(op, card.wallet)]
  }

  lemma CardPaySum(law: Law, op: Op, debited: DB, card: Row)
    requires op.CardPay? && card.Card? && Find(debited, CardOf(op.card)) == Some(card) && TxOf(op.txId) !in debited
    ensures Total(law, CardPayRecords(debited, op, card)) == Total(law, debited)
      + LawWeight(law, CardOf(op.card), card.(spent := card.spent + op.amount)) - LawWeight(law, CardOf(op.card), card)
      + LawWeight(law, TxOf(op.txId), CardPayRow(op, card.wallet))
  {
    var spent := card.(spent := card.spent + op.amount);
    TotalWrite(law, debited, CardOf(op.card), spent);
    TotalWrite(law, debited[CardOf(op.card) := spent], TxOf(op.txId), CardPayRow(op, card.wallet));
  }

  lemma CardPayWeights(law: Law, op: Op, card: Row)
    requires op.CardPay? && card.Card?
    ensures CreditWeight(law, WalletOf(card.wallet), -op.amount)
      + LawWeight(law, CardOf(op.card), card.(spent := card.spent + op.amount)) - LawWeight(law, CardOf(op.card), card)
      + LawWeight(law, TxOf(op.txId), CardPayRow(op, card.wallet)) == 0
  {
  }

  lemma CardPayKeepsLaw(law: Law, op: Op, db: DB)
    requires op.CardPay? && WellFormed(db) && Spec(op, db).Committed?
    ensures Total(law, Spec(op, db).db) == Total(law, db)
  {
    var card := db[CardOf(op.card)];
    var debited := Credited(db, WalletOf(card.wallet), -op.amount);
    assert Spec(op, db).db == CardPayRecords(debited, op, card);
    CreditSum(law, db, WalletOf(card.wallet), -op.amount);
    CardPaySum(law, op, debited, card);
    CardPayWeights(law, op, card);
  }

  /** The weight of the ledger rows a settlement adds. */
  function LegsWeight(law: Law, charge: Id, entries: seq<Entry>): int {
    if entries == [] then 0
    else
      var last := |entries| - 1;
      LegsWeight(law, charge, entries[..last]) + LawWeight(law, LegOf(charge, last), Leg(entries[last]))
  }

  lemma {:induction false} LegsSum(law: Law, db: DB, charge: Id, entries: seq<Entry>)
    requires forall i: nat | i < |entries| :: LegOf(charge, i) !in db
    ensures Total(law, WithLegs(db, charge, entries)) == Total(law, db) + LegsWeight(law, charge, entries)
  {
    if entries != [] {
      var last := |entries| - 1;
      LegsSum(law, db, charge, entries[..last]);
      LegKeys(db, charge, entries[..last]);
      TotalWrite(law, WithLegs(db, charge, entries[..last]), LegOf(charge, last), Leg(entries[last]));
    }
  }

  lemma LegsWeightOfSplit(law: Law, charge: Id, amount: int, fee: int, net: int)
    ensures LegsWeight(law, charge, Legs(amount, fee, net)) ==
      LawWeight(law, LegOf(charge, 0), Leg(Entry(AcquiringClearing, Debit, amount)))
      + LawWeight(law, LegOf(charge, 1), Leg(Entry(MerchantPayable, Credit, net)))
      + if fee > 0 then LawWeight(law, LegOf(charge, 2), Leg(Entry(PlatformFeeRevenue, Credit, fee))) else 0
  {
    var two := [Entry(AcquiringClearing, Debit, amount), Entry(MerchantPayable, Credit, net)];
    assert two[..1] == [two[0]] && two[..1][..0] == [];
    if fee > 0 {
      assert Legs(amount, fee, net)[..2] == two;
    } else {
      assert Legs(amount, fee, net) == two;
    }
    assert LegsWeight(law, charge, two[..1]) == LawWeight(law, LegOf(charge, 0), Leg(two[0]));
  }

  function SettleCredits(booked: DB, op: Op): DB
    requires op.Settle?
  {
    Credited(Credited(Credited(booked, WalletOf(op.settlement), op.net), ClearingAccount, op.amount),
             FeeAccount, Positive(op.fee))
  }

  lemma SettleShape(op: Op, db: DB, charged: DB, booked: DB)
    requires op.Settle? && WellFormed(db) && Seeded(db) && Issued(op, db) && Spec(op, db).Committed?
    requires charged == db[ChargeOf(op.charge) := ChargeRow(op)]
    requires booked == WithLegs(charged, op.charge, op.entries)
    ensures Spec(op, db).db == SettleCredits(booked, op) && ChargeOf(op.charge) !in db
    ensures forall i: nat | i < |op.entries| :: LegOf(op.charge, i) !in charged
    ensures IsAccount(booked, WalletOf(op.settlement))
    ensures IsAccount(booked, ClearingAccount) && IsAccount(booked, FeeAccount)
  {
    assert RowOk(ClearingAccount, db[ClearingAccount]) && RowOk(FeeAccount, db[FeeAccount]);
    assert RowOk(WalletOf(op.settlement), db[WalletOf(op.settlement)]);
    LegKeys(charged, op.charge, op.entries);
  }

  lemma SettleKeepsLaw(law: Law, op: Op, db: DB)
    requires op.Settle? && WellFormed(db) && Seeded(db) && Applies(law, db)
    requires Issued(op, db) && Spec(op, db).Committed?
    ensures Total(law, Spec(op, db).db) == Total(law, db)
  {
    var charged := db[ChargeOf(op.charge) := ChargeRow(op)];
    var booked := WithLegs(charged, op.charge, op.entries);
    SettleShape(op, db, charged, booked);
    TotalWrite(law, db, ChargeOf(op.charge), ChargeRow(op));
    LegsSum(law, charged, op.charge, op.entries);
    SettleCreditsSum(law, op, booked);
    SettleWeights(law, op, db);
  }

  lemma SettleCreditsSum(law: Law, op: Op, booked: DB)
    requires op.Settle? && IsAccount(booked, WalletOf(op.settlement))
    requires IsAccount(booked, ClearingAccount) && IsAccount(booked, FeeAccount)
    ensures Total(law, SettleCredits(booked, op)) ==
      Total(law, booked) + CreditWeight(law, WalletOf(op.settlement), op.net)
         + CreditWeight(law, ClearingAccount, op.amount) + CreditWeight(law, FeeAccount, Positive(op.fee))
  {
    ThreeCredits(law, booked, WalletOf(op.settlement), op.net, ClearingAccount, op.amount,
                 FeeAccount, Positive(op.fee));
  }

  lemma SettleWeights(law: Law, op: Op, db: DB)
    requires op.Settle? && Applies(law, db) && Issued(op, db)
    ensures LawWeight(law, ChargeOf(op.charge), ChargeRow(op)) + LegsWeight(law, op.charge, op.entries)
      + CreditWeight(law, WalletOf(op.settlement), op.net)
      + CreditWeight(law, ClearingAccount, op.amount) + CreditWeight(law, FeeAccount, Positive(op.fee)) == 0
  {
    LegsWeightOfSplit(law, op.charge, op.amount, op.fee, op.net);
    SplitWeights(law, op);
    if law.WalletStatement? {
      assert op.settlement != law.wallet;
    }
  }

  /** The weights of the charge row and of its two or three ledger rows. */
  lemma SplitWeights(law: Law, op: Op)
    requires op.Settle?
    ensures LawWeight(law, ChargeOf(op.charge), ChargeRow(op))
      + LawWeight(law, LegOf(op.charge, 0), Leg(Entry(AcquiringClearing, Debit, op.amount)))
      + LawWeight(law, LegOf(op.charge, 1), Leg(Entry(MerchantPayable, Credit, op.net)))
      + (if op.fee > 0 then LawWeight(law, LegOf(op.charge, 2), Leg(Entry(PlatformFeeRevenue, Credit, op.fee))) else 0)
      == match law
         case Conservation(_) => op.amount - op.net - Positive(op.fee)
         case ClearingLedger => -op.amount
         case FeeLedger(_) => -Positive(op.fee)
         case _ => 0
  {
  }

  lemma ShortKeepsLaw(law: Law, op: Op, db: DB)
    requires !op.Transfer? && !op.Checkout? && !op.CardPay? && !op.Settle?
    requires WellFormed(db) && Spec(op, db).Committed?
    ensures Total(law, Spec(op, db).db) == Total(law, db)
  {
    if op.Delete? {
      var wallet := db[WalletOf(op.wallet)];
      TotalWrite(law, db, WalletOf(op.wallet), wallet.(deleted := true));
      DeletionKeepsWeight(law, WalletOf(op.wallet), wallet);
    } else if op.SetCardStatus? {
      if CardOf(op.card) in db && db[CardOf(op.card)].Card? {
        var card := db[CardOf(op.card)];
        TotalWrite(law, db, CardOf(op.card), card.(cardStatus := op.status));
        StatusKeepsWeight(law, CardOf(op.card), card, op.status);
      }
    } else {
      InsertKeepsLaw(law, op, db);
    }
  }

  /** Soft deletion weighs nothing. */
  lemma DeletionKeepsWeight(law: Law, id: RowId, row: Row)
    requires row.Wallet?
    ensures LawWeight(law, id, row.(deleted := true)) == LawWeight(law, id, row)
  {
  }

  /** Card status changes weigh nothing. */
  lemma StatusKeepsWeight(law: Law, id: RowId, row: Row, status: CardStatus)
    requires row.Card?
    ensures LawWeight(law, id, row.(cardStatus := status)) == LawWeight(law, id, row)
  {
  }

  /** An empty wallet, an unused card, a pending session and a failed charge weigh nothing. */
  lemma NewRowWeighsNothing(law: Law, id: RowId, row: Row)
    requires row.Wallet? ==> row.balance == 0
    requires row.Card? ==> row.spent == 0
    requires row.Session? ==> row.sessionStatus == Pending
    requires row.Charge? ==> row.chargeStatus == ChargeFailed
    requires row.Wallet? || row.Card? || row.Session? || row.Charge?
    ensures LawWeight(law, id, row) == 0
  {
  }

  lemma InsertKeepsLaw(law: Law, op: Op, db: DB)
    requires op.FailedCharge? || op.NewWallet? || op.NewCard? || op.NewSession?
    requires Spec(op, db).Committed?
    ensures Total(law, Spec(op, db).db) == Total(law, db)
  {
    var id := Target(op, 0, None);
    var row := Spec(op, db).db[id];
    assert id !in db && Spec(op, db).db == db[id := row];
    TotalWrite(law, db, id, row);
    NewRowWeighsNothing(law, id, row);
  }

  lemma CommitKeepsLaw(law: Law, op: Op, db: DB)
    requires WellFormed(db) && Seeded(db) && Applies(law, db)
    requires Issued(op, db) && Spec(op, db).Committed?
    ensures Total(law, Spec(op, db).db) == Total(law, db)
  {
    if op.Transfer? {
      TransferKeepsLaw(law, op, db);
    } else if op.Checkout? {
      CheckoutKeepsLaw(law, op, db);
    } else if op.CardPay? {
      CardPayKeepsLaw(law, op, db);
    } else if op.Settle? {
      SettleKeepsLaw(law, op, db);
    } else {
      ShortKeepsLaw(law, op, db);
    }
  }

  lemma SettleKeepsMerchants(op: Op, db: DB)
    requires op.Settle? && Spec(op, db).Committed?
    ensures SameMerchants(db, Spec(op, db).db)
  {
    LegKeys(db[ChargeOf(op.charge) := ChargeRow(op)], op.charge, op.entries);
  }

  lemma CheckoutKeepsMerchants(op: Op, db: DB)
    requires op.Checkout? && Spec(op, db).Committed?
    ensures SameMerchants(db, Spec(op, db).db)
  {
  }

  lemma CommitKeepsMerchants(op: Op, db: DB)
    requires Spec(op, db).Committed?
    ensures SameMerchants(db, Spec(op, db).db)
  {
    if op.Settle? {
      SettleKeepsMerchants(op, db);
    } else if op.Checkout? {
      CheckoutKeepsMerchants(op, db);
    }
  }

  lemma SettingsSurvive(base: DB, db: DB)
    requires Seeded(base) && SameMerchants(base, db) && Grows(base, db)
    ensures Seeded(db) && forall wallet :: IsSettlementWallet(db, wallet) <==> IsSettlementWallet(base, wallet)
  {
    forall m | MerchantOf(m) in db
      ensures db[MerchantOf(m)].Merchant? && WalletOf(db[MerchantOf(m)].settlement) in db
    {
      assert Find(base, MerchantOf(m)) == Find(db, MerchantOf(m));
    }
    forall wallet ensures IsSettlementWallet(db, wallet) <==> IsSettlementWallet(base, wallet) {
      if m :| MerchantOf(m) in db && db[MerchantOf(m)].Merchant? && db[MerchantOf(m)].settlement == wallet {
        assert Find(base, MerchantOf(m)) == Find(db, MerchantOf(m));
      }
      if m :| MerchantOf(m) in base && base[MerchantOf(m)].Merchant? && base[MerchantOf(m)].settlement == wallet {
        assert Find(base, MerchantOf(m)) == Find(db, MerchantOf(m));
      }
    }
  }

  lemma {:induction false} ReplayKeepsSettings(base: DB, log: seq<Op>)
    requires WellFormed(base) && Seeded(base) && Replay(base, log).Some?
    ensures SameMerchants(base, Replay(base, log).value) && Seeded(Replay(base, log).value)
    ensures forall wallet :: IsSettlementWallet(Replay(base, log).value, wallet) <==> IsSettlementWallet(base, wallet)
  {
    ReplayKeepsRows(base, log);
    if log != [] {
      var before := log[..|log| - 1];
      ReplayKeepsSettings(base, before);
      var db := Replay(base, before).value;
      CommitKeepsMerchants(log[|log| - 1], db);
      forall m ensures Find(base, MerchantOf(m)) == Find(Replay(base, log).value, MerchantOf(m)) {
        assert Find(base, MerchantOf(m)) == Find(db, MerchantOf(m));
      }
    }
    SettingsSurvive(base, Replay(base, log).value);
  }

  /** Every law's total is the same before and after any history of committed operations. */
  lemma {:induction false} ReplayKeepsLaw(law: Law, base: DB, log: seq<Op>)
    requires WellFormed(base) && Seeded(base) && Replay(base, log).Some?
    requires law.Conservation? || law.FeeLedger? ==> law.base == base
    requires law.WalletStatement? ==> !IsSettlementWallet(base, law.wallet)
    ensures Total(law, Replay(base, log).value) == Total(law, base)
  {
    if log != [] {
      var before := log[..|log| - 1];
      ReplayKeepsLaw(law, base, before);
      ReplayKeepsRows(base, before);
      ReplayKeepsSettings(base, before);
      CommitKeepsLaw(law, log[|log| - 1], Replay(base, before).value);
    }
  }
}
