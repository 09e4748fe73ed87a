/**
 The PostgreSQL tables, as one map from row keys to rows.  A wallet is named by its
 wallet_number; the other keys are the tables' own primary keys.  Rows are never
 removed: wallets are deleted by setting `deleted`.
 */
module Tables {
  import opened Money

  datatype Option<+T> = None | Some(value: T)

  type Id = nat

  datatype CardStatus = CardActive | CardFrozen | CardClosed
  datatype SessionStatus = Pending | Paid | Expired | Failed
  datatype TxStatus = TxPending | TxCompleted | TxFailed
  datatype ChargeStatus = ChargePending | ChargeSucceeded | ChargeFailed
  datatype AccountType = AcquiringClearing | MerchantPayable | PlatformFeeRevenue
  datatype EntryType = Debit | Credit

  datatype Entry = Entry(account: AccountType, kind: EntryType, sum: int)

  datatype RowId =
    | KeyOf(id: Id)
    | UserOf(id: Id)
    | MerchantOf(id: Id)
    | WalletOf(number: int)
    | CardOf(id: Id)
    | SessionOf(id: Id)
    | TxOf(id: Id)
    | ChargeOf(id: Id)
    | LegOf(charge: Id, index: nat)
    | ClearingAccount
    | FeeAccount

  datatype Row =
    | KeyRec
    | UserRec
    | Merchant(settlement: int, bps: int)
    | Wallet(user: Id, currency: string, balance: int, deleted: bool)
    | Card(user: Id, wallet: int, limit: int, spent: int, cardStatus: CardStatus,
           cvv: string, expiryMonth: int, expiryYear: int)
    | Session(merchant: Id, amount: int, currency: string, sessionStatus: SessionStatus,
              expiresAt: int, payer: Option<Id>, paidBy: Option<Id>)
    | TxRec(from: Option<int>, to: Option<int>, amount: int, converted: Option<int>,
            txStatus: TxStatus, card: Option<Id>)
    | Charge(merchant: Id, amount: int, fee: int, net: int, chargeStatus: ChargeStatus)
    | Leg(entry: Entry)
    | Account(balance: int)

  type DB = map<RowId, Row>

  /** The column types and CHECK constraints of the migrations: every stored row meets them. */
  predicate RowOk(id: RowId, row: Row) {
    match id
    case KeyOf(_) => row.KeyRec?
    case UserOf(_) => row.UserRec?
    case MerchantOf(_) => row.Merchant?
    case WalletOf(_) => row.Wallet? && 0 <= row.balance <= INT64_MAX
    case CardOf(_) => row.Card? && 0 <= row.limit <= INT64_MAX && 0 <= row.spent <= INT64_MAX
                      && 1 <= row.expiryMonth <= 12
    case SessionOf(_) => row.Session? && 0 < row.amount <= INT64_MAX
    case TxOf(_) => row.TxRec? && 0 < row.amount <= INT64_MAX
    case ChargeOf(_) => row.Charge? && 0 < row.amount <= INT64_MAX
    case LegOf(_, _) => row.Leg? && 0 < row.entry.sum <= INT64_MAX
    case ClearingAccount => row.Account? && IsInt64(row.balance)
    case FeeAccount => row.Account? && IsInt64(row.balance)
  }

  ghost predicate WellFormed(db: DB) {
    forall id | id in db :: RowOk(id, db[id])
  }

  /** The row a transaction sees: its own uncommitted write if it has one, else the committed row. */
  function Visible(db: DB, overlay: DB, id: RowId): Option<Row> {
    if id in overlay then Some(overlay[id])
    else if id in db then Some(db[id])
    else None
  }

  function Find(db: DB, id: RowId): Option<Row> {
    Visible(db, map[], id)
  }

  predicate IsLiveWallet(row: Option<Row>) {
    row.Some? && row.value.Wallet? && !row.value.deleted
  }

  datatype Error =
    | SameWallet | AlreadyProcessed | WalletNotFound | InsufficientFunds
    | SessionNotFound | NotPayable | SessionExpired | CurrencyMismatch
    | NoRows | CardNotActive | InvalidCardDetails | LimitExceeded
    | NonZeroBalance | SettlementWalletNotFound | DatabaseError

  /** The outcome of a whole transaction: the new committed tables, or an error and no change. */
  datatype Verdict = Committed(db: DB) | Refused(error: Error)
}
